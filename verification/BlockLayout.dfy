// The layout of a block splits from what follows it, and its length is bounded.
module BlockLayout {
  import opened Bits
  import opened BitIO
  import opened Permutations
  import opened CanonicalCode
  import opened SymbolMaps
  import opened Coroutine
  import opened BlockFormat

  lemma {:induction false} BlkHdrTail(k: int, rest: seq<bit>)
    requires 1 <= k <= 7
    ensures BlkHdrBits(k, rest) == BlkHdrBits(k, []) + rest && |BlkHdrBits(k, [])| == 8 * (7 - k)
    decreases 7 - k
  {
    hide ToBits;
    if k == 7 {
      Nothing(rest);
    } else {
      BlkHdrTail(k + 1, rest);
      Assoc(ToBits(BlockByte(k), 8), BlkHdrBits(k + 1, []), rest);
    }
  }

  lemma WordTail(w: nat, rest: seq<bit>)
    ensures WordBits(w, rest) == WordBits(w, []) + rest && |WordBits(w, [])| == 32
  {
    hide ToBits;
    var a, b, c, e := ToBits(w / 0x100_0000 % 256, 8), ToBits(w / 0x1_0000 % 256, 8), ToBits(w / 0x100 % 256, 8), ToBits(w % 256, 8);
    Assoc(e, [], rest);
    Assoc(c, e + [], rest);
    Assoc(b, c + (e + []), rest);
    Assoc(a, b + (c + (e + [])), rest);
    Nothing(rest);
  }

  lemma {:induction false} GroupFlagTail(flags: seq<bool>, i: int, rest: seq<bit>)
    requires 0 <= i <= |flags|
    ensures GroupFlagBits(flags, i, rest) == GroupFlagBits(flags, i, []) + rest
    ensures |GroupFlagBits(flags, i, [])| == |flags| - i
    decreases |flags| - i
  {
    if i == |flags| {
      Nothing(rest);
    } else {
      GroupFlagTail(flags, i + 1, rest);
      Assoc([Flag(flags[i])], GroupFlagBits(flags, i + 1, []), rest);
    }
  }

  lemma {:induction false} ByteFlagTail(inUse: seq<bool>, i: int, j: int, more: seq<bit>, rest: seq<bit>)
    requires |inUse| == 256 && 0 <= i < 16 && 0 <= j <= 16
    ensures ByteFlagBits(inUse, i, j, more + rest) == ByteFlagBits(inUse, i, j, more) + rest
    ensures |ByteFlagBits(inUse, i, j, more)| == 16 - j + |more|
    decreases 16 - j
  {
    if j < 16 {
      ByteFlagTail(inUse, i, j + 1, more, rest);
      Assoc([Flag(inUse[16 * i + j])], ByteFlagBits(inUse, i, j + 1, more), rest);
    }
  }

  lemma {:induction false} MapTail(inUse: seq<bool>, i: int, rest: seq<bit>)
    requires |inUse| == 256 && 0 <= i <= 16
    ensures MapBits(inUse, i, rest) == MapBits(inUse, i, []) + rest && |MapBits(inUse, i, [])| <= 16 * (16 - i)
    decreases 16 - i
  {
    if i == 16 {
      Nothing(rest);
    } else {
      MapTail(inUse, i + 1, rest);
      if GroupUsed(inUse, i) { ByteFlagTail(inUse, i, 0, MapBits(inUse, i + 1, []), rest); }
    }
  }

  lemma {:induction false} UnaryTail(j: nat, more: seq<bit>, rest: seq<bit>)
    ensures UnaryBits(j, more + rest) == UnaryBits(j, more) + rest && |UnaryBits(j, more)| == j + 1 + |more|
  {
    if j == 0 {
      Assoc([0], more, rest);
    } else {
      UnaryTail(j - 1, more, rest);
      Assoc([1], UnaryBits(j - 1, more), rest);
    }
  }

  lemma {:induction false} SelectorTail(sel: seq<int>, rest: seq<bit>)
    requires InRange(sel, 6)
    ensures SelectorBits(sel, rest) == SelectorBits(sel, []) + rest && |SelectorBits(sel, [])| <= 6 * |sel|
  {
    if sel == [] {
      Nothing(rest);
    } else {
      SelectorTail(sel[1..], rest);
      UnaryTail(sel[0], SelectorBits(sel[1..], []), rest);
    }
  }

  lemma {:induction false} DeltaTail(curr: int, len: int, more: seq<bit>, rest: seq<bit>)
    ensures DeltaBits(curr, len, more + rest) == DeltaBits(curr, len, more) + rest
    ensures |DeltaBits(curr, len, more)| == 1 + |more| + 2 * (if curr < len then len - curr else curr - len)
    decreases if curr < len then len - curr else curr - len
  {
    if curr == len {
      Assoc([0], more, rest);
    } else {
      var next := if curr < len then curr + 1 else curr - 1;
      var b: bit := if curr < len then 0 else 1;
      DeltaTail(next, len, more, rest);
      Assoc([b], DeltaBits(next, len, more), rest);
      Assoc([1], [b] + DeltaBits(next, len, more), rest);
    }
  }

  lemma {:induction false} TableTail(len: seq<int>, i: nat, curr: int, more: seq<bit>, rest: seq<bit>)
    requires i <= |len| && Lengths(len, 1, 17) && 1 <= curr <= 17
    ensures TableBits(len, i, curr, more + rest) == TableBits(len, i, curr, more) + rest
    ensures |TableBits(len, i, curr, more)| <= 33 * (|len| - i) + |more|
    decreases |len| - i
  {
    if i < |len| {
      TableTail(len, i + 1, len[i], more, rest);
      DeltaTail(curr, len[i], TableBits(len, i + 1, len[i], more), rest);
      DeltaTail(curr, len[i], TableBits(len, i + 1, len[i], more + rest), []);
    }
  }

  lemma {:induction false} CodingTail(tables: seq<seq<int>>, t: nat, more: seq<bit>, rest: seq<bit>, alphaSize: nat)
    requires t <= |tables| && 3 <= alphaSize <= 258
    requires forall k {:trigger tables[k]} | 0 <= k < |tables| :: |tables[k]| == alphaSize && Lengths(tables[k], 1, 17)
    requires forall k | 0 <= k < |tables| :: tables[k] != [] && tables[k][0] >= 0
    ensures CodingBits(tables, t, more + rest) == CodingBits(tables, t, more) + rest
    ensures |CodingBits(tables, t, more)| <= 8519 * (|tables| - t) + |more|
    decreases |tables| - t
  {
    hide ToBits, TableBits;
    if t < |tables| {
      var len := tables[t];
      assert 1 <= len[0] <= 17;
      CodingTail(tables, t + 1, more, rest, alphaSize);
      TableTail(len, 0, len[0], CodingBits(tables, t + 1, more), rest);
      Assoc(ToBits(len[0], 5), TableBits(len, 0, len[0], CodingBits(tables, t + 1, more)), rest);
    }
  }

  lemma {:induction false} SymbolTail(tables: seq<seq<int>>, alphaSize: int, selector: seq<int>, syms: seq<int>,
                                      k: nat, rest: seq<bit>)
    requires k <= |syms| && Coded(tables, alphaSize, selector, syms)
    ensures SymbolBits(tables, alphaSize, selector, syms, k, rest) == SymbolBits(tables, alphaSize, selector, syms, k, []) + rest
    ensures |SymbolBits(tables, alphaSize, selector, syms, k, [])| <= 17 * (|syms| - k)
    decreases |syms| - k
  {
    hide CodeBits;
    if k == |syms| {
      Nothing(rest);
    } else {
      var len := tables[selector[k / G_SIZE]];
      SymbolTail(tables, alphaSize, selector, syms, k + 1, rest);
      Assoc(CodeBits(len, syms[k]), SymbolBits(tables, alphaSize, selector, syms, k + 1, []), rest);
      CodeBitsLength(len, syms[k]);
    }
  }

  lemma CodeBitsLength(len: seq<int>, s: nat)
    requires s < |len| && len[s] >= 0
    ensures |CodeBits(len, s)| == len[s]
  {
  }

  lemma DataTail(b: Block, rest: seq<bit>)
    requires BlockOk(b)
    ensures TablesAndDataBits(b, rest) == TablesAndDataBits(b, []) + rest
    ensures |TablesAndDataBits(b, [])| <= 8519 * 6 + 17 * |b.syms|
  {
    hide CodingBits, SymbolBits;
    var a := |Used(b.inUse)| + 2;
    SymbolTail(b.tables, a, b.selector, b.syms, 0, rest);
    CodingTail(b.tables, 0, SymbolBits(b.tables, a, b.selector, b.syms, 0, []), rest, a);
  }

  lemma SelectorsTail(b: Block, rest: seq<bit>)
    requires BlockOk(b)
    ensures SelectorsBits(b, rest) == SelectorsBits(b, []) + rest
    ensures |SelectorsBits(b, [])| <= 18 + 6 * |b.selector|
  {
    hide ToBits, SelectorBits;
    SelectorTail(b.selectorMtf, rest);
    Assoc(ToBits(|b.selector|, 15), SelectorBits(b.selectorMtf, []), rest);
    Assoc(ToBits(|b.tables|, 3), ToBits(|b.selector|, 15) + SelectorBits(b.selectorMtf, []), rest);
  }

  function HeadBits(b: Block): seq<bit>
    requires BlockOk(b)
  {
    BlkHdrBits(1, []) + WordBits(b.crc, []) + [0] + ToBits(b.origPtr, 24)
  }

  function MapsBits(b: Block): seq<bit>
    requires BlockOk(b)
  {
    GroupFlagBits(GroupFlags(b.inUse), 0, []) + MapBits(b.inUse, 0, [])
  }

  /** A block is its header, its map, its selectors, its code lengths and its data, and then comes the rest. */
  lemma BlockParts(b: Block, rest: seq<bit>)
    requires BlockOk(b)
    ensures BlockBits(b, rest) == HeadBits(b) + MapsBits(b) + SelectorsBits(b, []) + TablesAndDataBits(b, []) + rest
    ensures |BlockBits(b, [])| <= 51509 + 6 * |b.selector| + 17 * |b.syms|
  {
    hide BlkHdrBits, WordBits, ToBits, GroupFlagBits, MapBits, SelectorsBits, TablesAndDataBits;
    PartsJoin(b, rest);
    PartsJoin(b, []);
    BlkHdrTail(1, []);
    WordTail(b.crc, []);
    GroupFlagTail(GroupFlags(b.inUse), 0, []);
    MapTail(b.inUse, 0, []);
    SelectorsTail(b, []);
    DataTail(b, []);
  }

  lemma PartsJoin(b: Block, rest: seq<bit>)
    requires BlockOk(b)
    ensures BlockBits(b, rest) == HeadBits(b) + MapsBits(b) + SelectorsBits(b, []) + TablesAndDataBits(b, []) + rest
  {
    hide BlkHdrBits, WordBits, ToBits, GroupFlagBits, MapBits, SelectorsBits, TablesAndDataBits;
    var r1 := TablesAndDataBits(b, rest);
    DataTail(b, rest);
    var r2 := SelectorsBits(b, r1);
    SelectorsTail(b, r1);
    var r3 := MapBits(b.inUse, 0, r2);
    MapTail(b.inUse, 0, r2);
    var r4 := GroupFlagBits(GroupFlags(b.inUse), 0, r3);
    GroupFlagTail(GroupFlags(b.inUse), 0, r3);
    var r5 := [0] + (ToBits(b.origPtr, 24) + r4);
    WordTail(b.crc, r5);
    BlkHdrTail(1, WordBits(b.crc, r5));
    Join9(BlkHdrBits(1, []), WordBits(b.crc, []), [0], ToBits(b.origPtr, 24), GroupFlagBits(GroupFlags(b.inUse), 0, []),
          MapBits(b.inUse, 0, []), SelectorsBits(b, []), TablesAndDataBits(b, []), rest);
  }

  lemma Join9<T>(a: seq<T>, b: seq<T>, c: seq<T>, d: seq<T>, e: seq<T>, f: seq<T>, g: seq<T>, h: seq<T>, r: seq<T>)
    ensures a + (b + (c + (d + (e + (f + (g + (h + r))))))) == a + b + c + d + (e + f) + g + h + r
  {
  }
}
