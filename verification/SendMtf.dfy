// The encoder writes a block: the bits that reach the buffer are exactly those of the block layout.
module SendMtf {
  import opened Bits
  import opened BitIO
  import opened Permutations
  import opened CanonicalCode
  import opened SymbolMaps
  import opened Coroutine
  import opened BlockFormat
  import opened BlockLayout
  import opened Selectors
  import opened TableChoice

  ghost predicate Room(w: BitWriter, n: int)
    reads w, w.zbits
  {
    w.Valid() && w.bsLive >= 0 && |w.Emitted()| + n <= 8 * w.zbits.Length
  }

  /** v bits more have been written, and nothing else has changed. */
  twostate predicate Wrote(w: BitWriter, v: seq<bit>)
    requires old(w.Valid())
    reads w, w.zbits
  {
    w.Valid() && w.bsLive >= 0 && w.zbits == old(w.zbits) && w.Emitted() == old(w.Emitted()) + v
  }

  method PutBit(w: BitWriter, v: nat)
    requires Room(w, 1) && v < 2
    modifies w, w.zbits
    ensures Wrote(w, [v])
  {
    assert Pow2(1) == 2;
    assert ToBits(v, 1) == [v] by { assert ToBits(v / 2, 0) == []; }
    w.W(1, v);
  }

  method PutUChar(w: BitWriter, c: byte)
    requires Room(w, 8)
    modifies w, w.zbits
    ensures Wrote(w, ToBits(c, 8))
  {
    Pow2Values();
    w.W(8, c);
  }

  method PutUInt32(w: BitWriter, u: nat)
    requires Room(w, 32)
    modifies w, w.zbits
    ensures Wrote(w, WordBits(u, []))
  {
    hide ToBits;
    ghost var e := w.Emitted();
    PutUChar(w, u / 0x100_0000 % 256);
    PutUChar(w, u / 0x1_0000 % 256);
    PutUChar(w, u / 0x100 % 256);
    PutUChar(w, u % 256);
    Join4(e, ToBits(u / 0x100_0000 % 256, 8), ToBits(u / 0x1_0000 % 256, 8), ToBits(u / 0x100 % 256, 8), ToBits(u % 256, 8));
  }

  lemma Join4<T>(e: seq<T>, a: seq<T>, b: seq<T>, c: seq<T>, d: seq<T>)
    ensures e + a + b + c + d == e + (a + (b + (c + (d + []))))
  {
  }

  method PutUnary(w: BitWriter, m: nat)
    requires Room(w, m + 1)
    modifies w, w.zbits
    ensures Wrote(w, UnaryBits(m, []))
  {
    var j := 0;
    ghost var e := w.Emitted();
    while j < m
      invariant 0 <= j <= m && w.Valid() && w.bsLive >= 0 && w.zbits == old(w.zbits)
      invariant |w.Emitted()| == |e| + j && w.Emitted() + UnaryBits(m - j, []) == e + UnaryBits(m, [])
    {
      Assoc(w.Emitted(), [1], UnaryBits(m - j - 1, []));
      PutBit(w, 1);
      j := j + 1;
    }
    PutBit(w, 0);
  }

  method SendSelectors(w: BitWriter, selectorMtf: seq<int>)
    requires InRange(selectorMtf, 6) && Room(w, |SelectorBits(selectorMtf, [])|)
    modifies w, w.zbits
    ensures Wrote(w, SelectorBits(selectorMtf, []))
  {
    hide UnaryBits;
    ghost var e := w.Emitted();
    var i := 0;
    assert selectorMtf[0..] == selectorMtf;
    while i < |selectorMtf|
      invariant 0 <= i <= |selectorMtf| && w.Valid() && w.bsLive >= 0 && w.zbits == old(w.zbits)
      invariant w.Emitted() + SelectorBits(selectorMtf[i..], []) == e + SelectorBits(selectorMtf, [])
    {
      ghost var rest := SelectorBits(selectorMtf[i + 1..], []);
      assert selectorMtf[i..][1..] == selectorMtf[i + 1..];
      UnaryTail(selectorMtf[i], [], rest);
      Nothing(rest);
      Assoc(w.Emitted(), UnaryBits(selectorMtf[i], []), rest);
      Lengths2(w.Emitted(), UnaryBits(selectorMtf[i], []) + rest, e, SelectorBits(selectorMtf, []));
      PutUnary(w, selectorMtf[i]);
      i := i + 1;
    }
    assert selectorMtf[i..] == [];
    Nothing(w.Emitted());
  }

  lemma Lengths2<T>(a: seq<T>, b: seq<T>, c: seq<T>, d: seq<T>)
    requires a + b == c + d
    ensures |a| + |b| == |c| + |d|
  {
    assert |a + b| == |c + d|;
  }

  /** What is still to be written of e + all, after Emitted has grown to now. */
  ghost predicate Left(now: seq<bit>, left: seq<bit>, e: seq<bit>, all: seq<bit>) {
    now + left == e + all && |now| + |left| == |e| + |all|
  }

  lemma LeftStep(now: seq<bit>, v: seq<bit>, left: seq<bit>, e: seq<bit>, all: seq<bit>)
    requires Left(now, v + left, e, all)
    ensures Left(now + v, left, e, all)
  {
  }

  lemma LeftStart(e: seq<bit>, all: seq<bit>)
    ensures Left(e, all, e, all)
  {
  }

  lemma LeftEnd(now: seq<bit>, e: seq<bit>, all: seq<bit>)
    requires Left(now, [], e, all)
    ensures now == e + all
  {
    assert now + [] == now;
  }

  /** Two bits for each step up. */
  method StepUp(w: BitWriter, curr0: int, len: int, ghost e: seq<bit>, ghost all: seq<bit>) returns (curr: int)
    requires w.Valid() && w.bsLive >= 0 && |e| + |all| <= 8 * w.zbits.Length
    requires Left(w.Emitted(), DeltaBits(curr0, len, []), e, all)
    modifies w, w.zbits
    ensures w.Valid() && w.bsLive >= 0 && w.zbits == old(w.zbits) && curr >= len && (curr0 >= len ==> curr == curr0)
    ensures Left(w.Emitted(), DeltaBits(curr, len, []), e, all)
  {
    hide ToBits, Left, DeltaBits;
    TwoBits();
    curr := curr0;
    while curr < len
      invariant curr0 <= curr && (curr <= len || curr == curr0) && w.Valid() && w.bsLive >= 0 && w.zbits == old(w.zbits)
      invariant Left(w.Emitted(), DeltaBits(curr, len, []), e, all)
    {
      DeltaUp(curr, len);
      LeftRoom(w.Emitted(), DeltaBits(curr, len, []), e, all);
      LeftStep(w.Emitted(), [1, 0], DeltaBits(curr + 1, len, []), e, all);
      w.W(2, 2);
      curr := curr + 1;
    }
  }

  /** Two bits for each step down. */
  method StepDown(w: BitWriter, curr0: int, len: int, ghost e: seq<bit>, ghost all: seq<bit>) returns (curr: int)
    requires w.Valid() && w.bsLive >= 0 && |e| + |all| <= 8 * w.zbits.Length
    requires Left(w.Emitted(), DeltaBits(curr0, len, []), e, all)
    requires curr0 >= len
    modifies w, w.zbits
    ensures w.Valid() && w.bsLive >= 0 && w.zbits == old(w.zbits) && curr == len
    ensures Left(w.Emitted(), DeltaBits(curr, len, []), e, all)
  {
    hide ToBits, Left, DeltaBits;
    TwoBits();
    curr := curr0;
    while curr > len
      invariant curr >= len && w.Valid() && w.bsLive >= 0 && w.zbits == old(w.zbits)
      invariant Left(w.Emitted(), DeltaBits(curr, len, []), e, all)
    {
      DeltaUp(curr, len);
      LeftRoom(w.Emitted(), DeltaBits(curr, len, []), e, all);
      LeftStep(w.Emitted(), [1, 1], DeltaBits(curr - 1, len, []), e, all);
      w.W(2, 3);
      curr := curr - 1;
    }
  }

  method PutDelta(w: BitWriter, curr0: int, len: int) returns (curr: int)
    requires Room(w, |DeltaBits(curr0, len, [])|)
    modifies w, w.zbits
    ensures Wrote(w, DeltaBits(curr0, len, [])) && curr == len
  {
    hide ToBits, Left, DeltaBits;
    ghost var e, all := w.Emitted(), DeltaBits(curr0, len, []);
    LeftStart(e, all);
    curr := StepUp(w, curr0, len, e, all);
    curr := StepDown(w, curr, len, e, all);
    DeltaUp(curr, len);
    LeftRoom(w.Emitted(), DeltaBits(curr, len, []), e, all);
    LeftStep(w.Emitted(), [0], [], e, all);
    LeftEnd(w.Emitted() + [0], e, all);
    PutBit(w, 0);
  }

  lemma LeftRoom(now: seq<bit>, left: seq<bit>, e: seq<bit>, all: seq<bit>)
    requires Left(now, left, e, all)
    ensures |now| + |left| == |e| + |all|
  {
  }

  lemma DeltaUp(curr: int, len: int)
    ensures curr < len ==> DeltaBits(curr, len, []) == [1, 0] + DeltaBits(curr + 1, len, [])
    ensures curr > len ==> DeltaBits(curr, len, []) == [1, 1] + DeltaBits(curr - 1, len, [])
    ensures curr == len ==> DeltaBits(curr, len, []) == [0] + []
  {
    if curr < len { Assoc([1], [0], DeltaBits(curr + 1, len, [])); }
    if curr > len { Assoc([1], [1], DeltaBits(curr - 1, len, [])); }
  }

  lemma TwoBits()
    ensures Pow2(2) == 4 && ToBits(2, 2) == [1, 0] && ToBits(3, 2) == [1, 1]
  {
    assert ToBits(1, 1) == [1];
  }

  method SendTable(w: BitWriter, len: seq<int>)
    requires len != [] && Lengths(len, 1, 17) && Room(w, 5 + |TableBits(len, 0, len[0], [])|)
    modifies w, w.zbits
    ensures Wrote(w, ToBits(len[0], 5) + TableBits(len, 0, len[0], []))
  {
    hide ToBits, DeltaBits;
    ghost var e := w.Emitted();
    var curr := len[0];
    Pow2Small();
    Assoc(e, ToBits(len[0], 5), TableBits(len, 0, len[0], []));
    w.W(5, curr);
    ghost var f := w.Emitted();
    var i := 0;
    while i < |len|
      invariant 0 <= i <= |len| && w.Valid() && w.bsLive >= 0 && w.zbits == old(w.zbits) && 1 <= curr <= 17
      invariant w.Emitted() + TableBits(len, i, curr, []) == f + TableBits(len, 0, len[0], [])
    {
      ghost var rest := TableBits(len, i + 1, len[i], []);
      DeltaTail(curr, len[i], [], rest);
      Nothing(rest);
      Assoc(w.Emitted(), DeltaBits(curr, len[i], []), rest);
      Lengths2(w.Emitted(), DeltaBits(curr, len[i], []) + rest, f, TableBits(len, 0, len[0], []));
      curr := PutDelta(w, curr, len[i]);
      i := i + 1;
    }
    Nothing(w.Emitted());
  }

  method SendTables(w: BitWriter, tables: seq<seq<int>>, ghost a: nat)
    requires 3 <= a <= 258
    requires forall k {:trigger tables[k]} | 0 <= k < |tables| :: |tables[k]| == a && Lengths(tables[k], 1, 17)
    requires forall k | 0 <= k < |tables| :: tables[k] != [] && tables[k][0] >= 0
    requires Room(w, |CodingBits(tables, 0, [])|)
    modifies w, w.zbits
    ensures Wrote(w, CodingBits(tables, 0, []))
  {
    hide ToBits, TableBits;
    ghost var e := w.Emitted();
    var t := 0;
    while t < |tables|
      invariant 0 <= t <= |tables| && w.Valid() && w.bsLive >= 0 && w.zbits == old(w.zbits)
      invariant w.Emitted() + CodingBits(tables, t, []) == e + CodingBits(tables, 0, [])
    {
      ghost var len := tables[t];
      ghost var rest := CodingBits(tables, t + 1, []);
      assert 1 <= len[0] <= 17;
      TableTail(len, 0, len[0], [], rest);
      Nothing(rest);
      ghost var own := ToBits(len[0], 5) + TableBits(len, 0, len[0], []);
      Assoc(ToBits(len[0], 5), TableBits(len, 0, len[0], []), rest);
      Assoc(w.Emitted(), own, rest);
      Lengths2(w.Emitted(), own + rest, e, CodingBits(tables, 0, []));
      SendTable(w, tables[t]);
      t := t + 1;
    }
    Nothing(w.Emitted());
  }

  // ----- the map

  method FindGroups(inUse: array<bool>) returns (inUse16: array<bool>)
    requires inUse.Length == 256
    ensures fresh(inUse16) && inUse16[..] == GroupFlags(inUse[..])
  {
    inUse16 := new bool[16];
    ghost var used := inUse[..];
    var i := 0;
    while i < 16
      invariant 0 <= i <= 16
      invariant forall k {:trigger inUse16[k]} | 0 <= k < i :: inUse16[k] == GroupUsed(used, k)
    {
      inUse16[i] := false;
      var j := 0;
      while j < 16
        invariant 0 <= j <= 16
        invariant forall k {:trigger inUse16[k]} | 0 <= k < i :: inUse16[k] == GroupUsed(used, k)
        invariant inUse16[i] <==> exists x | 16 * i <= x < 16 * i + j :: used[x]
      {
        assert inUse[i * 16 + j] == used[16 * i + j];
        if inUse[i * 16 + j] { inUse16[i] := true; }
        j := j + 1;
      }
      i := i + 1;
    }
  }

  method SendGroupFlags(w: BitWriter, inUse16: array<bool>)
    requires inUse16.Length == 16 && Room(w, |GroupFlagBits(inUse16[..], 0, [])|)
    modifies w, w.zbits
    ensures Wrote(w, GroupFlagBits(inUse16[..], 0, []))
  {
    hide Left;
    ghost var flags := inUse16[..];
    ghost var e, all := w.Emitted(), GroupFlagBits(flags, 0, []);
    LeftStart(e, all);
    var i := 0;
    while i < 16
      invariant 0 <= i <= 16 && w.Valid() && w.bsLive >= 0 && w.zbits == old(w.zbits)
      invariant Left(w.Emitted(), GroupFlagBits(flags, i, []), e, all)
    {
      LeftRoom(w.Emitted(), GroupFlagBits(flags, i, []), e, all);
      LeftStep(w.Emitted(), [Flag(flags[i])], GroupFlagBits(flags, i + 1, []), e, all);
      if inUse16[i] { PutBit(w, 1); } else { PutBit(w, 0); }
      i := i + 1;
    }
    LeftEnd(w.Emitted(), e, all);
  }

  method SendByteFlags(w: BitWriter, inUse: array<bool>, i: nat)
    requires inUse.Length == 256 && i < 16 && Room(w, |ByteFlagBits(inUse[..], i, 0, [])|)
    modifies w, w.zbits
    ensures Wrote(w, ByteFlagBits(inUse[..], i, 0, []))
  {
    hide Left, ByteFlagBits;
    ghost var used := inUse[..];
    ghost var e, all := w.Emitted(), ByteFlagBits(used, i, 0, []);
    LeftStart(e, all);
    var j := 0;
    while j < 16
      invariant 0 <= j <= 16 && w.Valid() && w.bsLive >= 0 && w.zbits == old(w.zbits)
      invariant Left(w.Emitted(), ByteFlagBits(used, i, j, []), e, all)
    {
      ByteFlagNext(used, i, j);
      LeftRoom(w.Emitted(), ByteFlagBits(used, i, j, []), e, all);
      LeftStep(w.Emitted(), [Flag(used[16 * i + j])], ByteFlagBits(used, i, j + 1, []), e, all);
      assert inUse[i * 16 + j] == used[16 * i + j];
      if inUse[i * 16 + j] { PutBit(w, 1); } else { PutBit(w, 0); }
      j := j + 1;
    }
    ByteFlagTail(used, i, 16, [], []);
    LeftEnd(w.Emitted(), e, all);
  }

  lemma ByteFlagNext(used: seq<bool>, i: int, j: int)
    requires |used| == 256 && 0 <= i < 16 && 0 <= j < 16
    ensures ByteFlagBits(used, i, j, []) == [Flag(used[16 * i + j])] + ByteFlagBits(used, i, j + 1, [])
  {
  }

  method SendMap(w: BitWriter, inUse: array<bool>)
    requires inUse.Length == 256
    requires Room(w, |GroupFlagBits(GroupFlags(inUse[..]), 0, []) + MapBits(inUse[..], 0, [])|)
    modifies w, w.zbits
    ensures Wrote(w, GroupFlagBits(GroupFlags(inUse[..]), 0, []) + MapBits(inUse[..], 0, []))
  {
    ghost var used := inUse[..];
    var inUse16 := FindGroups(inUse);
    hide Left, GroupFlagBits, ByteFlagBits;
    ghost var flags := GroupFlags(used);
    ghost var e, all := w.Emitted(), GroupFlagBits(flags, 0, []) + MapBits(used, 0, []);
    LeftStart(e, all);
    LeftStep(e, GroupFlagBits(flags, 0, []), MapBits(used, 0, []), e, all);
    SendGroupFlags(w, inUse16);
    var i := 0;
    while i < 16
      invariant 0 <= i <= 16 && w.Valid() && w.bsLive >= 0 && w.zbits == old(w.zbits)
      invariant inUse[..] == used && inUse16[..] == flags
      invariant Left(w.Emitted(), MapBits(used, i, []), e, all)
    {
      LeftRoom(w.Emitted(), MapBits(used, i, []), e, all);
      if inUse16[i] {
        ghost var rest := MapBits(used, i + 1, []);
        ByteFlagTail(used, i, 0, [], rest);
        Nothing(rest);
        LeftStep(w.Emitted(), ByteFlagBits(used, i, 0, []), rest, e, all);
        SendByteFlags(w, inUse, i);
      }
      i := i + 1;
    }
    LeftEnd(w.Emitted(), e, all);
  }

  // ----- the codes

  /** code[t][v] is the code of symbol v in table t. */
  ghost predicate CodesFor(code: seq<seq<int>>, tables: seq<seq<int>>, a: int) {
    |code| == |tables| && forall t {:trigger code[t]} | 0 <= t < |tables| :: RowFor(code[t], tables[t], a)
  }

  ghost predicate RowFor(row: seq<int>, len: seq<int>, a: int) {
    |row| == |len| == a && Lengths(len, 0, 17) && forall v {:trigger row[v]} | 0 <= v < a :: row[v] == CodeOf(len, v)
  }

  /** The codes of one table. */
  method MakeCode(len: seq<int>, a: nat) returns (code: seq<int>)
    requires 3 <= a <= 258 && TableOk(len, a)
    ensures RowFor(code, len, a)
  {
    hide CodeOf, Pow2;
    var minLen, maxLen := 32, 0;
    var row, codes := new int[a], new int[a];
    var i := 0;
    while i < a
      invariant 0 <= i <= a && 1 <= minLen <= 32 && 0 <= maxLen <= 17
      invariant row[..i] == len[..i] && forall k | 0 <= k < i :: minLen <= len[k] <= maxLen
    {
      if len[i] > maxLen { maxLen := len[i]; }
      if len[i] < minLen { minLen := len[i]; }
      row[i] := len[i];
      assert row[..i + 1] == len[..i + 1];
      i := i + 1;
    }
    assert row[..a] == len;
    AssignCodes(codes, row, minLen, maxLen, a);
    code := codes[..];
  }

  method MakeCodes(tables: seq<seq<int>>, a: nat) returns (code: seq<seq<int>>)
    requires 3 <= a <= 258 && |tables| <= 6 && forall t {:trigger tables[t]} | 0 <= t < |tables| :: TableOk(tables[t], a)
    ensures CodesFor(code, tables, a)
  {
    hide TableOk, CodeOf;
    code := [];
    while |code| < |tables|
      invariant |code| <= |tables| && CodesFor(code, tables[..|code|], a)
    {
      var c := MakeCode(tables[|code|], a);
      code := code + [c];
    }
    assert tables[..|code|] == tables;
  }

  /** The symbols gs..ge, each with the table of its group. */
  method SendGroup(w: BitWriter, tables: seq<seq<int>>, code: seq<seq<int>>, selector: seq<int>, a: nat, syms: seq<int>,
                   gs: nat, ge: nat, selCtr: nat, ghost e: seq<bit>, ghost all: seq<bit>)
    requires Coded(tables, a, selector, syms) && CodesFor(code, tables, a)
    requires gs <= ge < |syms| && gs == G_SIZE * selCtr && ge < G_SIZE * selCtr + G_SIZE
    requires w.Valid() && w.bsLive >= 0 && |e| + |all| <= 8 * w.zbits.Length
    requires Left(w.Emitted(), SymbolBits(tables, a, selector, syms, gs, []), e, all)
    modifies w, w.zbits
    ensures w.Valid() && w.bsLive >= 0 && w.zbits == old(w.zbits)
    ensures Left(w.Emitted(), SymbolBits(tables, a, selector, syms, ge + 1, []), e, all)
  {
    hide Left, SymbolBits, CodeOf, ToBits;
    var i := gs;
    while i <= ge
      invariant gs <= i <= ge + 1 && w.Valid() && w.bsLive >= 0 && w.zbits == old(w.zbits)
      invariant Left(w.Emitted(), SymbolBits(tables, a, selector, syms, i, []), e, all)
    {
      GroupIndex(i, selCtr);
      var t, v := selector[selCtr], syms[i];
      ghost var len := tables[t];
      assert TableOk(len, a) && RowFor(code[t], len, a);
      CodeFits(len, v, 17);
      SymbolBitsStep(tables, a, selector, syms, i, []);
      LeftRoom(w.Emitted(), SymbolBits(tables, a, selector, syms, i, []), e, all);
      LeftStep(w.Emitted(), CodeBits(len, v), SymbolBits(tables, a, selector, syms, i + 1, []), e, all);
      w.W(tables[t][v], code[t][v]);
      i := i + 1;
    }
  }

  lemma GroupIndex(i: nat, g: nat)
    requires G_SIZE * g <= i < G_SIZE * g + G_SIZE
    ensures i / G_SIZE == g
  {
  }

  /** The block data; as many groups are sent as there are selectors. */
  method SendCodes(w: BitWriter, tables: seq<seq<int>>, code: seq<seq<int>>, selector: seq<int>, a: nat, syms: seq<int>)
      returns (selCtr: nat)
    requires Coded(tables, a, selector, syms) && CodesFor(code, tables, a) && |selector| == GroupCount(|syms|)
    requires Room(w, |SymbolBits(tables, a, selector, syms, 0, [])|)
    modifies w, w.zbits
    ensures Wrote(w, SymbolBits(tables, a, selector, syms, 0, [])) && selCtr == |selector|
  {
    hide Left, SymbolBits;
    ghost var e, all := w.Emitted(), SymbolBits(tables, a, selector, syms, 0, []);
    LeftStart(e, all);
    selCtr := 0;
    var gs := 0;
    while gs < |syms|
      invariant 0 <= gs <= |syms| && w.Valid() && w.bsLive >= 0 && w.zbits == old(w.zbits)
      invariant gs == (if G_SIZE * selCtr < |syms| then G_SIZE * selCtr else |syms|) && selCtr == GroupCount(gs)
      invariant Left(w.Emitted(), SymbolBits(tables, a, selector, syms, gs, []), e, all)
    {
      var ge := gs + G_SIZE - 1;
      if ge >= |syms| { ge := |syms| - 1; }
      SendGroup(w, tables, code, selector, a, syms, gs, ge, selCtr, e, all);
      gs := ge + 1;
      selCtr := selCtr + 1;
    }
    SymbolBitsEnd(tables, a, selector, syms, []);
    LeftEnd(w.Emitted(), e, all);
  }

  // ----- sendMTFValues

  function GroupsFor(nMTF: nat): (n: nat)
    ensures 2 <= n <= 6
  {
    if nMTF < 200 then 2 else if nMTF < 600 then 3 else if nMTF < 1200 then 4 else if nMTF < 2400 then 5 else 6
  }

  /** The block that the encoder sends for these symbols. */
  ghost predicate Sends(b: Block, crc: nat, origPtr: nat, inUse: seq<bool>, syms: seq<int>) {
    BlockOk(b) && b.crc == crc && b.origPtr == origPtr && b.inUse == inUse && b.syms == syms &&
    |b.selector| == GroupCount(|syms|)
  }

  method CountUsed(inUse: array<bool>) returns (n: nat)
    requires inUse.Length == 256
    ensures n == |Used(inUse[..])|
  {
    n := 0;
    var i := 0;
    ghost var used := inUse[..];
    while i < 256
      invariant 0 <= i <= 256 && n == |Used(used[..i])|
    {
      UsedStep(used, i);
      if inUse[i] { n := n + 1; }
      i := i + 1;
    }
    assert used[..256] == used;
  }

  method SendHead(w: BitWriter, crc: nat, origPtr: nat)
    requires crc < 0x1_0000_0000 && origPtr < 0x100_0000 && Room(w, 105)
    modifies w, w.zbits
    ensures Wrote(w, BlkHdrBits(1, []) + WordBits(crc, []) + [0] + ToBits(origPtr, 24))
  {
    hide BlkHdrBits, WordBits, ToBits, Grown;
    HeaderBytes();
    WordTail(crc, []);
    ghost var e := w.Emitted();
    GrownStart(e);
    PutNext(w, 0x31, e, []);
    ghost var h1 := [] + ToBits(0x31, 8);
    PutNext(w, 0x41, e, h1);
    ghost var h2 := h1 + ToBits(0x41, 8);
    PutNext(w, 0x59, e, h2);
    ghost var h3 := h2 + ToBits(0x59, 8);
    PutNext(w, 0x26, e, h3);
    ghost var h4 := h3 + ToBits(0x26, 8);
    PutNext(w, 0x53, e, h4);
    ghost var h5 := h4 + ToBits(0x53, 8);
    PutNext(w, 0x59, e, h5);
    ghost var h6 := h5 + ToBits(0x59, 8);
    GrownStep(w.Emitted(), e, h6, WordBits(crc, []));
    PutUInt32(w, crc);
    GrownStep(w.Emitted(), e, h6 + WordBits(crc, []), [0]);
    PutBit(w, 0);
    GrownStep(w.Emitted(), e, h6 + WordBits(crc, []) + [0], ToBits(origPtr, 24));
    w.W(24, origPtr);
    GrownEnd(w.Emitted(), e, h6 + WordBits(crc, []) + [0] + ToBits(origPtr, 24));
  }

  method PutNext(w: BitWriter, c: byte, ghost e: seq<bit>, ghost sofar: seq<bit>)
    requires Room(w, 8) && Grown(w.Emitted(), e, sofar)
    modifies w, w.zbits
    ensures w.Valid() && w.bsLive >= 0 && w.zbits == old(w.zbits) && |w.Emitted()| == |old(w.Emitted())| + 8
    ensures Grown(w.Emitted(), e, sofar + ToBits(c, 8))
  {
    hide ToBits;
    GrownStep(w.Emitted(), e, sofar, ToBits(c, 8));
    PutUChar(w, c);
  }

  /** Since e, sofar has been written. */
  ghost predicate Grown(now: seq<bit>, e: seq<bit>, sofar: seq<bit>) {
    now == e + sofar
  }

  lemma GrownStart(e: seq<bit>)
    ensures Grown(e, e, [])
  {
  }

  lemma GrownStep(now: seq<bit>, e: seq<bit>, sofar: seq<bit>, v: seq<bit>)
    requires Grown(now, e, sofar)
    ensures Grown(now + v, e, sofar + v) && |now + v| == |now| + |v|
  {
  }

  lemma GrownEnd(now: seq<bit>, e: seq<bit>, sofar: seq<bit>)
    requires Grown(now, e, sofar)
    ensures now == e + sofar
  {
  }

  lemma HeaderBytes()
    ensures BlkHdrBits(1, [])
         == [] + ToBits(0x31, 8) + ToBits(0x41, 8) + ToBits(0x59, 8) + ToBits(0x26, 8) + ToBits(0x53, 8) + ToBits(0x59, 8)
    ensures Pow2(24) == 0x100_0000
  {
    hide ToBits;
    Pow2Values();
    var h6 := ToBits(0x59, 8) + [];
    assert BlkHdrBits(7, []) == [] && BlkHdrBits(6, []) == h6;
    assert BlkHdrBits(5, []) == ToBits(0x53, 8) + h6;
    assert BlkHdrBits(4, []) == ToBits(0x26, 8) + (ToBits(0x53, 8) + h6);
    assert BlkHdrBits(3, []) == ToBits(0x59, 8) + (ToBits(0x26, 8) + (ToBits(0x53, 8) + h6));
    assert BlkHdrBits(2, []) == ToBits(0x41, 8) + (ToBits(0x59, 8) + (ToBits(0x26, 8) + (ToBits(0x53, 8) + h6)));
  }

  method SendSelectorPart(w: BitWriter, nGroups: nat, nSelectors: nat, selectorMtf: seq<int>)
    requires nGroups < 8 && nSelectors < 0x8000 && InRange(selectorMtf, 6)
    requires Room(w, 18 + |SelectorBits(selectorMtf, [])|)
    modifies w, w.zbits
    ensures Wrote(w, ToBits(nGroups, 3) + (ToBits(nSelectors, 15) + SelectorBits(selectorMtf, [])))
  {
    hide SelectorBits, ToBits;
    Pow2Small();
    ghost var e := w.Emitted();
    w.W(3, nGroups);
    w.W(15, nSelectors);
    SendSelectors(w, selectorMtf);
    Assoc(e, ToBits(nGroups, 3), ToBits(nSelectors, 15) + SelectorBits(selectorMtf, []));
    Assoc(e + ToBits(nGroups, 3), ToBits(nSelectors, 15), SelectorBits(selectorMtf, []));
  }

  method SendDataPart(w: BitWriter, tables: seq<seq<int>>, code: seq<seq<int>>, selector: seq<int>, a: nat, syms: seq<int>)
    requires 3 <= a <= 258 && Coded(tables, a, selector, syms) && CodesFor(code, tables, a)
    requires |selector| == GroupCount(|syms|)
    requires forall k {:trigger tables[k]} | 0 <= k < |tables| :: |tables[k]| == a && tables[k] != [] && tables[k][0] >= 0
    requires Room(w, |CodingBits(tables, 0, SymbolBits(tables, a, selector, syms, 0, []))|)
    modifies w, w.zbits
    ensures Wrote(w, CodingBits(tables, 0, SymbolBits(tables, a, selector, syms, 0, [])))
  {
    ghost var data := SymbolBits(tables, a, selector, syms, 0, []);
    forall k | 0 <= k < |tables| ensures |tables[k]| == a && Lengths(tables[k], 1, 17) {
      assert TableOk(tables[k], a);
    }
    hide SymbolBits, CodingBits;
    CodingTail(tables, 0, [], data, a);
    Nothing(data);
    ghost var e := w.Emitted();
    SendTables(w, tables, a);
    var selCtr := SendCodes(w, tables, code, selector, a, syms);
    Assoc(e, CodingBits(tables, 0, []), data);
  }

  lemma FrontOk(b: Block)
    requires BlockOk(b)
    ensures b.crc < 0x1_0000_0000 && b.origPtr < 0x100_0000 && |b.inUse| == 256
    ensures 2 <= |b.tables| <= 6 && 1 <= |b.selector| == |b.selectorMtf| < 32768 && InRange(b.selectorMtf, |b.tables|)
  {
  }

  method SendFront(w: BitWriter, inUse: array<bool>, b: Block)
    requires BlockOk(b) && inUse.Length == 256 && inUse[..] == b.inUse && |b.inUse| == 256
    requires Room(w, |HeadBits(b)| + |MapsBits(b)| + |SelectorsBits(b, [])|)
    modifies w, w.zbits
    ensures Wrote(w, HeadBits(b) + MapsBits(b) + SelectorsBits(b, []))
  {
    hide BlockOk, BlockBits, BlkHdrBits, WordBits, ToBits, GroupFlagBits, MapBits, SelectorBits, CodingBits,
      SymbolBits, Coded,
      TableOk, UnMtf, Used, HeadBits, MapsBits, SelectorsBits, TablesAndDataBits, Grown;
    PartsAre(b);
    FrontOk(b);
    ghost var e := w.Emitted();
    ghost var p0, p1, p2 := HeadBits(b), MapsBits(b), SelectorsBits(b, []);
    GrownStart(e);
    GrownStep(e, e, [], p0);
    SendHead(w, b.crc, b.origPtr);
    GrownStep(w.Emitted(), e, [] + p0, p1);
    SendMap(w, inUse);
    GrownStep(w.Emitted(), e, [] + p0 + p1, p2);
    SendSelectorPart(w, |b.tables|, |b.selector|, b.selectorMtf);
    GrownEnd(w.Emitted(), e, [] + p0 + p1 + p2);
    Nothing(p0);
  }

  /** The parts of a block, one after the other. */
  method SendParts(w: BitWriter, inUse: array<bool>, code: seq<seq<int>>, a: nat, b: Block)
    requires BlockOk(b) && inUse.Length == 256 && inUse[..] == b.inUse && a == |Used(b.inUse)| + 2 && |b.inUse| == 256
    requires CodesFor(code, b.tables, a) && |b.selector| == GroupCount(|b.syms|) && Room(w, |BlockBits(b, [])|)
    modifies w, w.zbits
    ensures Wrote(w, BlockBits(b, []))
  {
    hide BlockBits, CodingBits, SymbolBits, TableOk, CodesFor, UnMtf, Used, HeadBits, MapsBits, SelectorsBits,
      TablesAndDataBits;
    TablesSized(b, a);
    BlockParts(b, []);
    PartsAre(b);
    ghost var e := w.Emitted();
    ghost var front := HeadBits(b) + MapsBits(b) + SelectorsBits(b, []);
    SendFront(w, inUse, b);
    SendDataPart(w, b.tables, code, b.selector, a, b.syms);
    Assoc(e, front, TablesAndDataBits(b, []));
    Nothing(front + TablesAndDataBits(b, []));
  }

  lemma TablesSized(b: Block, a: nat)
    requires BlockOk(b) && a == |Used(b.inUse)| + 2
    ensures forall k {:trigger b.tables[k]} | 0 <= k < |b.tables| :: |b.tables[k]| == a && b.tables[k] != [] && b.tables[k][0] >= 0
  {
    forall k | 0 <= k < |b.tables| ensures |b.tables[k]| == a && b.tables[k] != [] && b.tables[k][0] >= 0 {
      assert TableOk(b.tables[k], a);
    }
  }

  /** Header, map, selectors, code lengths and data of one block. */
  method SendBlock(w: BitWriter, crc: nat, origPtr: nat, inUse: array<bool>, syms: seq<int>, start: seq<seq<int>>)
      returns (b: Block)
    requires inUse.Length == 256 && Used(inUse[..]) != [] && crc < 0x1_0000_0000 && origPtr < 0x100_0000
    requires 0 < |syms| <= 900001 && InRange(syms, |Used(inUse[..])| + 2)
    requires |start| == GroupsFor(|syms|) && Costed(start, |Used(inUse[..])| + 2)
    requires Room(w, 51509 + 6 * GroupCount(|syms|) + 17 * |syms|)
    modifies w, w.zbits
    ensures Sends(b, crc, origPtr, inUse[..], syms) && Wrote(w, BlockBits(b, []))
  {
    hide BlockBits, Used, Coded, UnMtf, Costed, CodesFor, BlockOk;
    var n := CountUsed(inUse);
    var a := n + 2;
    var tables, selector := RefineTables(start, a, syms);
    var selectorMtf := EncodeSelectors(selector, |tables|);
    b := Block(crc, origPtr, inUse[..], tables, selector, selectorMtf, syms);
    BuiltOk(b, a);
    var code := MakeCodes(tables, a);
    BlockParts(b, []);
    SendParts(w, inUse, code, a, b);
  }

  lemma PartsSum(p0: seq<bit>, p1: seq<bit>, p2: seq<bit>, p3: seq<bit>)
    ensures [] + p0 + p1 + p2 + p3 == p0 + p1 + p2 + p3 + []
    ensures |p0 + p1 + p2 + p3 + []| == |p0| + |p1| + |p2| + |p3|
  {
  }

  lemma PartsAre(b: Block)
    requires BlockOk(b)
    ensures HeadBits(b) == BlkHdrBits(1, []) + WordBits(b.crc, []) + [0] + ToBits(b.origPtr, 24)
    ensures MapsBits(b) == GroupFlagBits(GroupFlags(b.inUse), 0, []) + MapBits(b.inUse, 0, [])
    ensures SelectorsBits(b, []) == ToBits(|b.tables|, 3) + (ToBits(|b.selector|, 15) + SelectorBits(b.selectorMtf, []))
    ensures TablesAndDataBits(b, []) == CodingBits(b.tables, 0, SymbolBits(b.tables, |Used(b.inUse)| + 2, b.selector, b.syms, 0, []))
    ensures |HeadBits(b)| + |MapsBits(b)| + |SelectorsBits(b, [])| + |TablesAndDataBits(b, [])| == |BlockBits(b, [])|
    ensures |HeadBits(b)| == 105
  {
    BlockParts(b, []);
    BlkHdrTail(1, []);
    WordTail(b.crc, []);
    PartsSum(HeadBits(b), MapsBits(b), SelectorsBits(b, []), TablesAndDataBits(b, []));
  }

  lemma BuiltOk(b: Block, a: nat)
    requires b.crc < 0x1_0000_0000 && b.origPtr < 0x100_0000 && |b.inUse| == 256 && a == |Used(b.inUse)| + 2 >= 3
    requires 2 <= |b.tables| <= 6 && Coded(b.tables, a, b.selector, b.syms) && b.syms != []
    requires |b.selector| == GroupCount(|b.syms|) && |b.syms| <= 900001
    requires |b.selectorMtf| == |b.selector| && InRange(b.selectorMtf, |b.tables|)
    requires UnMtf(b.selectorMtf, Iota(|b.tables|)) == b.selector
    ensures BlockOk(b)
    ensures forall k {:trigger b.tables[k]} | 0 <= k < |b.tables| ::
      |b.tables[k]| == a && b.tables[k] != [] && b.tables[k][0] >= 0 && Lengths(b.tables[k], 1, 17)
  {
    forall k | 0 <= k < |b.tables|
      ensures |b.tables[k]| == a && b.tables[k] != [] && b.tables[k][0] >= 0 && Lengths(b.tables[k], 1, 17) {
      assert TableOk(b.tables[k], a);
    }
  }
}
