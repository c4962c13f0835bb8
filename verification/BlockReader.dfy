// BZ2_decompress: the block decoder as a function that gives up control wherever it runs out of input. Its local
// variables are lost when it returns; at the next call they are restored from the save area.
module BlockReader {
  import opened Bits
  import opened BitIO
  import opened Permutations
  import opened CanonicalCode
  import opened SymbolMaps
  import opened Mtf
  import opened SlidingMtf
  import opened Coroutine
  import opened BitSource
  import Counting
  import Selectors

  const BLOCK_UNIT := 100000

  /** The local variables of the function; uc, minLen and maxLen are not saved. */
  datatype Locals = Locals(
    i: int, j: int, t: int, alphaSize: int, nGroups: int, nSelectors: int, eob: int, groupNo: int, groupPos: int,
    nextSym: int, nblockMAX: int, nblock: int, es: int, n: int, curr: int, zt: int, zn: int, zvec: int, zj: int,
    gSel: int, gMinlen: int, gLimit: seq<int>, gBase: seq<int>, gPerm: seq<int>,
    uc: int, minLen: int, maxLen: int)

  /** save_i, save_j, ... */
  datatype SaveArea = SaveArea(
    i: int, j: int, t: int, alphaSize: int, nGroups: int, nSelectors: int, eob: int, groupNo: int, groupPos: int,
    nextSym: int, nblockMAX: int, nblock: int, es: int, n: int, curr: int, zt: int, zn: int, zvec: int, zj: int,
    gSel: int, gMinlen: int, gLimit: seq<int>, gBase: seq<int>, gPerm: seq<int>)

  const CLEARED := SaveArea(0, 0, 0, 0, 0, 0, 0, 0, 0, 0, 0, 0, 0, 0, 0, 0, 0, 0, 0, 0, 0, [], [], [])

  /** The locals after the save area has been restored into whatever they held. */
  function Restore(a: SaveArea, garbage: Locals): (l: Locals)
  {
    garbage.(i := a.i, j := a.j, t := a.t, alphaSize := a.alphaSize, nGroups := a.nGroups, nSelectors := a.nSelectors,
      eob := a.eob, groupNo := a.groupNo, groupPos := a.groupPos, nextSym := a.nextSym, nblockMAX := a.nblockMAX,
      nblock := a.nblock, es := a.es, n := a.n, curr := a.curr, zt := a.zt, zn := a.zn, zvec := a.zvec, zj := a.zj,
      gSel := a.gSel, gMinlen := a.gMinlen, gLimit := a.gLimit, gBase := a.gBase, gPerm := a.gPerm)
  }

  function SaveOf(l: Locals): SaveArea {
    SaveArea(l.i, l.j, l.t, l.alphaSize, l.nGroups, l.nSelectors, l.eob, l.groupNo, l.groupPos, l.nextSym, l.nblockMAX,
      l.nblock, l.es, l.n, l.curr, l.zt, l.zn, l.zvec, l.zj, l.gSel, l.gMinlen, l.gLimit, l.gBase, l.gPerm)
  }

  /** Every local that is restored was saved. */
  lemma SavedAndRestored(a: SaveArea, garbage: Locals)
    ensures SaveOf(Restore(a, garbage)) == a
  {
  }

  /** What a stretch of code between two reads ends with. */
  datatype Step = Onward | Return(code: Code)

  datatype Result = NeedInput | Done(code: Code)

  ghost predicate CountedBytes(unz: seq<int>, out: seq<byte>) {
    |unz| == 256 && forall c {:trigger unz[c]} | 0 <= c < 256 :: unz[c] == multiset(out)[c]
  }

  /** The decoding tables of one group are those of its code lengths. */
  ghost predicate TableFits(len: seq<int>, limit: seq<int>, base: seq<int>, perm: seq<int>, minLen: int) {
    len != [] && Lengths(len, 1, MAX_CODE) && minLen == FirstWidth(len) &&
    limit == Limits(len, minLen, Longest(len)) && base == Bases(len, minLen, Longest(len)) &&
    |perm| == 258 && |len| <= 258 && perm[..|len|] == ByLength(len, Longest(len) + 1)
  }

  class Reader {
    const input: BitReader
    var state: Label
    var save: SaveArea
    var blockSize100k: int
    var storedBlockCRC: nat
    var storedCombinedCRC: nat
    var blockRandomised: int
    var origPtr: int
    const inUse16: array<bool>
    const inUse: array<bool>
    const seqToUnseq: array<int>
    var nInUse: int
    var selectorMtf: seq<int>
    var selector: seq<int>
    var len: seq<seq<int>>
    var limit: seq<seq<int>>
    var base: seq<seq<int>>
    var perm: seq<seq<int>>
    var minLens: seq<int>
    const mtf: SlidingList
    const unzftab: array<int>
    var tt: array<int>
    // what the decoder has come to, apart from how it is represented
    ghost var model: Saved

    // ----- how the representation fits the model

    ghost predicate Apart()
      reads this`tt
    {
      mtf.mtfa != mtf.mtfbase && seqToUnseq !in {unzftab, mtf.mtfa, mtf.mtfbase, tt} &&
      unzftab !in {mtf.mtfa, mtf.mtfbase, tt} && tt !in {mtf.mtfa, mtf.mtfbase}
    }

    ghost predicate Shape()
      reads this`tt, this`len
    {
      inUse16.Length == 16 && inUse.Length == 256 && inUse16 != inUse && seqToUnseq.Length == 256 && unzftab.Length == 256 &&
      mtf.mtfa.Length == MTFA_SIZE && mtf.mtfbase.Length == 16 &&
      Apart() && |len| == 6 && forall t {:trigger len[t]} | 0 <= t < 6 :: |len[t]| == 258
    }

    ghost predicate Head(d: Saved)
      reads this`state, this`blockSize100k, this`storedBlockCRC, this`storedCombinedCRC, this`blockRandomised, this`origPtr
    {
      state == d.at && blockSize100k == d.level && storedBlockCRC == d.storedBlockCRC &&
      storedCombinedCRC == d.storedCombinedCRC && blockRandomised == d.randomised && origPtr == d.origPtr
    }

    /** After the stream header there is room for a block. */
    ghost predicate Room(d: Saved)
      reads this`tt
    {
      !d.at.Magic? ==> 1 <= d.level <= 9 && tt.Length == BLOCK_UNIT * d.level
    }

    ghost predicate Maps(used16: seq<bool>, used: seq<bool>, byteOf: seq<byte>)
      reads inUse16, inUse, seqToUnseq
    {
      inUse16[..] == used16 && inUse[..] == used && seqToUnseq[..] == byteOf
    }

    ghost predicate Sizes(d: Saved, a: SaveArea)
      reads this`nInUse
    {
      a.alphaSize == AlphaSize(d) && nInUse == AlphaSize(d) - 2
    }

    ghost predicate Selecting(d: Saved, a: SaveArea)
      reads this`nInUse, this`selectorMtf
    {
      Sizes(d, a) && a.nGroups == d.nGroups && a.nSelectors == d.nSelectors && a.i == d.i && a.j == d.j && selectorMtf == d.selectorMtf
    }

    ghost predicate Coding(d: Saved, a: SaveArea)
      reads this`nInUse, this`selector, this`len
    {
      Sizes(d, a) && a.nGroups == d.nGroups && a.nSelectors == |d.selector| && selector == d.selector && a.t == |d.tables| &&
      |len| >= |d.tables| && AlphaSize(d) <= 258 &&
      forall t {:trigger len[t]} | 0 <= t < |d.tables| :: |len[t]| == 258 && len[t][..AlphaSize(d)] == d.tables[t]
    }

    ghost predicate Filling(d: Saved, a: SaveArea)
      reads this`nInUse, this`selector, this`len
    {
      Coding(d, a) && a.i == d.i && a.curr == d.curr && a.t < |len| && 0 <= a.i <= |len[a.t]| && len[a.t][..a.i] == d.table
    }

    ghost predicate Tables(tables: seq<seq<int>>)
      reads this`limit, this`base, this`perm, this`minLens
    {
      |limit| == |base| == |perm| == |minLens| == |tables| &&
      forall t {:trigger tables[t]} | 0 <= t < |tables| :: TableFits(tables[t], limit[t], base[t], perm[t], minLens[t])
    }

    /** The block so far. */
    ghost predicate Column(out: seq<byte>, nblock: int)
      reads this`tt, tt, unzftab
    {
      0 <= nblock == |out| <= tt.Length && tt[..nblock] == out && CountedBytes(unzftab[..], out)
    }

    ghost predicate Listing(yy: seq<int>)
      reads mtf, mtf.mtfa, mtf.mtfbase
    {
      mtf.Valid() && mtf.List() == yy
    }

    /** Between two symbols. */
    ghost predicate Symbols(d: Saved, a: SaveArea, inRun: bool)
      reads this`nInUse, this`selector, this`limit, this`base, this`perm, this`minLens, this`tt, tt, unzftab
      reads mtf, mtf.mtfa, mtf.mtfbase
    {
      Tables(d.tables) && selector == d.selector && a.nSelectors == |d.selector| && a.groupNo == d.groupNo >= -1 &&
      a.groupPos == d.groupPos && a.eob == AlphaSize(d) - 1 && a.nblockMAX == BLOCK_UNIT * d.level &&
      Listing(d.u.yy) && Column(d.u.out, a.nblock) && (inRun ==> a.es == d.u.es >= 0 && a.n == d.u.n >= 1)
    }

    /** The table in use. */
    ghost predicate Chosen(d: Saved, a: SaveArea)
      reads this`limit, this`base, this`perm, this`minLens
    {
      a.gSel == d.gSel && 0 <= d.gSel < |d.tables| && Tables(d.tables) && a.gMinlen == minLens[d.gSel] && a.gLimit == limit[d.gSel] &&
      a.gBase == base[d.gSel] && a.gPerm == perm[d.gSel]
    }

    /** What the code after each label needs of the save area. */
    ghost predicate Live(d: Saved, a: SaveArea)
      reads this`nInUse, this`selector, this`limit, this`base, this`perm, this`minLens, this`tt, tt, unzftab
      reads mtf, mtf.mtfa, mtf.mtfbase, this`selectorMtf, this`len
    {
      match d.at
      case Mapping1 => a.i == d.i
      case Mapping2 => a.i == d.i && a.j == d.j
      case Selector1 => Sizes(d, a)
      case Selector2 => Sizes(d, a) && a.nGroups == d.nGroups
      case Selector3 => Selecting(d, a)
      case Coding1 => Coding(d, a)
      case Coding2 => Filling(d, a)
      case Coding3 => Filling(d, a)
      case MtfBits(inRun) => Symbols(d, a, inRun) && Chosen(d, a) && a.zn == d.zn
      case MtfBit(inRun) => Symbols(d, a, inRun) && Chosen(d, a) && a.zn == d.zn && a.zvec == d.zvec
      case _ => true
    }

    ghost predicate Fits(d: Saved, a: SaveArea)
      reads this`state, this`blockSize100k, this`storedBlockCRC, this`storedCombinedCRC, this`blockRandomised, this`origPtr
      reads this`nInUse, this`selector, this`limit, this`base, this`perm, this`minLens, this`tt, this`selectorMtf, this`len
      reads inUse16, inUse, seqToUnseq, unzftab, tt, mtf, mtf.mtfa, mtf.mtfbase
    {
      Shape() && Head(d) && Room(d) && Maps(d.inUse16, d.inUse, d.byteOf) && Live(d, a)
    }

    /** After a return that is not for want of input. */
    ghost predicate Ended(code: Code, d: Saved, a: SaveArea)
      reads this`state, this`blockSize100k, this`storedBlockCRC, this`storedCombinedCRC, this`blockRandomised, this`origPtr
      reads this`tt, this`len
      reads inUse16, inUse, seqToUnseq, unzftab, tt
    {
      Head(d) && (code == BlockReady ==> Shape() && Room(d) && Maps(d.inUse16, d.inUse, d.byteOf) && Column(d.u.out, a.nblock))
    }

    ghost predicate Does(o: Outcome, l: Locals, r: Step)
      reads this, inUse16, inUse, seqToUnseq, unzftab, tt, mtf, mtf.mtfa, mtf.mtfbase
    {
      match o
      case Go(e) => r == Onward && Fits(e, SaveOf(l))
      case Stop(code, e) => r == Return(code) && Ended(code, e, SaveOf(l))
    }

    /** Ready to be called. */
    ghost predicate Ready()
      reads this, inUse16, inUse, seqToUnseq, unzftab, tt, mtf, mtf.mtfa, mtf.mtfbase, input
    {
      Fits(model, save) && Active(model) && input.BufferOk()
    }

    constructor ()
      ensures Ready() && model.at == Magic(1) && input.Bits() == [] && input.nextIn == []
      ensures fresh(input) && fresh(inUse16) && fresh(inUse) && fresh(seqToUnseq) && fresh(unzftab) && fresh(tt)
      ensures fresh(mtf) && fresh(mtf.mtfa) && fresh(mtf.mtfbase)
    {
      input := new BitReader();
      state, save := Magic(1), CLEARED;
      blockSize100k, storedBlockCRC, storedCombinedCRC, blockRandomised, origPtr := 0, 0, 0, 0, 0;
      var groups, bytes, numbers := new bool[16](_ => false), new bool[256](_ => false), new int[256](_ => 0);
      inUse16, inUse, seqToUnseq, nInUse := groups, bytes, numbers, 0;
      selectorMtf, selector, len := [], [], seq(6, _ => seq(258, _ => 0));
      limit, base, perm, minLens := [], [], [], [];
      mtf := new SlidingList();
      unzftab := new int[256];
      tt := new int[0];
      model := Saved(Magic(1), 0, 0, 0, 0, 0, groups[..], bytes[..], seq(256, _ => 0), 0, 0, 0, 0, [], [], 0, [], [], 0, 0, 0, 0, 0,
                     Unmtf([], 0, 0, []));
    }

    // ----- headers

    method GotMagic(l: Locals, k: int, v: nat, ghost d: Saved) returns (m: Locals, r: Step)
      requires Fits(d, SaveOf(l)) && d.at == Magic(k) && Sized(d)
      modifies this`state, this`blockSize100k, this`tt
      ensures Does(AfterMagic(d, k, v), m, r) && (tt == old(tt) || fresh(tt))
    {
      hide Symbols, Chosen, Coding, Filling, Selecting, Sizes, Maps, Column;
      m, r := l.(uc := v), Onward;
      if k < 4 {
        if v != MagicByte(k) { return m, Return(DataErrorMagic); }
        state := Magic(k + 1);
      } else {
        blockSize100k := v;
        if v < 0x30 + 1 || v > 0x30 + 9 { return m, Return(DataErrorMagic); }
        blockSize100k := blockSize100k - 0x30;
        tt := new int[BLOCK_UNIT * blockSize100k];
        state := BlkHdr(1);
      }
    }

    method GotBlkHdr(l: Locals, k: int, v: nat, ghost d: Saved) returns (m: Locals, r: Step)
      requires Fits(d, SaveOf(l)) && d.at == BlkHdr(k) && Sized(d)
      modifies this`state, this`storedBlockCRC
      ensures Does(AfterBlkHdr(d, k, v), m, r)
    {
      hide Symbols, Chosen, Coding, Filling, Selecting, Sizes, Maps, Column;
      m, r := l.(uc := v), Onward;
      if k == 1 && v == EndByte(1) {
        state := EndHdr(2);
      } else if v != BlockByte(k) {
        r := Return(DataError);
      } else if k < 6 {
        state := BlkHdr(k + 1);
      } else {
        storedBlockCRC := 0;
        state := BCrc(1);
      }
    }

    method GotBCrc(l: Locals, k: int, v: nat, ghost d: Saved) returns (m: Locals, r: Step)
      requires Fits(d, SaveOf(l)) && d.at == BCrc(k) && Sized(d)
      modifies this`state, this`storedBlockCRC
      ensures Does(AfterBCrc(d, k, v), m, r)
    {
      hide Symbols, Chosen, Coding, Filling, Selecting, Sizes, Maps, Column;
      m, r := l.(uc := v), Onward;
      storedBlockCRC := (storedBlockCRC * 256 + v) % 0x1_0000_0000;
      state := if k < 4 then BCrc(k + 1) else RandBit;
    }

    method GotRandBit(l: Locals, v: nat, ghost d: Saved) returns (m: Locals, r: Step)
      requires Fits(d, SaveOf(l)) && d.at == RandBit && Sized(d)
      modifies this`state, this`blockRandomised, this`origPtr
      ensures Does(AfterRandBit(d, v), m, r)
    {
      hide Symbols, Chosen, Coding, Filling, Selecting, Sizes, Maps, Column;
      m, r := l, Onward;
      blockRandomised := v;
      origPtr := 0;
      state := OrigPtr(1);
    }

    method GotOrigPtr(l: Locals, k: int, v: nat, ghost d: Saved) returns (m: Locals, r: Step)
      requires Fits(d, SaveOf(l)) && d.at == OrigPtr(k) && Sized(d)
      modifies this`state, this`origPtr
      ensures Does(AfterOrigPtr(d, k, v), m, r)
    {
      hide Symbols, Chosen, Coding, Filling, Selecting, Sizes, Maps, Column;
      m, r := l.(uc := v), Onward;
      origPtr := origPtr * 256 + v;
      if k < 3 {
        state := OrigPtr(k + 1);
      } else if origPtr < 0 || origPtr > 10 + BLOCK_UNIT * blockSize100k {
        r := Return(DataError);
      } else {
        m := m.(i := 0);
        state := Mapping1;
      }
    }

    method GotEndHdr(l: Locals, k: int, v: nat, ghost d: Saved) returns (m: Locals, r: Step)
      requires Fits(d, SaveOf(l)) && d.at == EndHdr(k) && Sized(d)
      modifies this`state, this`storedCombinedCRC
      ensures Does(AfterEndHdr(d, k, v), m, r)
    {
      hide Symbols, Chosen, Coding, Filling, Selecting, Sizes, Maps, Column;
      m, r := l.(uc := v), Onward;
      if v != EndByte(k) {
        r := Return(DataError);
      } else if k < 6 {
        state := EndHdr(k + 1);
      } else {
        storedCombinedCRC := 0;
        state := CCrc(1);
      }
    }

    method GotCCrc(l: Locals, k: int, v: nat, ghost d: Saved) returns (m: Locals, r: Step)
      requires Fits(d, SaveOf(l)) && d.at == CCrc(k) && Sized(d)
      modifies this`state, this`storedCombinedCRC
      ensures Does(AfterCCrc(d, k, v), m, r)
    {
      hide Symbols, Chosen, Coding, Filling, Selecting, Sizes, Maps, Column;
      m, r := l.(uc := v), Onward;
      storedCombinedCRC := (storedCombinedCRC * 256 + v) % 0x1_0000_0000;
      if k < 4 {
        state := CCrc(k + 1);
      } else {
        state := Idle;
        r := Return(StreamEnd);
      }
    }

    // ----- the map of bytes in use

    /** A label the code goes on from needs these. */
    ghost predicate Common(d: Saved)
      reads this, inUse16, inUse, seqToUnseq
    {
      Shape() && Head(d) && Room(d) && Maps(d.inUse16, d.inUse, d.byteOf) && Sized(d)
    }

    method GotMapping1(l: Locals, v: nat, ghost d: Saved) returns (m: Locals, r: Step)
      requires Fits(d, SaveOf(l)) && Wf(d) && d.at.Mapping1?
      modifies this`state, this`nInUse, inUse16, inUse, seqToUnseq
      ensures Does(AfterMapping1(d, v), m, r)
    {
      hide AtGroup, Used, Symbols, Chosen, Filling, Column;
      m := l.(uc := v);
      inUse16[m.i] := v == 1;
      assert inUse16[..] == d.inUse16[d.i := v == 1];
      m := m.(i := m.i + 1);
      if m.i < 16 {
        r := Onward;
      } else {
        ClearInUse();
        m := m.(i := 0);
        m, r := AtGroups(m, d.(inUse16 := inUse16[..], i := d.i + 1, inUse := inUse[..]));
      }
    }

    method ClearInUse()
      requires inUse.Length == 256
      modifies inUse
      ensures inUse[..] == seq(256, k => false)
    {
      for k := 0 to 256
        invariant forall x | 0 <= x < k :: !inUse[x]
      {
        inUse[k] := false;
      }
    }

    method GotMapping2(l: Locals, v: nat, ghost d: Saved) returns (m: Locals, r: Step)
      requires Fits(d, SaveOf(l)) && Wf(d) && d.at.Mapping2?
      modifies this`state, this`nInUse, inUse, seqToUnseq
      ensures Does(AfterMapping2(d, v), m, r)
    {
      hide AtGroup, Used, Symbols, Chosen, Filling, Column, Coding, Selecting, Sizes;
      m := l.(uc := v);
      if v == 1 { inUse[m.i * 16 + m.j] := true; }
      assert inUse[..] == if v == 1 then d.inUse[16 * d.i + d.j := true] else d.inUse;
      m := m.(j := m.j + 1);
      if m.j < 16 {
        r := Onward;
      } else {
        m := m.(i := m.i + 1);
        m, r := AtGroups(m, d.(inUse := inUse[..], j := 16));
      }
    }

    /** Go on with group l.i, skipping those without a byte in use. */
    method AtGroups(l: Locals, ghost d: Saved) returns (m: Locals, r: Step)
      requires Common(d) && !d.at.Magic? && 0 <= l.i <= 16
      modifies this`state, this`nInUse, seqToUnseq
      ensures Does(AtGroup(d, l.i), m, r)
    {
      hide Used, Symbols, Chosen, Filling, Column;
      m, r := l, Onward;
      while m.i < 16 && !inUse16[m.i]
        invariant l.i <= m.i <= 16 && m == l.(i := m.i) && NextGroup(d.inUse16, m.i) == NextGroup(d.inUse16, l.i)
        decreases 16 - m.i
      {
        m := m.(i := m.i + 1);
      }
      if m.i < 16 {
        m := m.(j := 0);
        state := Mapping2;
        return;
      }
      ghost var was := seqToUnseq[..];
      nInUse := MakeMapsD(inUse, seqToUnseq);
      assert seqToUnseq[..] == Used(d.inUse) + was[nInUse..] by {
        assert seqToUnseq[..] == seqToUnseq[..nInUse] + seqToUnseq[nInUse..];
      }
      if nInUse == 0 { return m, Return(DataError); }
      m := m.(alphaSize := nInUse + 2);
      state := Selector1;
    }

    // ----- the selectors

    method GotSelector1(l: Locals, v: nat, ghost d: Saved) returns (m: Locals, r: Step)
      requires Fits(d, SaveOf(l)) && Wf(d) && d.at.Selector1?
      modifies this`state
      ensures Does(AfterSelector1(d, v), m, r)
    {
      hide Used, Symbols, Chosen, Filling, Column;
      m, r := l.(nGroups := v), Onward;
      if m.nGroups < 2 || m.nGroups > 6 { return m, Return(DataError); }
      state := Selector2;
    }

    method GotSelector2(l: Locals, v: nat, ghost d: Saved) returns (m: Locals, r: Step)
      requires Fits(d, SaveOf(l)) && Wf(d) && d.at.Selector2?
      modifies this`state, this`selectorMtf
      ensures Does(AfterSelector2(d, v), m, r)
    {
      hide Used, Symbols, Chosen, Filling, Column;
      m, r := l.(nSelectors := v), Onward;
      if m.nSelectors < 1 { return m, Return(DataError); }
      m := m.(i := 0, j := 0);
      selectorMtf := [];
      state := Selector3;
    }

    method GotSelector3(l: Locals, v: nat, ghost d: Saved) returns (m: Locals, r: Step)
      requires Fits(d, SaveOf(l)) && Wf(d) && d.at.Selector3?
      modifies this`state, this`selectorMtf, this`selector
      ensures Does(AfterSelector3(d, v), m, r)
    {
      hide Used, UnMtf, Symbols, Chosen, Filling, Column, Coding, Maps;
      m, r := l.(uc := v), Onward;
      if v != 0 {
        m := m.(j := m.j + 1);
        if m.j >= m.nGroups { r := Return(DataError); }
        return;
      }
      m := OneSelector(m, d);
    }

    /** The position is complete: on to the next selector, or to the tables. */
    method OneSelector(l: Locals, ghost d: Saved) returns (m: Locals)
      requires Fits(d, SaveOf(l)) && Wf(d) && d.at.Selector3?
      modifies this`state, this`selectorMtf, this`selector
      ensures Does(AfterSelector3(d, 0), m, Onward)
    {
      hide Used, UnMtf, Symbols, Chosen, Filling, Column, Maps, Shape, Apart, Coding;
      m := l.(i := l.i + 1);
      if m.i < m.nSelectors {
        selectorMtf := selectorMtf + [m.j];
        m := m.(j := 0);
      } else {
        m := AllSelectors(m, d);
      }
    }

    method AllSelectors(l: Locals, ghost d: Saved) returns (m: Locals)
      requires Shape() && Head(d) && Room(d) && Maps(d.inUse16, d.inUse, d.byteOf) && Sizes(d, SaveOf(l))
      requires selectorMtf == d.selectorMtf
      requires Wf(d) && d.at.Selector3? && l.nGroups == d.nGroups && l.j == d.j && l.nSelectors == |d.selectorMtf| + 1
      modifies this`state, this`selectorMtf, this`selector
      ensures Does(Go(d.(selectorMtf := d.selectorMtf + [d.j], selector := UnMtf(d.selectorMtf + [d.j], Iota(d.nGroups)), tables := [],
                         table := [], i := 0, at := Coding1)), m, Onward)
    {
      hide Used, UnMtf, Symbols, Chosen, Filling, Column, Maps, Shape, Apart, NextGroup, AtGroup;
      AlphaBound(d);
      selectorMtf := selectorMtf + [l.j];
      selector := Selectors.DecodeSelectors(selectorMtf, l.nGroups);
      m := l.(t := 0);
      state := Coding1;
    }

    lemma AlphaBound(d: Saved)
      requires Sized(d)
      ensures AlphaSize(d) <= 258
    {
    }

    // ----- the code lengths

    method GotCoding1(l: Locals, v: nat, ghost d: Saved) returns (m: Locals, r: Step)
      requires Fits(d, SaveOf(l)) && Wf(d) && d.at.Coding1?
      modifies this`state
      ensures Does(AfterCoding1(d, v), m, r)
    {
      hide Used, TablesOk, Lengths;
      m, r := l.(curr := v, i := 0), Onward;
      if m.curr < 1 || m.curr > MAX_CODE { return m, Return(DataError); }
      state := Coding2;
    }

    method GotCoding3(l: Locals, v: nat, ghost d: Saved) returns (m: Locals, r: Step)
      requires Fits(d, SaveOf(l)) && Wf(d) && d.at.Coding3?
      modifies this`state
      ensures Does(AfterCoding3(d, v), m, r)
    {
      hide Used, TablesOk, Lengths;
      m, r := l.(uc := v, curr := if v == 0 then l.curr + 1 else l.curr - 1), Onward;
      if m.curr < 1 || m.curr > MAX_CODE { return m, Return(DataError); }
      state := Coding2;
    }

    /** A length is complete. */
    lemma LengthPut(row: seq<int>, i: int, c: int, table: seq<int>)
      requires 0 <= i < |row| && row[..i] == table
      ensures row[i := c][..i + 1] == table + [c]
    {
    }

    method GotCoding2(l: Locals, v: nat, ghost d: Saved) returns (m: Locals, r: Step)
      requires Fits(d, SaveOf(l)) && Wf(d) && d.at.Coding2?
      modifies this`state, this`len, this`limit, this`base, this`perm, this`minLens, unzftab, mtf.mtfa, mtf.mtfbase
      ensures Does(AfterCoding2(d, v), m, r)
    {
      hide Used, TablesOk, Lengths, AtTable, UnMtf, Listing, Symbols, Tables, Maps;
      m, r := l.(uc := v), Onward;
      if v != 0 {
        state := Coding3;
        return;
      }
      AlphaBound(d);
      CodingFacts(d);
      LengthPut(len[m.t], m.i, m.curr, d.table);
      len := len[m.t := len[m.t][m.i := m.curr]];
      m := m.(i := m.i + 1);
      if m.i < m.alphaSize {
        if m.curr < 1 || m.curr > MAX_CODE { return m, Return(DataError); }
      } else {
        m, r := TableEnds(m, d, d.table + [d.curr]);
      }
    }

    /** On to the lengths of the next group. */
    method NextTable(l: Locals, ghost d: Saved, ghost table: seq<int>)
      requires Common(d) && !d.at.Magic? && InCoding(d) && |table| == AlphaSize(d) && Lengths(table, 1, MAX_CODE)
      requires Coding(d, SaveOf(l.(t := l.t - 1))) && 1 <= l.t < l.nGroups && l.t <= |len| && |len[l.t - 1]| == 258
      requires len[l.t - 1][..AlphaSize(d)] == table
      modifies this`state
      ensures Fits(d.(tables := d.tables + [table], table := [], i := 0, at := Coding1), SaveOf(l))
    {
      hide Used, TablesOk, Lengths, AtBlock, UnMtf, Listing, Symbols, Tables, Maps, Apart, NextGroup;
      state := Coding1;
    }

    /** The lengths of one group are complete: on to the next group or to the data. */
    method TableEnds(l: Locals, ghost d: Saved, ghost table: seq<int>) returns (m: Locals, r: Step)
      requires Common(d) && !d.at.Magic? && InCoding(d) && |table| == AlphaSize(d) && Lengths(table, 1, MAX_CODE)
      requires Coding(d, SaveOf(l)) && l.t < |len| && |len[l.t]| == 258 && len[l.t][..AlphaSize(d)] == table
      requires TablesOk(d.tables + [table], AlphaSize(d))
      modifies this`state, this`limit, this`base, this`perm, this`minLens, unzftab, mtf.mtfa, mtf.mtfbase
      ensures Does(AtTable(d, table), m, r)
    {
      hide Used, TablesOk, Lengths, AtBlock, UnMtf, Listing, Symbols, Tables, Maps, Apart, NextGroup;
      m, r := l.(t := l.t + 1), Onward;
      if m.t < m.nGroups {
        NextTable(m, d, table);
      } else {
        m, r := BeginBlock(m, d.(tables := d.tables + [table], table := [], i := 0));
      }
    }

    lemma CodingFacts(d: Saved)
      requires Sized(d) && InCoding(d) && 1 <= d.curr <= MAX_CODE
      ensures 2 <= d.nGroups <= 6 && |d.tables| < d.nGroups && InRange(d.selector, d.nGroups) && AlphaSize(d) >= 3
      ensures |d.table| + 1 == AlphaSize(d) ==>
        TablesOk(d.tables + [d.table + [d.curr]], AlphaSize(d)) && Lengths(d.table + [d.curr], 1, MAX_CODE)
    {
      AlphaBound(d);
    }

    // ----- the decoding tables

    /** The shortest and the longest of the first n lengths. */
    method MinMax(row: seq<int>, n: nat) returns (minLen: int, maxLen: int)
      requires n <= |row| && Lengths(row[..n], 1, MAX_CODE)
      ensures minLen == Shortest(row[..n]) && maxLen == Longest(row[..n])
    {
      minLen, maxLen := 32, 0;
      for i := 0 to n
        invariant minLen == Shortest(row[..i]) && maxLen == Longest(row[..i])
      {
        assert row[..i + 1][..i] == row[..i];
        if row[i] > maxLen { maxLen := row[i]; }
        if row[i] < minLen { minLen := row[i]; }
      }
    }

    method CopyRow(row: seq<int>) returns (length: array<int>)
      ensures fresh(length) && length[..] == row
    {
      length := new int[|row|];
      for k := 0 to |row|
        invariant length[..k] == row[..k]
      {
        length[k] := row[k];
      }
    }

    /** The tables of one group. */
    method OneTable(row: seq<int>, alphaSize: nat) returns (limit: seq<int>, base: seq<int>, perm: seq<int>, minLen: int, maxLen: int)
      requires 0 < alphaSize <= 258 == |row| && Lengths(row[..alphaSize], 1, MAX_CODE)
      ensures TableFits(row[..alphaSize], limit, base, perm, minLen)
    {
      hide Limits, Bases, ByLength, Lengths, Shortest, Longest, TableFits;
      minLen, maxLen := MinMax(row, alphaSize);
      var limits, bases := new int[MAX_CODE_LEN], new int[MAX_CODE_LEN];
      var perms := new int[258];
      var length := CopyRow(row);
      LengthsTight(row[..alphaSize]);
      CreateDecodeTables(limits, bases, perms, length, minLen, maxLen, alphaSize);
      limit, base, perm := limits[..], bases[..], perms[..];
      TableFitting(row[..alphaSize], limit, base, perm, minLen, maxLen);
    }

    lemma TableFitting(len: seq<int>, limit: seq<int>, base: seq<int>, perm: seq<int>, minLen: int, maxLen: int)
      requires len != [] && Lengths(len, 1, MAX_CODE) && minLen == Shortest(len) >= 0 && maxLen == Longest(len)
      requires limit == Limits(len, minLen, maxLen) && base == Bases(len, minLen, maxLen) && |perm| == 258 >= |len|
      requires perm[..|len|] == ByLength(len, maxLen + 1)
      ensures TableFits(len, limit, base, perm, minLen)
    {
    }

    lemma LengthsTight(len: seq<int>)
      requires len != [] && Lengths(len, 1, MAX_CODE)
      ensures 1 <= Shortest(len) <= Longest(len) <= 20 && Lengths(len, Shortest(len), Longest(len))
    {
      assert Shortest(len) <= len[0] <= Longest(len);
    }

    /** What the tables are made from. */
    ghost predicate AllCoded(d: Saved)
      reads this`nInUse, this`selector, this`len
    {
      2 <= |d.tables| == d.nGroups <= 6 <= |len| && 3 <= AlphaSize(d) <= 258 && TablesOk(d.tables, AlphaSize(d)) &&
      forall t {:trigger len[t]} | 0 <= t < |d.tables| :: |len[t]| == 258 && len[t][..AlphaSize(d)] == d.tables[t]
    }

    method MakeTables(l: Locals, ghost d: Saved) returns (m: Locals)
      requires AllCoded(d) && l.nGroups == d.nGroups && l.alphaSize == AlphaSize(d)
      modifies this`limit, this`base, this`perm, this`minLens
      ensures Tables(d.tables) && SaveOf(m) == SaveOf(l.(t := m.t))
    {
      hide TableFits, Used;
      m := l.(t := 0);
      limit, base, perm, minLens := [], [], [], [];
      while m.t < m.nGroups
        invariant 0 <= m.t <= l.nGroups && SaveOf(m) == SaveOf(l.(t := m.t)) && AllCoded(d)
        invariant |limit| == |base| == |perm| == |minLens| == m.t
        invariant forall t {:trigger d.tables[t]} | 0 <= t < m.t :: TableFits(d.tables[t], limit[t], base[t], perm[t], minLens[t])
        decreases l.nGroups - m.t
      {
        assert len[m.t][..AlphaSize(d)] == d.tables[m.t];
        var li, ba, pe, minLen, maxLen := OneTable(len[m.t], m.alphaSize);
        limit, base, perm, minLens := limit + [li], base + [ba], perm + [pe], minLens + [minLen];
        m := m.(minLen := minLen, maxLen := maxLen, t := m.t + 1);
      }
    }

    // ----- the symbols of the block

    method BeginBlock(l: Locals, ghost d: Saved) returns (m: Locals, r: Step)
      requires Common(d) && !d.at.Magic? && AllCoded(d) && Grouped(d) && InRange(d.selector, d.nGroups)
      requires Sizes(d, SaveOf(l)) && l.nGroups == d.nGroups && l.nSelectors == |d.selector| && selector == d.selector
      modifies this`state, this`limit, this`base, this`perm, this`minLens, unzftab, mtf.mtfa, mtf.mtfbase
      ensures Does(AtBlock(d), m, r)
    {
      hide Used, TableFits, AtSymbol, TablesOk, Does, Fits, Maps;
      m := MakeTables(l, d);
      m := m.(eob := nInUse + 1, nblockMAX := BLOCK_UNIT * blockSize100k, groupNo := -1, groupPos := 0);
      ClearCounts();
      mtf.Init();
      m := m.(nblock := 0);
      ghost var e := d.(groupNo := -1, groupPos := 0, u := Unmtf(Iota(256), d.u.es, d.u.n, []));
      assert mtf.List() == Iota(256);
      assert tt[..0] == [];
      m, r := NextSymbol(m, false, e);
    }

    method ClearCounts()
      requires unzftab.Length == 256
      modifies unzftab
      ensures CountedBytes(unzftab[..], [])
    {
      for i := 0 to 256
        invariant forall c {:trigger unzftab[c]} | 0 <= c < i :: unzftab[c] == 0
      {
        unzftab[i] := 0;
      }
    }

    /** The next selector picks the table of the next group of symbols. */
    method PickTable(l: Locals, inRun: bool, ghost d: Saved) returns (m: Locals)
      requires InMtf(d) && Symbols(d, SaveOf(l), inRun) && 0 <= l.groupNo + 1 < l.nSelectors
      ensures m == l.(groupNo := l.groupNo + 1, groupPos := G_SIZE, gSel := m.gSel, gMinlen := m.gMinlen, gLimit := m.gLimit,
                      gBase := m.gBase, gPerm := m.gPerm)
      ensures Chosen(d.(gSel := d.selector[d.groupNo + 1]), SaveOf(m))
    {
      hide Used, TablesOk, Column, Listing, TableFits;
      m := l.(groupNo := l.groupNo + 1);
      m := m.(groupPos := G_SIZE, gSel := selector[m.groupNo]);
      m := m.(gMinlen := minLens[m.gSel], gLimit := limit[m.gSel], gPerm := perm[m.gSel], gBase := base[m.gSel]);
    }

    /** The first read of a code is as wide as the shortest code of the table in use. */
    method WantCode(l: Locals, inRun: bool, ghost d: Saved) returns (m: Locals, r: Step)
      requires Common(d) && !d.at.Magic? && InMtf(d) && 0 <= d.gSel < d.nGroups && Symbols(d, SaveOf(l), inRun)
      requires Chosen(d, SaveOf(l))
      modifies this`state
      ensures d.tables[d.gSel] != [] && Lengths(d.tables[d.gSel], 1, MAX_CODE)
      ensures Does(Go(d.(zn := FirstWidth(d.tables[d.gSel]), at := MtfBits(inRun))), m, r)
    {
      hide Used, TablesOk, Column, Listing, Tables, TableFits, FirstWidth, Maps;
      TableAt(d, d.gSel);
      m, r := l.(zn := l.gMinlen), Onward;
      state := MtfBits(inRun);
    }

    /** GET_MTF_VAL up to its first read. */
    method NextSymbol(l: Locals, inRun: bool, ghost d: Saved) returns (m: Locals, r: Step)
      requires Common(d) && !d.at.Magic? && InMtf(d) && Symbols(d, SaveOf(l), inRun)
      requires d.groupPos != 0 ==> Chosen(d, SaveOf(l))
      modifies this`state
      ensures Does(AtSymbol(d, inRun), m, r)
    {
      hide Used, TablesOk, Column, Listing, Tables, TableFits, FirstWidth, Maps, Does, Fits;
      m, r := l, Return(DataError);
      if m.groupPos == 0 {
        if m.groupNo + 1 >= m.nSelectors {
          Failed(d.(groupNo := d.groupNo + 1), m.(groupNo := m.groupNo + 1));
          return m.(groupNo := m.groupNo + 1), Return(DataError);
        }
        m := PickTable(m, inRun, d);
        m := m.(groupPos := m.groupPos - 1);
        m, r := WantCode(m, inRun, d.(groupNo := d.groupNo + 1, groupPos := G_SIZE - 1, gSel := d.selector[d.groupNo + 1]));
      } else {
        m := m.(groupPos := m.groupPos - 1);
        m, r := WantCode(m, inRun, d.(groupPos := d.groupPos - 1));
      }
    }

    lemma TableAt(d: Saved, g: int)
      requires Tables(d.tables) && InMtf(d) && 0 <= g < d.nGroups
      ensures TableFits(d.tables[g], limit[g], base[g], perm[g], minLens[g])
      ensures |d.tables[g]| == AlphaSize(d) && d.tables[g] != [] && Lengths(d.tables[g], 1, MAX_CODE)
      ensures FirstWidth(d.tables[g]) == minLens[g]
    {
    }

    /** An entry of the tables in use. */
    lemma SearchAt(len: seq<int>, limit: seq<int>, base: seq<int>, perm: seq<int>, minLen: int, zn: int)
      requires TableFits(len, limit, base, perm, minLen) && minLen <= zn <= MAX_CODE
      ensures |limit| == |base| == MAX_CODE_LEN && 1 <= FirstWidth(len)
      ensures limit[zn] == Limits(len, FirstWidth(len), Longest(len))[zn]
      ensures base[zn] == Bases(len, FirstWidth(len), Longest(len))[zn]
    {
    }

    lemma SymbolAt(len: seq<int>, limit: seq<int>, base: seq<int>, perm: seq<int>, minLen: int, zn: int, zvec: nat)
      requires TableFits(len, limit, base, perm, minLen) && minLen <= zn <= MAX_CODE
      requires zvec <= Limits(len, FirstWidth(len), Longest(len))[zn]
      requires Bases(len, FirstWidth(len), Longest(len))[zn] <= zvec
      ensures 0 <= zvec - Bases(len, FirstWidth(len), Longest(len))[zn] < |len| == |ByLength(len, Longest(len) + 1)| <= |perm|
      ensures perm[zvec - Bases(len, FirstWidth(len), Longest(len))[zn]]
           == ByLength(len, Longest(len) + 1)[zvec - Bases(len, FirstWidth(len), Longest(len))[zn]]
      ensures InRange(ByLength(len, Longest(len) + 1), |len|)
    {
      hide Limits, Bases, ByLength;
      var lo, hi := FirstWidth(len), Longest(len);
      LengthsTight(len);
      SearchAt(len, limit, base, perm, minLen, zn);
      SearchInside(len, lo, hi, zn, zvec);
      Counting.CountBelowAll(len, hi + 1);
      ByLengthRange(len, hi + 1);
      var k := zvec - Bases(len, lo, hi)[zn];
      assert perm[..|len|][k] == perm[k];
    }

    method GotMtfBits(l: Locals, v: nat, ghost d: Saved) returns (m: Locals, r: Step)
      requires Fits(d, SaveOf(l)) && Wf(d) && d.at.MtfBits?
      modifies this`state, this`tt, tt, unzftab, mtf.mtfa, mtf.mtfbase
      ensures Does(AfterMtfBits(d, v), m, r) && tt == old(tt)
    {
      hide Used, TablesOk, Column, Listing, AtSearch, Tables;
      m, r := Search(l.(zvec := v), state.inRun, d.(zvec := v));
    }

    method GotMtfBit(l: Locals, v: nat, ghost d: Saved) returns (m: Locals, r: Step)
      requires Fits(d, SaveOf(l)) && Wf(d) && d.at.MtfBit?
      modifies this`state, this`tt, tt, unzftab, mtf.mtfa, mtf.mtfbase
      ensures Does(AfterMtfBit(d, v), m, r) && tt == old(tt)
    {
      hide Used, TablesOk, Column, Listing, AtSearch, Tables;
      m, r := Search(l.(zj := v, zvec := 2 * l.zvec + v), state.inRun, d.(zvec := 2 * d.zvec + v));
    }

    /** The bits read so far are a code: look up its symbol. */
    method Found(l: Locals, inRun: bool, ghost d: Saved) returns (m: Locals, r: Step)
      requires Common(d) && !d.at.Magic? && Searching(d) && Symbols(d, SaveOf(l), inRun) && Chosen(d, SaveOf(l))
      requires AlphaSize(d) <= 258
      requires l.zn == d.zn <= MAX_CODE && l.zvec == d.zvec
      requires TableFits(d.tables[d.gSel], l.gLimit, l.gBase, l.gPerm, l.gMinlen)
      requires l.gMinlen <= l.zn
      requires d.zvec <= Limits(d.tables[d.gSel], FirstWidth(d.tables[d.gSel]), Longest(d.tables[d.gSel]))[d.zn]
      modifies this`state, tt, unzftab, mtf.mtfa, mtf.mtfbase
      ensures Does(AtSearch(d, inRun), m, r)
    {
      hide Used, TablesOk, Column, Listing, AtValue, Limits, Bases, ByLength, TableFits, Longest, Shortest, Does,
        Fits, Common;
      HeadOf(d);
      m, r := l, Onward;
      TableAt(d, d.gSel);
      SearchAt(d.tables[d.gSel], m.gLimit, m.gBase, m.gPerm, m.gMinlen, m.zn);
      var k := m.zvec - m.gBase[m.zn];
      if k < 0 || k >= 258 {
        Failed(d, m);
        return m, Return(DataError);
      }
      SymbolAt(d.tables[d.gSel], m.gLimit, m.gBase, m.gPerm, m.gMinlen, m.zn, d.zvec);
      m := m.(nextSym := m.gPerm[k]);
      m, r := Value(m, inRun, d);
    }

    /** Compare with the limit for zn bits. */
    method Search(l: Locals, inRun: bool, ghost d: Saved) returns (m: Locals, r: Step)
      requires Common(d) && !d.at.Magic? && Searching(d) && Symbols(d, SaveOf(l), inRun) && Chosen(d, SaveOf(l))
      requires l.zn == d.zn && l.zvec == d.zvec
      modifies this`state, tt, unzftab, mtf.mtfa, mtf.mtfbase
      ensures Does(AtSearch(d, inRun), m, r)
    {
      hide Used, TablesOk, Column, Listing, AtValue, Limits, Bases, ByLength, TableFits, Longest, Shortest, Does,
        Fits, Common;
      HeadOf(d);
      m, r := l, Onward;
      if m.zn > MAX_CODE {
        Failed(d, m);
        return m, Return(DataError);
      }
      AlphaBound(d);
      TableAt(d, d.gSel);
      SearchAt(d.tables[d.gSel], m.gLimit, m.gBase, m.gPerm, m.gMinlen, m.zn);
      if m.zvec <= m.gLimit[m.zn] {
        m, r := Found(m, inRun, d);
      } else {
        m, r := WantBit(m, inRun, d);
      }
    }

    lemma Failed(d: Saved, m: Locals)
      requires Head(d)
      ensures Does(Fail(d), m, Return(DataError))
    {
    }

    /** One bit more of the code. */
    method WantBit(l: Locals, inRun: bool, ghost d: Saved) returns (m: Locals, r: Step)
      requires Common(d) && !d.at.Magic? && Searching(d) && Symbols(d, SaveOf(l), inRun) && Chosen(d, SaveOf(l))
      requires l.zn == d.zn && l.zvec == d.zvec
      modifies this`state
      ensures Does(Go(d.(zn := d.zn + 1, at := MtfBit(inRun))), m, r)
    {
      hide Used, TablesOk, Column, Listing, Tables, Maps, Shortest;
      m, r := l.(zn := l.zn + 1), Onward;
      state := MtfBit(inRun);
    }

    /** What follows from the symbol just read. */
    function Concluded(d: Saved, v: Verdict): (o: Outcome)
      requires Sized(d) && InMtf(d) && 0 <= d.gSel < d.nGroups && (v.More? ==> Listed(v.u))
    {
      match v
      case Bad => Fail(d)
      case More(u, r) => AtSymbol(d.(u := u), r)
      case Finished(u) =>
        if d.origPtr < 0 || d.origPtr >= |u.out| then Fail(d.(u := u)) else Stop(BlockReady, d.(u := u, at := Output))
    }

    /** A symbol has been read. */
    ghost predicate AtSymbolRead(d: Saved, l: Locals, inRun: bool)
      reads this, inUse16, inUse, seqToUnseq, unzftab, tt, mtf, mtf.mtfa, mtf.mtfbase
    {
      Apart() && Sized(d) && Common(d) && !d.at.Magic? && InMtf(d) && 0 <= d.gSel < d.nGroups && Symbols(d, SaveOf(l), inRun) && Chosen(d, SaveOf(l)) &&
      0 <= l.nextSym < AlphaSize(d) <= 258
    }

    lemma ValueConcludes(d: Saved, inRun: bool, sym: int)
      requires Sized(d) && InMtf(d) && 0 <= d.gSel < d.nGroups && 0 <= sym < AlphaSize(d)
      ensures AlphaSize(d) <= 258
      ensures AtValue(d, inRun, sym) == Concluded(d, Accept(d.u, inRun, sym, d.byteOf, AlphaSize(d) - 1, BLOCK_UNIT * d.level))
    {
      hide AtSymbol, Accept, Used;
      AlphaBound(d);
    }

    /** The verdict alone decides, but for what an error leaves behind of the model's list. */
    lemma SameVerdict(d: Saved, e: Saved, v: Verdict, m: Locals, r: Step)
      requires Sized(d) && InMtf(d) && 0 <= d.gSel < d.nGroups && (v.More? ==> Listed(v.u)) && Listed(e.u) && e == d.(u := e.u)
      requires Does(Concluded(e, v), m, r)
      ensures Does(Concluded(d, v), m, r)
    {
      hide AtSymbol, Used, Fits, Shape, Maps, Column;
    }

    method Value(l: Locals, inRun: bool, ghost d: Saved) returns (m: Locals, r: Step)
      requires AtSymbolRead(d, l, inRun)
      modifies this`state, tt, unzftab, mtf.mtfa, mtf.mtfbase
      ensures Does(AtValue(d, inRun, l.nextSym), m, r)
    {
      hide Used, TablesOk, Tables, Column, AtSymbol, Concluded, Top, AddDigit, Chosen, Does, Common, Copies, Listing;
      ValueConcludes(d, inRun, l.nextSym);
      if inRun && (l.nextSym == RUNA || l.nextSym == RUNB) {
        m, r := Digit(l, d);
      } else if inRun {
        var ok;
        m, ok := PutRun(l, d);
        if !ok {
          r := Return(DataError);
          FailDoes(d, m);
          assert Accept(d.u, inRun, l.nextSym, d.byteOf, AlphaSize(d) - 1, BLOCK_UNIT * d.level) == Bad;
          return;
        }
        ghost var e := RunPut(d);
        m, r := TopValue(m, e);
        SameVerdict(d, e, Top(e.u, l.nextSym, d.byteOf, AlphaSize(d) - 1, BLOCK_UNIT * d.level), m, r);
      } else {
        m, r := TopValue(l, d);
      }
    }

    lemma FailDoes(d: Saved, m: Locals)
      requires Head(d) && Sized(d) && InMtf(d) && 0 <= d.gSel < d.nGroups
      ensures Does(Concluded(d, Bad), m, Return(DataError))
    {
    }

    /** A change of the list, the run or the block so far leaves the rest of the state in place. */
    lemma OnlyU(d: Saved, u: Unmtf, a: SaveArea)
      requires Sized(d) && InMtf(d) && Listed(u)
      ensures Sized(d.(u := u)) && InMtf(d.(u := u)) && AlphaSize(d.(u := u)) == AlphaSize(d)
      ensures Common(d) ==> Common(d.(u := u))
      ensures Chosen(d, a) ==> Chosen(d.(u := u), a)
    {
      hide Used, TablesOk, Tables;
    }

    /** The digit of a run. */
    method Digit(l: Locals, ghost d: Saved) returns (m: Locals, r: Step)
      requires AtSymbolRead(d, l, false) && (l.nextSym == RUNA || l.nextSym == RUNB)
      requires l.es == d.u.es >= -1 && l.n == d.u.n >= 1
      modifies this`state
      ensures Does(Concluded(d, AddDigit(d.u, l.nextSym)), m, r)
    {
      hide Used, TablesOk, Tables, Column, AtSymbol, Common, Listing;
      m := l;
      if m.n >= 2 * 1024 * 1024 {
        r := Return(DataError);
        HeadOf(d);
        return;
      }
      m := m.(es := m.es + (if m.nextSym == RUNA then 1 else 2) * m.n);
      m := m.(n := m.n * 2);
      ghost var u := AddDigit(d.u, l.nextSym).u;
      OnlyU(d, u, SaveOf(l));
      m, r := NextSymbol(m, true, d.(u := u));
    }

    lemma HeadOf(d: Saved)
      requires Common(d)
      ensures Head(d) && Sized(d) && Apart()
    {
    }

    lemma CountOne(unz: seq<int>, out: seq<byte>, c: byte)
      requires CountedBytes(unz, out)
      ensures CountedBytes(unz[c := unz[c] + 1], out + [c])
    {
      assert multiset(out + [c]) == multiset(out) + multiset{c};
    }

    lemma NoCopies(unz: seq<int>, out: seq<byte>, c: byte)
      requires CountedBytes(unz, out)
      ensures CountedBytes(unz[c := unz[c] + 0], out + Copies(c, 0))
    {
      assert out + Copies(c, 0) == out && unz[c := unz[c] + 0] == unz;
    }

    lemma CopiesMore(out: seq<byte>, c: byte, k: nat)
      ensures out + Copies(c, k + 1) == (out + Copies(c, k)) + [c]
    {
    }

    lemma {:induction false} CopiesCounted(unz: seq<int>, out: seq<byte>, c: byte, k: nat)
      requires CountedBytes(unz, out)
      ensures CountedBytes(unz[c := unz[c] + k], out + Copies(c, k))
    {
      hide CountedBytes, Copies;
      CountedLength(unz, out);
      if k == 0 {
        NoCopies(unz, out, c);
      } else {
        CopiesCounted(unz, out, c, k - 1);
        var z := unz[c := unz[c] + (k - 1)];
        CountOne(z, out + Copies(c, k - 1), c);
        CopiesMore(out, c, k - 1);
        assert z[c := z[c] + 1] == unz[c := unz[c] + k];
      }
    }

    lemma CountedLength(unz: seq<int>, out: seq<byte>)
      requires CountedBytes(unz, out)
      ensures |unz| == 256
    {
    }

    lemma ListFront(yy: seq<int>)
      requires Listing(yy)
      ensures |yy| == 256 && mtf.mtfbase.Length == 16 && 0 <= mtf.mtfbase[0] < mtf.mtfa.Length
      ensures mtf.mtfa[mtf.mtfbase[0]] == yy[0]
    {
      ListAt(mtf.mtfa[..], mtf.mtfbase[..], 0, 0);
    }

    /** Put es copies of uc behind the block so far, unless they do not fit. */
    method FillRun(uc: byte, es0: nat, nblock0: nat, nblockMAX: nat, ghost out: seq<byte>) returns (nblock: nat, es: nat, ok: bool)
      requires tt != unzftab && nblock0 == |out| && nblockMAX <= tt.Length && Column(out, nblock0)
      modifies tt, unzftab
      ensures ok <==> es0 == 0 || nblock0 + es0 <= nblockMAX
      ensures ok ==> es == 0 && nblock == nblock0 + es0 && Column(out + Copies(uc, es0), nblock)
    {
      hide CountedBytes;
      CopiesCounted(unzftab[..], out, uc, es0);
      CountedLength(unzftab[..], out);
      ghost var unz := unzftab[..];
      unzftab[uc] := unzftab[uc] + es0;
      assert unzftab[..] == unz[uc := unz[uc] + es0];
      es, nblock, ok := es0, nblock0, true;
      assert out + Copies(uc, 0) == out;
      while es > 0
        invariant 0 <= es <= es0 && nblock == nblock0 + es0 - es <= tt.Length && (es < es0 ==> nblock <= nblockMAX)
        invariant tt[..nblock] == out + Copies(uc, es0 - es) && unzftab[..] == unz[uc := unz[uc] + es0]
        decreases es
      {
        if nblock >= nblockMAX { return nblock, es, false; }
        ghost var was := tt[..nblock];
        tt[nblock] := uc;
        assert tt[..nblock + 1] == was + [uc];
        assert out + Copies(uc, es0 - es) + [uc] == out + Copies(uc, es0 - es + 1);
        nblock, es := nblock + 1, es - 1;
      }
    }

    /** The model after a run has been written. */
    function RunPut(d: Saved): (e: Saved)
      requires Sized(d) && Listed(d.u)
      ensures Listed(e.u) && e == d.(u := e.u)
    {
      d.(u := d.u.(es := 0, out := d.u.out + Copies(d.byteOf[d.u.yy[0]], d.u.es + 1)))
    }

    lemma SeqToUnseqAt(d: Saved, k: int)
      requires Common(d) && 0 <= k < 256
      ensures seqToUnseq.Length == 256 && seqToUnseq[k] == d.byteOf[k]
    {
    }

    lemma RoomAt(d: Saved)
      requires Common(d) && !d.at.Magic?
      ensures 1 <= d.level <= 9 && tt.Length == BLOCK_UNIT * d.level
    {
    }

    /** Write out the run: es + 1 copies of the byte at the front of the list. */
    method PutRun(l: Locals, ghost d: Saved) returns (m: Locals, ok: bool)
      requires AtSymbolRead(d, l, true)
      modifies tt, unzftab
      ensures ok <==> |d.u.out| + d.u.es + 1 <= BLOCK_UNIT * d.level
      ensures Head(d)
      ensures ok ==> m.nextSym == l.nextSym && AtSymbolRead(RunPut(d), m, false)
    {
      hide Used, TablesOk, Tables, Column, Common, Listing, Chosen, Shortest, CountedBytes, Copies;
      m := l.(es := l.es + 1);
      HeadOf(d);
      RoomAt(d);
      ListFront(d.u.yy);
      SeqToUnseqAt(d, d.u.yy[0]);
      var uc := seqToUnseq[mtf.mtfa[mtf.mtfbase[0]]];
      m := m.(uc := uc);
      ColumnLength(d.u.out, m.nblock);
      var nblock, es;
      nblock, es, ok := FillRun(uc, m.es, m.nblock, m.nblockMAX, d.u.out);
      m := m.(nblock := nblock, es := es);
      if ok {
        OnlyU(d, RunPut(d).u, SaveOf(l));
        ChosenSame(RunPut(d), SaveOf(l), SaveOf(m));
      }
    }

    lemma ChosenSame(d: Saved, a: SaveArea, a': SaveArea)
      requires Chosen(d, a) && a' == a.(es := a'.es, n := a'.n, nblock := a'.nblock, nextSym := a'.nextSym)
      ensures Chosen(d, a')
    {
    }

    lemma ColumnLength(out: seq<byte>, nblock: int)
      requires Column(out, nblock)
      ensures nblock == |out|
    {
    }

    /** A symbol that does not continue a run. */
    method TopValue(l: Locals, ghost d: Saved) returns (m: Locals, r: Step)
      requires AtSymbolRead(d, l, false)
      modifies this`state, tt, unzftab, mtf.mtfa, mtf.mtfbase
      ensures Does(Concluded(d, Top(d.u, l.nextSym, d.byteOf, AlphaSize(d) - 1, BLOCK_UNIT * d.level)), m, r)
    {
      hide Used, TablesOk, Tables, Column, AtSymbol, Concluded, Chosen, Does, Common, Listing;
      if l.nextSym == l.eob {
        m, r := EndOfBlock(l, d);
      } else if l.nextSym == RUNA || l.nextSym == RUNB {
        m := l.(es := -1, n := 1);
        ghost var e := d.(u := d.u.(es := -1, n := 1));
        OnlyU(d, e.u, SaveOf(l));
        ChosenSame(e, SaveOf(l), SaveOf(m));
        m, r := Digit(m, e);
        SameVerdict(d, e, AddDigit(e.u, l.nextSym), m, r);
      } else {
        m, r := Literal(l, d);
      }
    }

    method EndOfBlock(l: Locals, ghost d: Saved) returns (m: Locals, r: Step)
      requires AtSymbolRead(d, l, false)
      modifies this`state
      ensures Does(Concluded(d, Finished(d.u)), m, r)
    {
      hide Used, TablesOk, Tables, AtSymbol;
      m := l;
      if origPtr < 0 || origPtr >= m.nblock { return m, Return(DataError); }
      state := Output;
      r := Return(BlockReady);
    }

    /** Put one byte behind the block so far. */
    method PutOne(c: byte, nblock: nat, ghost out: seq<byte>)
      requires tt != unzftab && nblock < tt.Length && Column(out, nblock)
      modifies tt, unzftab
      ensures Column(out + [c], nblock + 1)
    {
      hide CountedBytes;
      CountOne(unzftab[..], out, c);
      CountedLength(unzftab[..], out);
      ghost var unz, was := unzftab[..], tt[..nblock];
      unzftab[c] := unzftab[c] + 1;
      assert unzftab[..] == unz[c := unz[c] + 1];
      tt[nblock] := c;
      assert tt[..nblock + 1] == was + [c];
    }

    /** The model after a literal. */
    function LiteralPut(d: Saved, sym: int): (e: Saved)
      requires Sized(d) && Listed(d.u) && 2 <= sym <= 256
      ensures e == d.(u := e.u)
    {
      d.(u := d.u.(yy := ToFront(d.u.yy, sym - 1), out := d.u.out + [d.byteOf[d.u.yy[sym - 1]]]))
    }

    lemma LiteralVerdict(d: Saved, sym: int)
      requires Sized(d) && InMtf(d) && 0 <= d.gSel < d.nGroups && 2 <= sym < AlphaSize(d) - 1 <= 257
      ensures Listed(LiteralPut(d, sym).u)
      ensures Concluded(d, Top(d.u, sym, d.byteOf, AlphaSize(d) - 1, BLOCK_UNIT * d.level))
           == if |d.u.out| >= BLOCK_UNIT * d.level then Fail(d) else AtSymbol(LiteralPut(d, sym), false)
    {
      hide Used, TablesOk, AtSymbol, ToFront;
    }

    /** uc = MTF ( nn ). */
    method TakeEntry(nn: nat, ghost yy: seq<int>) returns (uc: int)
      requires Listing(yy) && nn < 256
      modifies mtf.mtfa, mtf.mtfbase
      ensures |yy| == 256 && uc == yy[nn] && Listing(ToFront(yy, nn))
    {
      hide ToFront;
      uc := mtf.Take(nn);
    }

    /** Take an entry of the list to the front and put its byte out. */
    method Literal(l: Locals, ghost d: Saved) returns (m: Locals, r: Step)
      requires AtSymbolRead(d, l, false) && 2 <= l.nextSym < l.eob
      modifies this`state, tt, unzftab, mtf.mtfa, mtf.mtfbase
      ensures Does(Concluded(d, Top(d.u, l.nextSym, d.byteOf, AlphaSize(d) - 1, BLOCK_UNIT * d.level)), m, r)
    {
      hide Used, TablesOk, Tables, AtSymbol, Column, Common, Chosen, CountedBytes, ToFront, Top, Concluded, Fits,
        Does, Listing;
      m := l;
      LiteralVerdict(d, l.nextSym);
      HeadOf(d);
      RoomAt(d);
      ColumnLength(d.u.out, m.nblock);
      if m.nblock >= m.nblockMAX {
        Failed(d, m);
        return m, Return(DataError);
      }
      var uc := TakeEntry(m.nextSym - 1, d.u.yy);
      m := m.(uc := uc);
      SeqToUnseqAt(d, uc);
      var c := seqToUnseq[uc];
      PutOne(c, m.nblock, d.u.out);
      m := m.(nblock := m.nblock + 1);
      ghost var e := LiteralPut(d, l.nextSym);
      OnlyU(d, e.u, SaveOf(l));
      ChosenSame(e, SaveOf(l), SaveOf(m));
      m, r := NextSymbol(m, false, e);
    }

    // ----- a call

    ghost function Own(): set<object>
      reads this`tt
    {
      {this, inUse16, inUse, seqToUnseq, unzftab, tt, mtf.mtfa, mtf.mtfbase, input}
    }

    /** The code between the label that has been reached and the next one. */
    method After(l: Locals, v: nat, ghost d: Saved) returns (m: Locals, r: Step)
      requires Fits(d, SaveOf(l)) && Active(d)
      modifies Own() - {input}
      ensures Does(Advance(d, v), m, r) && (tt == old(tt) || fresh(tt))
    {
      hide Fits, Does, Used, TablesOk, Searching, InMtf, InCoding, AfterMagic, AfterBlkHdr, AfterBCrc, AfterRandBit,
        AfterOrigPtr,
        AfterMapping1, AfterMapping2, AfterSelector1, AfterSelector2, AfterSelector3, AfterCoding1, AfterCoding2, AfterCoding3,
        AfterMtfBits, AfterMtfBit, AfterEndHdr, AfterCCrc;
      StateIs(d, SaveOf(l));
      match state
      case Magic(k) => m, r := GotMagic(l, k, v, d);
      case BlkHdr(k) => m, r := GotBlkHdr(l, k, v, d);
      case BCrc(k) => m, r := GotBCrc(l, k, v, d);
      case RandBit => m, r := GotRandBit(l, v, d);
      case OrigPtr(k) => m, r := GotOrigPtr(l, k, v, d);
      case Mapping1 => m, r := GotMapping1(l, v, d);
      case Mapping2 => m, r := GotMapping2(l, v, d);
      case Selector1 => m, r := GotSelector1(l, v, d);
      case Selector2 => m, r := GotSelector2(l, v, d);
      case Selector3 => m, r := GotSelector3(l, v, d);
      case Coding1 => m, r := GotCoding1(l, v, d);
      case Coding2 => m, r := GotCoding2(l, v, d);
      case Coding3 => m, r := GotCoding3(l, v, d);
      case MtfBits(_) => m, r := GotMtfBits(l, v, d);
      case MtfBit(_) => m, r := GotMtfBit(l, v, d);
      case EndHdr(k) => m, r := GotEndHdr(l, k, v, d);
      case CCrc(k) => m, r := GotCCrc(l, k, v, d);
    }

    lemma StateIs(d: Saved, a: SaveArea)
      requires Fits(d, a)
      ensures state == d.at && (d.at.MtfBits? ==> a.zn == d.zn)
    {
    }

    /** How many bits the label asks for. */
    function Wanted(at: Label, zn: int): int {
      match at
      case RandBit => 1
      case Mapping1 => 1
      case Mapping2 => 1
      case Selector1 => 3
      case Selector2 => 15
      case Selector3 => 1
      case Coding1 => 5
      case Coding2 => 1
      case Coding3 => 1
      case MtfBits(_) => zn
      case MtfBit(_) => 1
      case _ => 8
    }

    /** What a call has made of the state and the bits it found. */
    ghost predicate Ran(run: Run, r: Result)
      reads Own(), mtf
    {
      match run
      case Waiting(d, rest) => r == NeedInput && model == d && Ready() && input.Bits() == rest && input.nextIn == []
      case Stopped(code, d, rest) => r == Done(code) && model == d && input.Bits() == rest && Ended(code, d, save)
    }

    /** Read what the label asks for, and run the code up to the next label. */
    method FromLabel(l: Locals, ghost d: Saved) returns (m: Locals, starved: bool, step: Step)
      requires Fits(d, SaveOf(l)) && Active(d) && input.BufferOk()
      modifies Own()
      ensures input.BufferOk() && (tt == old(tt) || fresh(tt))
      ensures starved <==> |old(input.Bits())| < Need(d)
      ensures starved ==> input.Bits() == old(input.Bits()) && input.nextIn == [] && m == l && Fits(d, SaveOf(m)) && model == old(model)
      ensures !starved ==> input.Bits() == old(input.Bits()[Need(d)..])
      ensures !starved ==> Does(Advance(d, FromBits(old(input.Bits()[..Need(d)]))), m, step)
    {
      hide Advance, Wf, Fits, Does, FromBits, Need;
      StateIs(d, SaveOf(l));
      WantedIs(d, l.zn);
      var ok, v := input.GetBits(Wanted(state, l.zn));
      m, starved, step := l, !ok, Onward;
      if ok { m, step := After(l, v, d); }
    }

    /** The caller puts more input behind what is left. */
    method Give(more: seq<byte>)
      requires Ready()
      modifies input
      ensures Ready() && input.Bits() == old(input.Bits()) + BytesToBits(more)
    {
      hide Fits, Active;
      input.Supply(more);
    }

    /** save_state_and_return, for want of input. */
    method Suspend(l: Locals, ghost d: Saved)
      requires Fits(d, SaveOf(l)) && Active(d) && input.BufferOk() && input.nextIn == []
      modifies this`save, this`model
      ensures Ran(Waiting(d, input.Bits()), NeedInput)
    {
      hide Fits, Active;
      save, model := SaveOf(l), d;
    }

    /** save_state_and_return, in all other cases. */
    method Leave(l: Locals, code: Code, ghost d: Saved)
      requires Ended(code, d, SaveOf(l))
      modifies this`save, this`model
      ensures Ran(Stopped(code, d, input.Bits()), Done(code))
    {
      hide Ended;
      save, model := SaveOf(l), d;
    }

    /** BZ2_decompress. Its locals hold anything when it is called. */
    method Decompress(garbage: Locals) returns (r: Result)
      requires Ready()
      modifies Own()
      ensures input.BufferOk() && Ran(old(RunOn(model, input.Bits())), r) && (tt == old(tt) || fresh(tt))
    {
      hide Advance, Wf, Fits, Ended, FromBits, RunOn, Need, Active, Ran;
      StateIs(model, save);
      if state == Magic(1) {
        ClearedFits(model, save);
        save := CLEARED;
      }
      var l := Restore(save, garbage);
      SavedAndRestored(save, garbage);
      ghost var d := model;
      while true
        invariant Fits(d, SaveOf(l)) && Active(d) && input.BufferOk()
        invariant RunOn(d, input.Bits()) == old(RunOn(model, input.Bits()))
        invariant tt == old(tt) || fresh(tt)
        decreases |input.Bits()|
      {
        ghost var bits := input.Bits();
        RunStep(d, bits);
        var starved, step;
        l, starved, step := FromLabel(l, d);
        if starved {
          Suspend(l, d);
          return NeedInput;
        }
        ghost var o := Advance(d, FromBits(bits[..Need(d)]));
        match step
        case Onward =>
          d := o.d;
        case Return(code) =>
          Leave(l, code, o.d);
          return Done(code);
      }
    }

    lemma WantedIs(d: Saved, zn: int)
      requires Active(d) && (d.at.MtfBits? ==> zn == d.zn)
      ensures Wanted(d.at, zn) == Need(d) && 1 <= Need(d) <= 24
    {
    }

    lemma RunStep(d: Saved, bits: seq<bit>)
      requires Active(d)
      ensures Need(d) >= 1
      ensures |bits| < Need(d) ==> RunOn(d, bits) == Waiting(d, bits)
      ensures |bits| >= Need(d) ==>
        RunOn(d, bits) == match Advance(d, FromBits(bits[..Need(d)]))
                          case Go(e) => RunOn(e, bits[Need(d)..])
                          case Stop(c, e) => Stopped(c, e, bits[Need(d)..])
    {
      hide Advance, Wf, FromBits;
    }

    lemma ClearedFits(d: Saved, a: SaveArea)
      requires Fits(d, a) && d.at.Magic?
      ensures Fits(d, CLEARED)
    {
    }
  }

  // ----- calls with the input in pieces

  function Joined(pieces: seq<seq<byte>>): seq<byte> {
    if pieces == [] then [] else pieces[0] + Joined(pieces[1..])
  }

  /** Where calls end that have been given all pieces but those left over. */
  ghost predicate Came(s: Reader, run: Run, r: Result, left: seq<seq<byte>>)
    reads s.Own(), s.mtf
  {
    match run
    case Waiting(d, rest) => r == NeedInput && left == [] && s.model == d && s.Ready() && s.input.Bits() == rest
    case Stopped(code, d, rest) =>
      r == Done(code) && s.model == d && s.input.Bits() + BytesToBits(Joined(left)) == rest && s.Ended(code, d, s.save)
  }

  /** The input may come in any pieces, and the locals may be lost between any two calls: the code returned, the
      state, the block and the bits left over are those of one call on all of the input, well-formed or not. */
  method Feed(s: Reader, pieces: seq<seq<byte>>, garbage: seq<Locals>) returns (r: Result, used: nat)
    requires s.Ready() && |garbage| == |pieces| > 0
    modifies s.Own()
    ensures used <= |pieces|
    ensures Came(s, old(RunOn(s.model, s.input.Bits() + BytesToBits(Joined(pieces)))), r, pieces[used..])
  {
    hide RunOn, BytesToBits, Active, Need, Reader.Fits, Reader.Ended, BitReader.Bits;
    ghost var whole := RunOn(s.model, s.input.Bits() + BytesToBits(Joined(pieces)));
    used := 0;
    r := NeedInput;
    assert pieces[0..] == pieces;
    while used < |pieces| && r == NeedInput
      invariant 0 <= used <= |pieces| && s.input.BufferOk() && (s.tt == old(s.tt) || fresh(s.tt))
      invariant used == 0 ==> r == NeedInput
      invariant r == NeedInput ==> s.Ready() && RunOn(s.model, s.input.Bits() + BytesToBits(Joined(pieces[used..]))) == whole
      invariant r == NeedInput && used > 0 ==> |s.input.Bits()| < Need(s.model)
      invariant r != NeedInput ==> Came(s, whole, r, pieces[used..])
      decreases |pieces| - used
    {
      FeedStep(s.model, s.input.Bits(), pieces[used..]);
      s.Give(pieces[used]);
      ghost var d, bits := s.model, s.input.Bits();
      r := s.Decompress(garbage[used]);
      assert pieces[used..][1..] == pieces[used + 1..];
      used := used + 1;
      Resumed(d, bits, []);
    }
    if r == NeedInput {
      assert pieces[used..] == [];
      NothingLeft(s.model, s.input.Bits());
    }
  }

  lemma NothingLeft(d: Saved, bits: seq<bit>)
    requires Active(d) && |bits| < Need(d)
    ensures RunOn(d, bits + BytesToBits(Joined([]))) == Waiting(d, bits)
  {
    assert bits + BytesToBits(Joined([])) == bits;
  }

  /** One piece is decoded by itself, the others from where that leads. */
  lemma FeedStep(d: Saved, bits: seq<bit>, pieces: seq<seq<byte>>)
    requires Active(d) && pieces != []
    ensures RunOn(d, bits + BytesToBits(Joined(pieces)))
         == match RunOn(d, bits + BytesToBits(pieces[0]))
            case Waiting(e, r) => RunOn(e, r + BytesToBits(Joined(pieces[1..])))
            case Stopped(c, e, r) => Stopped(c, e, r + BytesToBits(Joined(pieces[1..])))
  {
    hide RunOn, BytesToBits, Active;
    var a, b := BytesToBits(pieces[0]), BytesToBits(Joined(pieces[1..]));
    BytesToBitsAppend(pieces[0], Joined(pieces[1..]));
    Assoc(bits, a, b);
    Resumed(d, bits + a, b);
  }
}
