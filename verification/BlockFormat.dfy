// The layout of a compressed block, and the decoder reading it back.  Every layout function takes the bits that
// follow, so that reading goes from the front.
module BlockFormat {
  import opened Bits
  import opened BitIO
  import opened Permutations
  import opened HuffmanTree
  import opened CanonicalCode
  import opened SymbolMaps
  import opened Mtf
  import opened Coroutine

  ghost function Resume(o: Outcome, bits: seq<bit>): Run
    requires o.Go? ==> Active(o.d)
  {
    match o
    case Go(e) => RunOn(e, bits)
    case Stop(c, e) => Stopped(c, e, bits)
  }

  lemma Step(d: Saved, v: nat, n: nat, rest: seq<bit>)
    requires Active(d) && Need(d) == n && v < Pow2(n)
    ensures RunOn(d, ToBits(v, n) + rest) == Resume(Advance(d, v), rest)
  {
    var b := ToBits(v, n) + rest;
    assert b[..n] == ToBits(v, n) && b[n..] == rest;
    ReadBack(v, n);
  }

  lemma StepBit(d: Saved, v: nat, rest: seq<bit>)
    requires Active(d) && Need(d) == 1 && v < 2
    ensures RunOn(d, [v] + rest) == Resume(Advance(d, v), rest)
  {
    hide UnMtf, Used, ToFront, Shortest, Longest, RunOn;
    assert Pow2(1) == 2;
    assert ToBits(v, 1) == [v] by { assert ToBits(v / 2, 0) == []; }
    Step(d, v, 1, rest);
  }

  lemma StepByte(d: Saved, v: nat, rest: seq<bit>)
    requires Active(d) && Need(d) == 8 && v < 256
    ensures RunOn(d, ToBits(v, 8) + rest) == Resume(Advance(d, v), rest)
  {
    hide UnMtf, Used, ToFront, Shortest, Longest, RunOn;
    Pow2Values();
    Step(d, v, 8, rest);
  }

  // ----- stream and block headers

  function MagicBits(k: int, level: nat, rest: seq<bit>): seq<bit>
    requires 1 <= k <= 4
    decreases 4 - k
  {
    if k < 4 then ToBits(MagicByte(k), 8) + MagicBits(k + 1, level, rest) else ToBits(0x30 + level, 8) + rest
  }

  lemma {:induction false} MagicRead(d: Saved, k: int, level: nat, rest: seq<bit>)
    requires Active(d) && d.at == Magic(k) && 1 <= k <= 4 && 1 <= level <= 9
    ensures RunOn(d, MagicBits(k, level, rest)) == RunOn(d.(level := level, at := BlkHdr(1)), rest)
    decreases 4 - k
  {
    hide UnMtf, Used, ToFront, Shortest, Longest, RunOn;
    if k < 4 {
      StepByte(d, MagicByte(k), MagicBits(k + 1, level, rest));
      MagicRead(d.(at := Magic(k + 1)), k + 1, level, rest);
    } else {
      StepByte(d, 0x30 + level, rest);
    }
  }

  function BlkHdrBits(k: int, rest: seq<bit>): seq<bit>
    requires 1 <= k <= 7
    decreases 7 - k
  {
    if k == 7 then rest else ToBits(BlockByte(k), 8) + BlkHdrBits(k + 1, rest)
  }

  lemma {:induction false} BlkHdrRead(d: Saved, k: int, rest: seq<bit>)
    requires Active(d) && d.at == BlkHdr(k) && 1 <= k <= 6
    ensures RunOn(d, BlkHdrBits(k, rest)) == RunOn(d.(storedBlockCRC := 0, at := BCrc(1)), rest)
    decreases 6 - k
  {
    hide UnMtf, Used, ToFront, Shortest, Longest, RunOn;
    StepByte(d, BlockByte(k), BlkHdrBits(k + 1, rest));
    if k < 6 { BlkHdrRead(d.(at := BlkHdr(k + 1)), k + 1, rest); }
  }

  function EndHdrBits(k: int, rest: seq<bit>): seq<bit>
    requires 1 <= k <= 7
    decreases 7 - k
  {
    if k == 7 then rest else ToBits(EndByte(k), 8) + EndHdrBits(k + 1, rest)
  }

  lemma {:induction false} EndHdrRead(d: Saved, k: int, rest: seq<bit>)
    requires Active(d) && 1 <= k <= 6 && d.at == if k == 1 then BlkHdr(1) else EndHdr(k)
    ensures RunOn(d, EndHdrBits(k, rest)) == RunOn(d.(storedCombinedCRC := 0, at := CCrc(1)), rest)
    decreases 6 - k
  {
    hide UnMtf, Used, ToFront, Shortest, Longest, RunOn, Wf;
    StepByte(d, EndByte(k), EndHdrBits(k + 1, rest));
    if k < 6 { EndHdrRead(d.(at := EndHdr(k + 1)), k + 1, rest); }
  }

  /** A 32-bit word, most significant byte first. */
  function WordBits(w: nat, rest: seq<bit>): seq<bit> {
    ToBits(w / 0x100_0000 % 256, 8) + (ToBits(w / 0x1_0000 % 256, 8) + (ToBits(w / 0x100 % 256, 8) + (ToBits(w % 256, 8) + rest)))
  }

  lemma PushedWord(w: nat)
    requires w < 0x1_0000_0000
    ensures PushByte(PushByte(PushByte(PushByte(0, w / 0x100_0000 % 256), w / 0x1_0000 % 256), w / 0x100 % 256), w % 256) == w
  {
    var a, b, c := w / 0x100_0000, w / 0x1_0000, w / 0x100;
    assert PushByte(0, a % 256) == a;
    assert PushByte(a, b % 256) == b;
    assert PushByte(b, c % 256) == c;
  }

  lemma BCrcRead(d: Saved, w: nat, rest: seq<bit>)
    requires Active(d) && d.at == BCrc(1) && d.storedBlockCRC == 0 && w < 0x1_0000_0000
    ensures RunOn(d, WordBits(w, rest)) == RunOn(d.(storedBlockCRC := w, at := RandBit), rest)
  {
    hide UnMtf, Used, ToFront, Shortest, Longest, RunOn;
    var r3 := ToBits(w % 256, 8) + rest;
    var r2 := ToBits(w / 0x100 % 256, 8) + r3;
    var r1 := ToBits(w / 0x1_0000 % 256, 8) + r2;
    StepByte(d, w / 0x100_0000 % 256, r1);
    var d1 := AfterBCrc(d, 1, w / 0x100_0000 % 256).d;
    StepByte(d1, w / 0x1_0000 % 256, r2);
    var d2 := AfterBCrc(d1, 2, w / 0x1_0000 % 256).d;
    StepByte(d2, w / 0x100 % 256, r3);
    var d3 := AfterBCrc(d2, 3, w / 0x100 % 256).d;
    StepByte(d3, w % 256, rest);
    PushedWord(w);
  }

  lemma CCrcStep(d: Saved, k: int, v: nat, rest: seq<bit>)
    requires Sized(d) && d.at == CCrc(k) && 1 <= k <= 4 && v < 256
    ensures RunOn(d, ToBits(v, 8) + rest) == Resume(AfterCCrc(d, k, v), rest)
  {
    hide UnMtf, Used, ToFront, Shortest, Longest, RunOn;
    StepByte(d, v, rest);
  }

  lemma CCrcRead(d: Saved, w: nat, rest: seq<bit>)
    requires Sized(d) && d.at == CCrc(1) && d.storedCombinedCRC == 0 && w < 0x1_0000_0000
    ensures RunOn(d, WordBits(w, rest)) == Stopped(StreamEnd, d.(storedCombinedCRC := w, at := Idle), rest)
  {
    hide UnMtf, Used, ToFront, Shortest, Longest, RunOn;
    var b1, b2, b3, b4 := w / 0x100_0000 % 256, w / 0x1_0000 % 256, w / 0x100 % 256, w % 256;
    var w2 := PushByte(0, b1);
    var w3 := PushByte(w2, b2);
    var r3 := ToBits(b4, 8) + rest;
    var r2 := ToBits(b3, 8) + r3;
    CCrcStep(d, 1, b1, ToBits(b2, 8) + r2);
    CCrcStep(d.(storedCombinedCRC := w2, at := CCrc(2)), 2, b2, r2);
    CCrcStep(d.(storedCombinedCRC := w3, at := CCrc(3)), 3, b3, r3);
    CCrcStep(d.(storedCombinedCRC := PushByte(w3, b3), at := CCrc(4)), 4, b4, rest);
    PushedWord(w);
  }

  lemma ThreeBytes(p: nat)
    ensures p / 256 / 256 == p / 0x1_0000 && (p / 0x1_0000 * 256 + p / 256 % 256) * 256 + p % 256 == p
  {
  }

  lemma OrigPtrBytes(p: nat)
    requires p < 0x100_0000
    ensures ToBits(p, 24) == ToBits(p / 0x1_0000, 8) + (ToBits(p / 256 % 256, 8) + ToBits(p % 256, 8))
  {
    hide ToBits, Shr, Pow2;
    ToBitsSplit(p, 16, 8);
    ToBitsSplit(Shr(p, 8), 8, 8);
    ShrByte(p);
    ShrByte(p / 256);
    ThreeBytes(p);
  }

  lemma OrigPtrStep(d: Saved, k: int, v: nat, rest: seq<bit>)
    requires Sized(d) && d.at == OrigPtr(k) && 1 <= k <= 3 && v < 256
    ensures RunOn(d, ToBits(v, 8) + rest) == Resume(AfterOrigPtr(d, k, v), rest)
  {
    hide UnMtf, Used, ToFront, Shortest, Longest, RunOn;
    StepByte(d, v, rest);
  }

  lemma OrigPtrBytesRead(d: Saved, b1: nat, b2: nat, b3: nat, rest: seq<bit>)
    requires Sized(d) && d.at == OrigPtr(1) && d.origPtr == 0 && b1 < 256 && b2 < 256 && b3 < 256
    requires (b1 * 256 + b2) * 256 + b3 <= 10 + 100000 * d.level
    ensures RunOn(d, ToBits(b1, 8) + (ToBits(b2, 8) + (ToBits(b3, 8) + rest)))
         == RunOn(d.(origPtr := (b1 * 256 + b2) * 256 + b3, i := 0, at := Mapping1), rest)
  {
    hide UnMtf, Used, ToFront, Shortest, Longest, RunOn, Wf;
    var d1 := d.(origPtr := b1, at := OrigPtr(2));
    var d2 := d.(origPtr := b1 * 256 + b2, at := OrigPtr(3));
    var d3 := d.(origPtr := (b1 * 256 + b2) * 256 + b3, i := 0, at := Mapping1);
    OrigPtrStep(d, 1, b1, ToBits(b2, 8) + (ToBits(b3, 8) + rest));
    assert AfterOrigPtr(d, 1, b1) == Go(d1);
    OrigPtrStep(d1, 2, b2, ToBits(b3, 8) + rest);
    assert AfterOrigPtr(d1, 2, b2) == Go(d2);
    OrigPtrStep(d2, 3, b3, rest);
    assert AfterOrigPtr(d2, 3, b3) == Go(d3);
  }

  lemma OrigPtrRead(d: Saved, p: nat, rest: seq<bit>)
    requires Sized(d) && d.at == OrigPtr(1) && d.origPtr == 0 && p < 0x100_0000 && p <= 10 + 100000 * d.level
    ensures RunOn(d, ToBits(p, 24) + rest) == RunOn(d.(origPtr := p, i := 0, at := Mapping1), rest)
  {
    hide UnMtf, Used, ToFront, Shortest, Longest, RunOn;
    OrigPtrBytes(p);
    ThreeBytes(p);
    Assoc(ToBits(p / 0x1_0000, 8), ToBits(p / 256 % 256, 8) + ToBits(p % 256, 8), rest);
    Assoc(ToBits(p / 256 % 256, 8), ToBits(p % 256, 8), rest);
    OrigPtrBytesRead(d, p / 0x1_0000, p / 256 % 256, p % 256, rest);
  }

  // ----- the map of bytes in use

  predicate GroupUsed(inUse: seq<bool>, i: int)
    requires |inUse| == 256 && 0 <= i < 16
  {
    exists x | 16 * i <= x < 16 * i + 16 :: inUse[x]
  }

  function GroupFlags(inUse: seq<bool>): (f: seq<bool>)
    requires |inUse| == 256
    ensures |f| == 16
  {
    seq(16, i requires 0 <= i < 16 => GroupUsed(inUse, i))
  }

  function Flag(b: bool): bit { if b then 1 else 0 }

  function GroupFlagBits(flags: seq<bool>, i: int, rest: seq<bit>): seq<bit>
    requires 0 <= i <= |flags|
    decreases |flags| - i
  {
    if i == |flags| then rest else [Flag(flags[i])] + GroupFlagBits(flags, i + 1, rest)
  }

  function ByteFlagBits(inUse: seq<bool>, i: int, j: int, rest: seq<bit>): seq<bit>
    requires |inUse| == 256 && 0 <= i < 16 && 0 <= j <= 16
    decreases 16 - j
  {
    if j == 16 then rest else [Flag(inUse[16 * i + j])] + ByteFlagBits(inUse, i, j + 1, rest)
  }

  function MapBits(inUse: seq<bool>, i: int, rest: seq<bit>): seq<bit>
    requires |inUse| == 256 && 0 <= i <= 16
    decreases 16 - i
  {
    if i == 16 then rest
    else if GroupUsed(inUse, i) then ByteFlagBits(inUse, i, 0, MapBits(inUse, i + 1, rest))
    else MapBits(inUse, i + 1, rest)
  }

  function Upto(t: seq<bool>, n: int): (r: seq<bool>)
    requires |t| == 256
    ensures |r| == 256
  {
    seq(256, x requires 0 <= x < 256 => x < n && t[x])
  }

  lemma {:induction false} GroupFlagsRead(d: Saved, flags: seq<bool>, rest: seq<bit>)
    requires Active(d) && d.at == Mapping1 && |flags| == 16 && d.inUse16[..d.i] == flags[..d.i]
    ensures RunOn(d, GroupFlagBits(flags, d.i, rest))
         == Resume(AtGroup(d.(inUse16 := flags, i := 16, inUse := seq(256, k => false)), 0), rest)
    decreases 16 - d.i
  {
    hide UnMtf, Used, ToFront, Shortest, Longest, RunOn, AtGroup;
    StepBit(d, Flag(flags[d.i]), GroupFlagBits(flags, d.i + 1, rest));
    var e := d.(inUse16 := d.inUse16[d.i := flags[d.i]], i := d.i + 1);
    assert e.inUse16[..e.i] == flags[..e.i];
    if d.i < 15 { GroupFlagsRead(e, flags, rest); } else { assert e.inUse16 == flags; }
  }

  lemma FlagPlace(d: Saved)
    requires Active(d) && d.at == Mapping2
    ensures Sized(d) && 0 <= d.i < 16 && 0 <= d.j < 16
  {
    hide InMtf, Searching, InCoding;
  }

  lemma ByteFlagStep(d: Saved, t: seq<bool>, rest: seq<bit>)
    requires Active(d) && d.at == Mapping2 && |t| == 256 && d.inUse == Upto(t, 16 * d.i + d.j)
    ensures d.j < 15 ==> Active(d.(inUse := Upto(t, 16 * d.i + d.j + 1), j := d.j + 1))
    ensures RunOn(d, [Flag(t[16 * d.i + d.j])] + rest)
         == if d.j < 15 then RunOn(d.(inUse := Upto(t, 16 * d.i + d.j + 1), j := d.j + 1), rest)
            else Resume(AtGroup(d.(inUse := Upto(t, 16 * (d.i + 1)), j := 16), d.i + 1), rest)
  {
    hide UnMtf, Used, ToFront, Shortest, Longest, RunOn, AtGroup, Advance, Wf;
    FlagPlace(d);
    var x := 16 * d.i + d.j;
    AdvanceMapping2(d, Flag(t[x]));
    StepBit(d, Flag(t[x]), rest);
    assert (if t[x] then d.inUse[x := true] else d.inUse) == Upto(t, x + 1);
  }

  lemma ByteFlagsFirst(t: seq<bool>, i: int, j: int, rest: seq<bit>)
    requires |t| == 256 && 0 <= i < 16 && 0 <= j < 16
    ensures ByteFlagBits(t, i, j, rest) == [Flag(t[16 * i + j])] + ByteFlagBits(t, i, j + 1, rest)
    ensures ByteFlagBits(t, i, 16, rest) == rest
  {
  }

  lemma {:induction false} ByteFlagsRead(d: Saved, t: seq<bool>, rest: seq<bit>)
    requires Active(d) && d.at == Mapping2 && |t| == 256 && d.inUse == Upto(t, 16 * d.i + d.j)
    ensures RunOn(d, ByteFlagBits(t, d.i, d.j, rest))
         == Resume(AtGroup(d.(inUse := Upto(t, 16 * (d.i + 1)), j := 16), d.i + 1), rest)
    decreases 16 - d.j
  {
    hide UnMtf, Used, ToFront, Shortest, Longest, RunOn, AtGroup, Upto, Resume, Flag, Wf, ByteFlagBits;
    FlagPlace(d);
    ByteFlagsFirst(t, d.i, d.j, rest);
    var more := ByteFlagBits(t, d.i, d.j + 1, rest);
    ByteFlagStep(d, t, more);
    if d.j < 15 {
      ByteFlagsRead(d.(inUse := Upto(t, 16 * d.i + d.j + 1), j := d.j + 1), t, rest);
    } else {
      assert more == rest;
    }
  }

  lemma {:induction false} GroupsRead(d: Saved, t: seq<bool>, i: int, rest: seq<bit>) returns (j: int)
    requires Sized(d) && |t| == 256 && 0 <= i <= 16 && d.inUse == Upto(t, 16 * i) && d.inUse16 == GroupFlags(t)
    requires Used(t) != []
    ensures Resume(AtGroup(d, i), MapBits(t, i, rest))
         == RunOn(d.(inUse := t, i := 16, j := j, byteOf := Used(t) + d.byteOf[|Used(t)|..], at := Selector1), rest)
    decreases 16 - i
  {
    hide UnMtf, Used, ToFront, Shortest, Longest, RunOn;
    if i == 16 {
      assert Upto(t, 256) == t;
      j := d.j;
    } else if GroupUsed(t, i) {
      var e := d.(i := i, j := 0, at := Mapping2);
      assert AtGroup(d, i) == Go(e);
      ByteFlagsRead(e, t, MapBits(t, i + 1, rest));
      j := GroupsRead(e.(inUse := Upto(t, 16 * (i + 1)), j := 16), t, i + 1, rest);
    } else {
      assert AtGroup(d, i) == AtGroup(d, i + 1);
      assert Upto(t, 16 * i) == Upto(t, 16 * (i + 1));
      j := GroupsRead(d, t, i + 1, rest);
    }
  }

  // ----- the selectors

  function UnaryBits(j: nat, rest: seq<bit>): seq<bit> {
    if j == 0 then [0] + rest else [1] + UnaryBits(j - 1, rest)
  }

  function SelectorBits(sel: seq<int>, rest: seq<bit>): seq<bit>
    requires InRange(sel, 6)
  {
    if sel == [] then rest else UnaryBits(sel[0], SelectorBits(sel[1..], rest))
  }

  lemma UnaryStop(d: Saved, rest: seq<bit>)
    requires Active(d) && d.at == Selector3
    ensures RunOn(d, [0] + rest) == Resume(AfterSelector3(d, 0), rest)
  {
    hide UnMtf, Used, ToFront, Shortest, Longest, RunOn, Advance, Wf;
    AdvanceSelector3(d, 0);
    StepBit(d, 0, rest);
  }

  lemma UnaryStep(d: Saved, rest: seq<bit>)
    requires Active(d) && d.at == Selector3 && d.j + 1 < d.nGroups
    ensures Active(d.(j := d.j + 1))
    ensures RunOn(d, [1] + rest) == RunOn(d.(j := d.j + 1), rest)
  {
    hide UnMtf, Used, ToFront, Shortest, Longest, RunOn, Advance, Wf;
    AdvanceSelector3(d, 1);
    StepBit(d, 1, rest);
  }

  lemma {:induction false} UnaryRead(d: Saved, j: nat, rest: seq<bit>)
    requires Active(d) && d.at == Selector3 && d.j + j < d.nGroups
    ensures RunOn(d, UnaryBits(j, rest)) == Resume(AfterSelector3(d.(j := d.j + j), 0), rest)
    decreases j
  {
    hide UnMtf, Used, ToFront, Shortest, Longest, RunOn, Advance, Wf, AfterSelector3;
    if j == 0 {
      UnaryStop(d, rest);
    } else {
      UnaryStep(d, UnaryBits(j - 1, rest));
      UnaryRead(d.(j := d.j + 1), j - 1, rest);
    }
  }

  function SelectorsDone(d: Saved, sel: seq<int>, j: int): Saved
    requires 0 <= d.nGroups && InRange(sel, d.nGroups)
  {
    d.(selectorMtf := sel, j := j, selector := UnMtf(sel, Iota(d.nGroups)), tables := [], table := [], i := 0, at := Coding1)
  }

  lemma SelectorPlace(d: Saved)
    requires Active(d) && d.at == Selector3
    ensures 2 <= d.nGroups <= 6 && d.i == |d.selectorMtf| && InRange(d.selectorMtf, d.nGroups)
  {
    hide InMtf, Searching, InCoding, Used;
  }

  /** A selector's position is complete. */
  lemma SelectorNext(d: Saved, j: nat)
    requires Active(d) && d.at == Selector3 && d.j == 0 && j < d.nGroups
    ensures d.i + 1 < d.nSelectors ==> Active(d.(selectorMtf := d.selectorMtf + [j], i := d.i + 1))
    ensures Wf(d.(j := j)) && InRange(d.selectorMtf + [j], d.nGroups)
    ensures AfterSelector3(d.(j := j), 0)
         == if d.i + 1 < d.nSelectors then Go(d.(selectorMtf := d.selectorMtf + [j], i := d.i + 1))
            else Go(SelectorsDone(d, d.selectorMtf + [j], j))
  {
    hide UnMtf, Used, InMtf, Searching, InCoding;
  }

  lemma RangeJoins(x: seq<int>, y: seq<int>, n: nat)
    requires InRange(x, n) && InRange(y, n) && n <= 6
    ensures InRange(x + y, n) && InRange(y, 6) && (y != [] ==> 0 <= y[0] < n && InRange(y[1..], n) && InRange(y[1..], 6))
  {
  }

  lemma {:induction false} SelectorsRead(d: Saved, sel: seq<int>, rest: seq<bit>)
    requires Active(d) && d.at == Selector3 && d.j == 0 && sel != [] && InRange(sel, d.nGroups)
    requires |d.selectorMtf| + |sel| == d.nSelectors
    ensures InRange(sel, 6) && InRange(d.selectorMtf + sel, d.nGroups)
    ensures RunOn(d, SelectorBits(sel, rest)) == RunOn(SelectorsDone(d, d.selectorMtf + sel, sel[|sel| - 1]), rest)
    decreases |sel|
  {
    hide UnMtf, Used, ToFront, Shortest, Longest, RunOn, Advance, Wf, AfterSelector3, InRange;
    SelectorPlace(d);
    RangeJoins(d.selectorMtf, sel, d.nGroups);
    UnaryRead(d, sel[0], SelectorBits(sel[1..], rest));
    SelectorNext(d, sel[0]);
    var got := d.selectorMtf + [sel[0]];
    if |sel| > 1 {
      var e := d.(selectorMtf := got, i := d.i + 1);
      SelectorsRead(e, sel[1..], rest);
      assert d.selectorMtf + sel == got + sel[1..];
    } else {
      assert sel == [sel[0]] && sel[1..] == [];
    }
  }

  // ----- the code lengths

  function DeltaBits(curr: int, len: int, rest: seq<bit>): seq<bit>
    decreases if curr < len then len - curr else curr - len
  {
    if curr < len then [1] + ([0] + DeltaBits(curr + 1, len, rest))
    else if curr > len then [1] + ([1] + DeltaBits(curr - 1, len, rest))
    else [0] + rest
  }

  function TableBits(len: seq<int>, i: nat, curr: int, rest: seq<bit>): seq<bit>
    requires i <= |len|
    decreases |len| - i
  {
    if i == |len| then rest else DeltaBits(curr, len[i], TableBits(len, i + 1, len[i], rest))
  }

  function CodingBits(tables: seq<seq<int>>, t: nat, rest: seq<bit>): seq<bit>
    requires t <= |tables| && forall k | 0 <= k < |tables| :: tables[k] != [] && tables[k][0] >= 0
    decreases |tables| - t
  {
    if t == |tables| then rest
    else ToBits(tables[t][0], 5) + TableBits(tables[t], 0, tables[t][0], CodingBits(tables, t + 1, rest))
  }

  /** The bits 10 and 11 step the length up and down. */
  lemma DeltaStep(d: Saved, up: bool, rest: seq<bit>)
    requires Active(d) && d.at == Coding2 && 1 <= (if up then d.curr + 1 else d.curr - 1) <= MAX_CODE
    ensures RunOn(d, [1] + ([Flag(!up)] + rest)) == RunOn(d.(curr := if up then d.curr + 1 else d.curr - 1), rest)
  {
    hide UnMtf, Used, ToFront, Shortest, Longest, RunOn, Advance, InMtf, Searching, AtTable, AtBlock, TablesOk;
    AdvanceCoding2(d, 1);
    AdvanceCoding3(d.(at := Coding3), Flag(!up));
    StepBit(d, 1, [Flag(!up)] + rest);
    StepBit(d.(at := Coding3), Flag(!up), rest);
  }

  lemma {:induction false} DeltaRead(d: Saved, len: int, rest: seq<bit>)
    requires Active(d) && d.at == Coding2 && 1 <= len <= MAX_CODE
    ensures RunOn(d, DeltaBits(d.curr, len, rest)) == Resume(AfterCoding2(d.(curr := len), 0), rest)
    decreases if d.curr < len then len - d.curr else d.curr - len
  {
    hide UnMtf, Used, ToFront, Shortest, Longest, RunOn, Advance, InMtf, Searching, AfterCoding2, AfterCoding3;
    if d.curr == len {
      AdvanceCoding2(d, 0);
      StepBit(d, 0, rest);
    } else if d.curr < len {
      DeltaStep(d, true, DeltaBits(d.curr + 1, len, rest));
      DeltaRead(d.(curr := d.curr + 1), len, rest);
    } else {
      DeltaStep(d, false, DeltaBits(d.curr - 1, len, rest));
      DeltaRead(d.(curr := d.curr - 1), len, rest);
    }
  }

  /** One length more, and perhaps the table is complete. */
  lemma LengthDone(d: Saved, len: seq<int>)
    requires Active(d) && d.at == Coding2 && |len| == AlphaSize(d) && Lengths(len, 1, MAX_CODE) && d.table == len[..d.i]
    ensures 0 <= d.i < |len| && Wf(d.(curr := len[d.i]))
    ensures d.i + 1 < |len| ==>
      AfterCoding2(d.(curr := len[d.i]), 0) == Go(d.(curr := len[d.i], table := len[..d.i + 1], i := d.i + 1))
    ensures d.i + 1 == |len| ==>
      AfterCoding2(d.(curr := len[d.i]), 0) == AtTable(d.(curr := len[d.i]), len) && len[d.i] == len[|len| - 1]
  {
    hide Used, InMtf, Searching, AtTable, AtBlock;
    assert len[..d.i + 1] == d.table + [len[d.i]];
    if d.i + 1 == |len| { assert len[..d.i + 1] == len; }
  }

  lemma {:induction false} TableRead(d: Saved, len: seq<int>, rest: seq<bit>)
    requires Active(d) && d.at == Coding2 && |len| == AlphaSize(d) && Lengths(len, 1, MAX_CODE) && d.table == len[..d.i]
    ensures RunOn(d, TableBits(len, d.i, d.curr, rest)) == Resume(AtTable(d.(curr := len[|len| - 1]), len), rest)
    decreases |len| - d.i
  {
    hide UnMtf, Used, ToFront, Shortest, Longest, RunOn, Advance, InMtf, Searching, AfterCoding2, AtBlock;
    LengthDone(d, len);
    DeltaRead(d, len[d.i], TableBits(len, d.i + 1, len[d.i], rest));
    if d.i + 1 < |len| {
      TableRead(d.(curr := len[d.i], table := len[..d.i + 1], i := d.i + 1), len, rest);
    }
  }

  /** After a table, the next one or the block. */
  lemma TableDone(d: Saved, tables: seq<seq<int>>, c: int)
    requires Active(d) && d.at == Coding1 && |tables| == d.nGroups && TablesOk(tables, AlphaSize(d)) && d.i == 0
    requires d.tables == tables[..|d.tables|]
    ensures |d.tables| < |tables|
    ensures |d.tables| + 1 < |tables| ==>
      AtTable(d.(curr := c, at := Coding2), tables[|d.tables|]) == Go(d.(curr := c, tables := tables[..|d.tables| + 1]))
    ensures |d.tables| + 1 == |tables| ==>
      AtTable(d.(curr := c, at := Coding2), tables[|d.tables|]) == AtBlock(d.(curr := c, tables := tables, at := Coding2))
  {
    hide UnMtf, Used, Shortest, Longest, InMtf, Searching, AtBlock;
    assert tables[..|d.tables| + 1] == d.tables + [tables[|d.tables|]];
    if |d.tables| + 1 == |tables| { assert tables[..|d.tables| + 1] == tables; }
  }

  lemma FirstLength(d: Saved, c: nat, rest: seq<bit>)
    requires Active(d) && d.at == Coding1 && d.i == 0 && 1 <= c <= MAX_CODE
    ensures Active(d.(curr := c, at := Coding2))
    ensures RunOn(d, ToBits(c, 5) + rest) == RunOn(d.(curr := c, at := Coding2), rest)
  {
    hide UnMtf, Used, Shortest, Longest, InMtf, Searching, RunOn;
    Pow2Small();
    Step(d, c, 5, rest);
  }

  lemma {:induction false} CodingRead(d: Saved, tables: seq<seq<int>>, rest: seq<bit>) returns (c: int)
    requires Active(d) && d.at == Coding1 && |tables| == d.nGroups && TablesOk(tables, AlphaSize(d))
    requires d.tables == tables[..|d.tables|] && d.i == 0
    ensures RunOn(d, CodingBits(tables, |d.tables|, rest)) == Resume(AtBlock(d.(tables := tables, curr := c)), rest)
    decreases |tables| - |d.tables|
  {
    hide UnMtf, Used, ToFront, Shortest, Longest, RunOn, InMtf, Searching, Advance, AtTable;
    var t := |d.tables|;
    var len := tables[t];
    FirstLength(d, len[0], TableBits(len, 0, len[0], CodingBits(tables, t + 1, rest)));
    TableRead(d.(curr := len[0], at := Coding2), len, CodingBits(tables, t + 1, rest));
    c := len[|len| - 1];
    TableDone(d, tables, c);
    if t + 1 < d.nGroups {
      c := CodingRead(d.(curr := c, tables := tables[..t + 1]), tables, rest);
    }
  }

  lemma Pow2Small()
    ensures Pow2(3) == 8 && Pow2(5) == 32 && Pow2(15) == 0x8000
  {
    Pow2Add(5, 5);
    Pow2Add(10, 5);
  }

  // ----- the block data

  /** Lengths that fill the code space exactly. */
  ghost predicate TableOk(len: seq<int>, alphaSize: int) {
    |len| == alphaSize && Lengths(len, 1, 17) && Kraft(len, 17) == Pow2(17)
  }

  /** Symbols below alphaSize; a selector for each 50 of them; a complete code for each selector. */
  ghost predicate Coded(tables: seq<seq<int>>, alphaSize: int, selector: seq<int>, syms: seq<int>) {
    |syms| <= G_SIZE * |selector| && InRange(selector, |tables|) && 0 <= alphaSize && InRange(syms, alphaSize) &&
    forall t {:trigger tables[t]} | 0 <= t < |tables| :: TableOk(tables[t], alphaSize)
  }

  function SymbolBits(tables: seq<seq<int>>, alphaSize: int, selector: seq<int>, syms: seq<int>, k: nat,
                      rest: seq<bit>): seq<bit>
    requires k <= |syms| && Coded(tables, alphaSize, selector, syms)
    decreases |syms| - k
  {
    if k == |syms| then rest
    else
      var len := tables[selector[k / G_SIZE]];
      CodeBits(len, syms[k]) + SymbolBits(tables, alphaSize, selector, syms, k + 1, rest)
  }

  lemma Distribute(x: int, y: int, z: int)
    ensures (x + y) * z == x * z + y * z
  {
  }

  lemma {:induction false} KraftScale(len: seq<int>, hi: nat, e: nat)
    requires hi <= e && Lengths(len, 0, hi)
    ensures Kraft(len, e) == Kraft(len, hi) * Pow2(e - hi)
  {
    if len == [] {
      assert Kraft(len, e) == 0 && Kraft(len, hi) == 0;
    } else {
      var n := |len| - 1;
      KraftScale(len[..n], hi, e);
      KraftSnoc(len[..n], len[n], hi);
      KraftSnoc(len[..n], len[n], e);
      assert len == len[..n] + [len[n]];
      Pow2Add(hi - len[n], e - hi);
      Distribute(Kraft(len[..n], hi), Pow2(hi - len[n]), Pow2(e - hi));
    }
  }

  lemma KraftSnoc(len: seq<int>, x: int, e: nat)
    ensures Kraft(len + [x], e) == Kraft(len, e) + Cell(x, e)
  {
    var y := seq(|len|, i requires 0 <= i < |len| => Cell(len[i], e));
    var l := len + [x];
    assert seq(|l|, i requires 0 <= i < |l| => Cell(l[i], e)) == y + [Cell(x, e)];
    SumSnoc(y, Cell(x, e));
  }

  /** The code space is filled at the longest length in use, too. */
  lemma KraftAtLongest(len: seq<int>)
    requires len != [] && Lengths(len, 1, 17) && Kraft(len, 17) == Pow2(17)
    ensures 1 <= Longest(len) <= 17 && Lengths(len, Shortest(len), Longest(len))
    ensures Kraft(len, Longest(len)) == Pow2(Longest(len))
  {
    hide Kraft, Pow2;
    var hi := Longest(len);
    assert len[0] <= hi;
    KraftScale(len, hi, 17);
    Pow2Add(hi, 17 - hi);
    Cancel(Kraft(len, hi), Pow2(hi), Pow2(17 - hi));
  }

  lemma Cancel(a: int, b: int, m: nat)
    requires a * m == b * m && m > 0
    ensures a == b
  {
    assert (a - b) * m == 0;
  }

  function Decoded(d: Saved, at: Label, s: nat): Saved
    requires 0 <= d.gSel < |d.tables| && s < |d.tables[d.gSel]| && d.tables[d.gSel][s] >= 0
  {
    d.(at := at, zn := d.tables[d.gSel][s], zvec := CodeOf(d.tables[d.gSel], s))
  }

  lemma CodeFound(len: seq<int>, s: nat, alphaSize: int)
    requires TableOk(len, alphaSize) && s < alphaSize
    ensures FromBits(CodeBits(len, s)) == CodeOf(len, s)
    ensures CodeOf(len, s) <= Limits(len, Shortest(len), Longest(len))[len[s]]
    ensures CodeOf(len, s) - Bases(len, Shortest(len), Longest(len))[len[s]] == Slot(len, s) < alphaSize
    ensures |ByLength(len, Longest(len) + 1)| == alphaSize && ByLength(len, Longest(len) + 1)[Slot(len, s)] == s
  {
    hide FromBits, ToBits, CodeOf, Limits, Bases, ByLength, Slot, Kraft, Pow2, Shortest, Longest;
    KraftAtLongest(len);
    SearchFinds(len, Shortest(len), Longest(len), s);
    CodeFits(len, s, Longest(len));
    ReadBack(CodeOf(len, s), len[s]);
  }

  lemma SearchEnd(d: Saved, inRun: bool, s: nat)
    requires Sized(d) && Searching(d) && TableOk(d.tables[d.gSel], AlphaSize(d)) && s < AlphaSize(d)
    requires d.zn == d.tables[d.gSel][s] && d.zvec == FromBits(CodeBits(d.tables[d.gSel], s))
    ensures AtSearch(d, inRun) == AtValue(d, inRun, s)
    ensures d.zvec == CodeOf(d.tables[d.gSel], s)
  {
    hide AtValue, Limits, Bases, ByLength, CodeOf, Slot, CodeBits, Kraft, FromBits, Shortest, Longest;
    CodeFound(d.tables[d.gSel], s, AlphaSize(d));
  }

  lemma SearchMore(d: Saved, inRun: bool, s: nat)
    requires Sized(d) && Searching(d) && TableOk(d.tables[d.gSel], AlphaSize(d)) && s < AlphaSize(d)
    requires d.zn < d.tables[d.gSel][s] && d.zvec == FromBits(CodeBits(d.tables[d.gSel], s)[..d.zn])
    ensures AtSearch(d, inRun) == Go(d.(zn := d.zn + 1, at := MtfBit(inRun)))
  {
    hide AtValue, Limits, Bases, ByLength, CodeOf, CodeBits, Kraft, FromBits, Shortest, Longest, Pow2;
    var len := d.tables[d.gSel];
    KraftAtLongest(len);
    SearchContinues(len, Shortest(len), Longest(len), s, d.zn);
  }

  lemma MtfBitStep(d: Saved, b: bit, rest: seq<bit>)
    requires Active(d) && d.at.MtfBit?
    ensures RunOn(d, [b] + rest) == Resume(AtSearch(d.(zvec := 2 * d.zvec + b), d.at.inRun), rest)
  {
    hide UnMtf, Used, ToFront, Shortest, Longest, RunOn, AtSearch, Advance, Wf;
    AdvanceMtfBit(d, b);
    StepBit(d, b, rest);
  }

  lemma NextBit(code: seq<bit>, n: nat, rest: seq<bit>)
    requires n < |code|
    ensures code[n..] + rest == [code[n]] + (code[n + 1..] + rest)
    ensures FromBits(code[..n + 1]) == 2 * FromBits(code[..n]) + code[n]
  {
    assert code[..n + 1][..n] == code[..n];
  }

  /** The search goes on, and the table it uses is one of those there are. */
  lemma SearchGoesOn(d: Saved, inRun: bool, z: nat)
    requires Sized(d) && Searching(d) && d.zn <= MAX_CODE
    ensures var e := d.(zn := d.zn + 1, zvec := z, at := MtfBit(inRun)); Sized(e) && Searching(e) && Active(e)
    ensures 0 <= d.gSel < |d.tables| && |d.tables[d.gSel]| == AlphaSize(d) && d.zn >= 1
  {
    hide Lengths, Listed, InRange, Shortest;
  }

  /** One bit more of a code that is not complete. */
  lemma SearchNext(d: Saved, inRun: bool, s: nat, rest: seq<bit>) returns (e: Saved)
    requires Sized(d) && Searching(d) && TableOk(d.tables[d.gSel], AlphaSize(d)) && s < AlphaSize(d)
    requires d.zn < d.tables[d.gSel][s] && d.zvec == FromBits(CodeBits(d.tables[d.gSel], s)[..d.zn])
    ensures e == d.(zn := d.zn + 1, zvec := FromBits(CodeBits(d.tables[d.gSel], s)[..d.zn + 1]), at := MtfBit(inRun))
    ensures Sized(e) && Searching(e)
    ensures Resume(AtSearch(d, inRun), CodeBits(d.tables[d.gSel], s)[d.zn..] + rest)
         == Resume(AtSearch(e, inRun), CodeBits(d.tables[d.gSel], s)[e.zn..] + rest)
  {
    hide UnMtf, Used, ToFront, Shortest, Longest, RunOn, AtSearch, AtValue, FromBits, CodeOf, Advance, ToBits,
      InCoding, Kraft, Pow2, TablesOk, Listed, InRange, Need;
    SearchGoesOn(d, inRun, 2 * d.zvec);
    var code := CodeBits(d.tables[d.gSel], s);
    SearchMore(d, inRun, s);
    var m := d.(zn := d.zn + 1, at := MtfBit(inRun));
    var b := code[d.zn];
    NextBit(code, d.zn, rest);
    MtfBitStep(m, b, code[d.zn + 1..] + rest);
    e := m.(zvec := 2 * d.zvec + b);
    SearchGoesOn(d, inRun, 2 * d.zvec + b);
  }

  /** From n bits of a code on, the search reads the rest of the code and comes out with the symbol. */
  lemma {:induction false} SearchRead(d: Saved, inRun: bool, s: nat, rest: seq<bit>) returns (at: Label)
    requires Sized(d) && Searching(d) && TableOk(d.tables[d.gSel], AlphaSize(d)) && s < AlphaSize(d)
    requires d.zn <= d.tables[d.gSel][s] && d.zvec == FromBits(CodeBits(d.tables[d.gSel], s)[..d.zn])
    ensures Resume(AtSearch(d, inRun), CodeBits(d.tables[d.gSel], s)[d.zn..] + rest)
         == Resume(AtValue(Decoded(d, at, s), inRun, s), rest)
    decreases d.tables[d.gSel][s] - d.zn
  {
    hide UnMtf, Used, ToFront, Shortest, Longest, RunOn, AtSearch, AtValue, FromBits, CodeOf, Advance, ToBits,
      InCoding, Resume;
    var code := CodeBits(d.tables[d.gSel], s);
    if d.zn == d.tables[d.gSel][s] {
      assert code[..d.zn] == code && code[d.zn..] + rest == rest;
      SearchEnd(d, inRun, s);
      at := d.at;
    } else {
      var e := SearchNext(d, inRun, s, rest);
      at := SearchRead(e, inRun, s, rest);
    }
  }

  /** The state in which symbol k is about to be read. */
  ghost predicate AtTurn(d: Saved, k: nat) {
    d.groupNo == (k - 1) / G_SIZE && d.groupPos == (G_SIZE - k % G_SIZE) % G_SIZE &&
    (k % G_SIZE != 0 ==> 0 <= d.groupNo < |d.selector| && d.gSel == d.selector[d.groupNo])
  }

  ghost predicate InData(d: Saved) {
    Sized(d) && InMtf(d) && forall t {:trigger d.tables[t]} | 0 <= t < d.nGroups :: TableOk(d.tables[t], AlphaSize(d))
  }

  /** The decoder waits for symbol k. */
  function Turned(d: Saved, k: nat, inRun: bool): Saved
    requires InData(d) && k / G_SIZE < |d.selector|
  {
    var g := d.selector[k / G_SIZE];
    d.(groupNo := k / G_SIZE, groupPos := G_SIZE - 1 - k % G_SIZE, gSel := g, zn := FirstWidth(d.tables[g]), at := MtfBits(inRun))
  }

  lemma TurnStep(d: Saved, inRun: bool, k: nat)
    requires InData(d) && AtTurn(d, k) && k / G_SIZE < |d.selector|
    ensures AtSymbol(d, inRun) == Go(Turned(d, k, inRun)) && AtTurn(Turned(d, k, inRun), k + 1)
  {
    hide UnMtf, Used, Shortest, Longest, FirstWidth, TableOk;
    TurnArithmetic(k);
  }

  /** The first bits of a code are read at once. */
  lemma FirstRead(b: Saved, code: seq<bit>, rest: seq<bit>)
    requires Active(b) && b.at.MtfBits? && b.zn <= |code|
    ensures Searching(b.(zvec := FromBits(code[..b.zn])))
    ensures RunOn(b, code + rest) == Resume(AtSearch(b.(zvec := FromBits(code[..b.zn])), b.at.inRun), code[b.zn..] + rest)
  {
    hide UnMtf, Used, ToFront, Shortest, Longest, RunOn, AtSearch, Advance, FromBits, ToBits;
    var v := FromBits(code[..b.zn]);
    WriteBack(code[..b.zn]);
    assert code + rest == code[..b.zn] + (code[b.zn..] + rest);
    AdvanceMtfBits(b, v);
    Step(b, v, b.zn, code[b.zn..] + rest);
  }

  /** One symbol is read with the table of its group, and the decoder is ready for the next. */
  lemma SymbolRead(d: Saved, inRun: bool, k: nat, s: nat, rest: seq<bit>) returns (e: Saved)
    requires InData(d) && AtTurn(d, k) && k / G_SIZE < |d.selector| && s < AlphaSize(d)
    ensures e == d.(groupNo := e.groupNo, groupPos := e.groupPos, gSel := e.gSel, zn := e.zn, zvec := e.zvec, at := e.at)
    ensures AtTurn(e, k + 1) && 0 <= e.gSel < e.nGroups
    ensures Resume(AtSymbol(d, inRun), CodeBits(d.tables[d.selector[k / G_SIZE]], s) + rest)
         == Resume(AtValue(e, inRun, s), rest)
  {
    hide UnMtf, Used, ToFront, Shortest, Longest, RunOn, AtSearch, AtSymbol, AtValue;
    TurnStep(d, inRun, k);
    var b := Turned(d, k, inRun);
    var len := d.tables[b.gSel];
    assert len[0] >= b.zn && len[s] >= b.zn;
    var code := CodeBits(len, s);
    FirstRead(b, code, rest);
    var c := b.(zvec := FromBits(code[..b.zn]));
    var at := SearchRead(c, inRun, s, rest);
    e := Decoded(c, at, s);
  }

  lemma TurnArithmetic(k: nat)
    ensures k % G_SIZE == 0 ==> (k - 1) / G_SIZE + 1 == k / G_SIZE
    ensures k % G_SIZE != 0 ==> (k - 1) / G_SIZE == k / G_SIZE
    ensures (G_SIZE - (k + 1) % G_SIZE) % G_SIZE
         == if k % G_SIZE == 0 then G_SIZE - 1 else (G_SIZE - k % G_SIZE) % G_SIZE - 1
  {
  }

  /** What decoding the data does not touch. */
  ghost predicate Kept(e: Saved, d: Saved) {
    Sized(e) && e.level == d.level && e.storedBlockCRC == d.storedBlockCRC && e.origPtr == d.origPtr &&
    e.randomised == d.randomised
  }

  ghost function Accepted(d: Saved, inRun: bool, syms: seq<int>): Verdict
    requires Sized(d) && Listed(d.u) && AlphaSize(d) >= 3 && InRange(syms, AlphaSize(d))
  {
    AcceptAll(d.u, inRun, syms, d.byteOf, AlphaSize(d) - 1, 100000 * d.level)
  }

  lemma StillInData(d: Saved, f: Saved, u: Unmtf)
    requires InData(d) && Listed(u)
    requires f == d.(groupNo := f.groupNo, groupPos := f.groupPos, gSel := f.gSel, zn := f.zn, zvec := f.zvec, at := f.at)
    ensures InData(f.(u := u)) && forall k {:trigger AtTurn(f, k)} | AtTurn(f, k) :: AtTurn(f.(u := u), k)
  {
    hide UnMtf, Used, TablesOk, TableOk;
  }

  lemma InDataFacts(d: Saved)
    requires InData(d)
    ensures Sized(d) && Listed(d.u) && 3 <= AlphaSize(d) <= 258
  {
    hide TablesOk, TableOk;
  }

  /** The verdict on the first symbol, and what is left for the others. */
  lemma AcceptedFirst(d: Saved, inRun: bool, syms: seq<int>)
    requires Sized(d) && Listed(d.u) && 3 <= AlphaSize(d) <= 258 && syms != [] && InRange(syms, AlphaSize(d))
    requires Accepted(d, inRun, syms).Finished?
    ensures var v := Accept(d.u, inRun, syms[0], d.byteOf, AlphaSize(d) - 1, 100000 * d.level);
      if |syms| > 1 then v.More? && InRange(syms[1..], AlphaSize(d)) && Accepted(d.(u := v.u), v.inRun, syms[1..]) == Accepted(d, inRun, syms)
      else v == Accepted(d, inRun, syms)
  {
    hide Used, Accept;
    if |syms| == 1 {
      assert syms == [syms[0]];
      OneSymbol(d.u, inRun, syms[0], d.byteOf, AlphaSize(d) - 1, 100000 * d.level);
    }
  }

  /** What reading a symbol changes does not matter to the ones after it. */
  lemma AcceptedSame(d: Saved, f: Saved, u: Unmtf, inRun: bool, syms: seq<int>)
    requires Sized(d) && Listed(u) && AlphaSize(d) >= 3 && InRange(syms, AlphaSize(d))
    requires f == d.(groupNo := f.groupNo, groupPos := f.groupPos, gSel := f.gSel, zn := f.zn, zvec := f.zvec, at := f.at)
    ensures Sized(f) && AlphaSize(f) == AlphaSize(d)
    ensures Accepted(f.(u := u), inRun, syms) == Accepted(d.(u := u), inRun, syms)
  {
    hide Used, AcceptAll;
  }

  lemma {:induction false} DataRead(d: Saved, inRun: bool, k: nat, syms: seq<int>, rest: seq<bit>) returns (e: Saved)
    requires InData(d) && AtTurn(d, k) && k < |syms| && Coded(d.tables, AlphaSize(d), d.selector, syms)
    requires Accepted(d, inRun, syms[k..]).Finished? && 0 <= d.origPtr < |Accepted(d, inRun, syms[k..]).u.out|
    ensures Resume(AtSymbol(d, inRun), SymbolBits(d.tables, AlphaSize(d), d.selector, syms, k, rest))
         == Stopped(BlockReady, e, rest)
    ensures Kept(e, d) && e.at == Output && e.u == Accepted(d, inRun, syms[k..]).u
    decreases |syms| - k
  {
    hide UnMtf, Used, ToFront, Shortest, Longest, RunOn, AtSymbol, Accept, SymbolBits, CodeBits, InData, Advance,
      Accepted, AtTurn, TableOk, Kraft;
    InDataFacts(d);
    var more := SymbolBits(d.tables, AlphaSize(d), d.selector, syms, k + 1, rest);
    SymbolBitsStep(d.tables, AlphaSize(d), d.selector, syms, k, rest);
    var f := SymbolRead(d, inRun, k, syms[k], more);
    AcceptedFirst(d, inRun, syms[k..]);
    var v := Accept(d.u, inRun, syms[k], d.byteOf, AlphaSize(d) - 1, 100000 * d.level);
    if k + 1 < |syms| {
      assert syms[k..][1..] == syms[k + 1..];
      StillInData(d, f, v.u);
      AcceptedSame(d, f, v.u, v.inRun, syms[k + 1..]);
      e := DataRead(f.(u := v.u), v.inRun, k + 1, syms, rest);
    } else {
      SymbolBitsEnd(d.tables, AlphaSize(d), d.selector, syms, rest);
      e := f.(u := v.u, at := Output);
    }
  }

  lemma OneSymbol(u: Unmtf, inRun: bool, s: int, byteOf: seq<byte>, eob: int, room: int)
    requires Listed(u) && |byteOf| == 256 && 0 <= s <= eob <= 257
    ensures AcceptAll(u, inRun, [s], byteOf, eob, room) == Accept(u, inRun, s, byteOf, eob, room)
  {
    var v := Accept(u, inRun, s, byteOf, eob, room);
    if v.More? { assert AcceptAll(v.u, v.inRun, [], byteOf, eob, room) == v; }
  }

  lemma SymbolBitsStep(tables: seq<seq<int>>, alphaSize: int, selector: seq<int>, syms: seq<int>, k: nat, rest: seq<bit>)
    requires k < |syms| && Coded(tables, alphaSize, selector, syms)
    ensures SymbolBits(tables, alphaSize, selector, syms, k, rest)
         == CodeBits(tables[selector[k / G_SIZE]], syms[k]) + SymbolBits(tables, alphaSize, selector, syms, k + 1, rest)
  {
  }

  lemma SymbolBitsEnd(tables: seq<seq<int>>, alphaSize: int, selector: seq<int>, syms: seq<int>, rest: seq<bit>)
    requires Coded(tables, alphaSize, selector, syms)
    ensures SymbolBits(tables, alphaSize, selector, syms, |syms|, rest) == rest
  {
  }

  // ----- a whole block

  datatype Block = Block(crc: nat, origPtr: nat, inUse: seq<bool>, tables: seq<seq<int>>, selector: seq<int>,
                         selectorMtf: seq<int>, syms: seq<int>)

  ghost predicate BlockOk(b: Block) {
    b.crc < 0x1_0000_0000 && b.origPtr < 0x100_0000 && |b.inUse| == 256 && Used(b.inUse) != [] &&
    2 <= |b.tables| <= 6 && 1 <= |b.selector| < 0x8000 && |b.selectorMtf| == |b.selector| && InRange(b.selectorMtf, |b.tables|) &&
    UnMtf(b.selectorMtf, Iota(|b.tables|)) == b.selector &&
    Coded(b.tables, |Used(b.inUse)| + 2, b.selector, b.syms) && b.syms != []
  }

  function TablesAndDataBits(b: Block, rest: seq<bit>): seq<bit>
    requires BlockOk(b)
  {
    CodingBits(b.tables, 0, SymbolBits(b.tables, |Used(b.inUse)| + 2, b.selector, b.syms, 0, rest))
  }

  function SelectorsBits(b: Block, rest: seq<bit>): seq<bit>
    requires BlockOk(b)
  {
    ToBits(|b.tables|, 3) + (ToBits(|b.selector|, 15) + SelectorBits(b.selectorMtf, rest))
  }

  function BlockBits(b: Block, rest: seq<bit>): seq<bit>
    requires BlockOk(b)
  {
    BlkHdrBits(1, WordBits(b.crc, [0] + (ToBits(b.origPtr, 24) +
      GroupFlagBits(GroupFlags(b.inUse), 0, MapBits(b.inUse, 0, SelectorsBits(b, TablesAndDataBits(b, rest)))))))
  }

  lemma HeaderRead(d: Saved, b: Block, rest: seq<bit>)
    requires Sized(d) && d.at == BlkHdr(1) && b.crc < 0x1_0000_0000 && b.origPtr < 0x100_0000
    requires b.origPtr <= 10 + 100000 * d.level
    ensures RunOn(d, BlkHdrBits(1, WordBits(b.crc, [0] + (ToBits(b.origPtr, 24) + rest))))
         == RunOn(d.(storedBlockCRC := b.crc, randomised := 0, origPtr := b.origPtr, i := 0, at := Mapping1), rest)
  {
    hide UnMtf, Used, ToFront, Shortest, Longest, RunOn, BlkHdrBits, WordBits;
    var r2 := ToBits(b.origPtr, 24) + rest;
    BlkHdrRead(d, 1, WordBits(b.crc, [0] + r2));
    var d1 := d.(storedBlockCRC := 0, at := BCrc(1));
    BCrcRead(d1, b.crc, [0] + r2);
    var d2 := d.(storedBlockCRC := b.crc, at := RandBit);
    StepBit(d2, 0, r2);
    var d3 := d2.(randomised := 0, origPtr := 0, at := OrigPtr(1));
    assert Advance(d2, 0) == Go(d3);
    OrigPtrRead(d3, b.origPtr, rest);
  }

  lemma MapRead(d: Saved, b: Block, rest: seq<bit>) returns (j: int)
    requires Sized(d) && d.at == Mapping1 && d.i == 0 && BlockOk(b)
    ensures RunOn(d, GroupFlagBits(GroupFlags(b.inUse), 0, MapBits(b.inUse, 0, rest)))
         == RunOn(Mapped(d, b, j), rest)
  {
    hide UnMtf, Used, ToFront, Shortest, Longest, RunOn, MapBits, GroupFlagBits, AtGroup;
    var flags := GroupFlags(b.inUse);
    GroupFlagsRead(d, flags, MapBits(b.inUse, 0, rest));
    var d1 := d.(inUse16 := flags, i := 16, inUse := seq(256, k => false));
    assert d1.inUse == Upto(b.inUse, 0);
    j := GroupsRead(d1, b.inUse, 0, rest);
  }

  function Mapped(d: Saved, b: Block, j: int): Saved
    requires Sized(d) && BlockOk(b)
  {
    d.(inUse16 := GroupFlags(b.inUse), inUse := b.inUse, i := 16, j := j,
       byteOf := Used(b.inUse) + d.byteOf[|Used(b.inUse)|..], at := Selector1)
  }

  lemma GroupCountRead(d: Saved, n: nat, rest: seq<bit>)
    requires Active(d) && d.at == Selector1 && 2 <= n <= 6
    ensures Active(d.(nGroups := n, at := Selector2))
    ensures RunOn(d, ToBits(n, 3) + rest) == RunOn(d.(nGroups := n, at := Selector2), rest)
  {
    hide UnMtf, Used, RunOn, InMtf, Searching, InCoding;
    Pow2Small();
    Step(d, n, 3, rest);
  }

  lemma SelectorCountRead(d: Saved, n: nat, rest: seq<bit>)
    requires Active(d) && d.at == Selector2 && 1 <= n < 0x8000
    ensures Active(d.(nSelectors := n, i := 0, j := 0, selectorMtf := [], at := Selector3))
    ensures RunOn(d, ToBits(n, 15) + rest) == RunOn(d.(nSelectors := n, i := 0, j := 0, selectorMtf := [], at := Selector3), rest)
  {
    hide UnMtf, Used, RunOn, InMtf, Searching, InCoding;
    Pow2Small();
    Step(d, n, 15, rest);
  }

  lemma UnMtfRange(sel: seq<int>, n: nat)
    requires InRange(sel, n)
    ensures |UnMtf(sel, Iota(n))| == |sel| && InRange(UnMtf(sel, Iota(n)), n)
  {
    var r := UnMtf(sel, Iota(n));
  }

  lemma SelectorsActive(d: Saved, sel: seq<int>, j: int, selector: seq<int>)
    requires Active(d) && d.at == Selector3 && sel != [] && InRange(sel, d.nGroups)
    requires UnMtf(sel, Iota(d.nGroups)) == selector
    ensures Active(SelectorsDone(d, sel, j)) && SelectorsDone(d, sel, j).selector == selector
  {
    hide Used, InMtf, Searching, UnMtf;
    UnMtfRange(sel, d.nGroups);
  }

  lemma SelectorsPhaseRead(d: Saved, b: Block, rest: seq<bit>) returns (e: Saved)
    requires Sized(d) && d.at == Selector1 && BlockOk(b) && d.inUse == b.inUse
    ensures Active(e) && RunOn(d, SelectorsBits(b, rest)) == RunOn(e, rest)
    ensures e.at == Coding1 && e.selector == b.selector && e.tables == [] && e.nGroups == |b.tables| && e.i == 0
    ensures e == d.(at := e.at, selector := e.selector, selectorMtf := e.selectorMtf, tables := e.tables, table := e.table,
                    i := e.i, j := e.j, nGroups := e.nGroups, nSelectors := e.nSelectors)
  {
    hide UnMtf, Used, ToFront, Shortest, Longest, RunOn, SelectorBits, Advance, InMtf, Searching, InCoding, Coded;
    var r2 := SelectorBits(b.selectorMtf, rest);
    var r1 := ToBits(|b.selector|, 15) + r2;
    GroupCountRead(d, |b.tables|, r1);
    var d1 := d.(nGroups := |b.tables|, at := Selector2);
    SelectorCountRead(d1, |b.selector|, r2);
    var d2 := d1.(nSelectors := |b.selector|, i := 0, j := 0, selectorMtf := [], at := Selector3);
    SelectorsRead(d2, b.selectorMtf, rest);
    Nothing(b.selectorMtf);
    e := SelectorsDone(d2, b.selectorMtf, b.selectorMtf[|b.selectorMtf| - 1]);
    SelectorsActive(d2, b.selectorMtf, b.selectorMtf[|b.selectorMtf| - 1], b.selector);
  }

  lemma TablesAre(b: Block)
    requires BlockOk(b)
    ensures TablesOk(b.tables, |Used(b.inUse)| + 2) && InRange(b.selector, |b.tables|)
    ensures Coded(b.tables, |Used(b.inUse)| + 2, b.selector, b.syms) && 3 <= |Used(b.inUse)| + 2 <= 258
  {
    hide Used, UnMtf;
  }

  /** The decoder at the start of the data. */
  lemma DataStarts(d: Saved, b: Block, c: int)
    requires Sized(d) && BlockOk(b) && d.inUse == b.inUse && d.selector == b.selector && d.nGroups == |b.tables|
    ensures var e := d.(tables := b.tables, curr := c, groupNo := -1, groupPos := 0, u := Unmtf(Iota(256), d.u.es, d.u.n, []));
      InData(e) && AtTurn(e, 0) && AtBlock(d.(tables := b.tables, curr := c)) == AtSymbol(e, false)
  {
    hide Used, UnMtf, AtSymbol, Shortest, Longest;
  }

  /** What the decoder has read of a block when its coding tables follow. */
  ghost predicate BeforeTables(d: Saved, e: Saved, b: Block)
    requires Sized(d) && BlockOk(b)
  {
    Active(e) && e.at == Coding1 && e.selector == b.selector && e.tables == [] && e.nGroups == |b.tables| && e.i == 0 &&
    e.inUse == b.inUse && e.byteOf == Used(b.inUse) + d.byteOf[|Used(b.inUse)|..] && e.u == d.u && e.level == d.level &&
    e.storedBlockCRC == b.crc && e.origPtr == b.origPtr && e.randomised == 0
  }

  /** Header, map and selectors. */
  lemma FrontRead(d: Saved, b: Block, rest: seq<bit>) returns (e: Saved)
    requires Sized(d) && d.at == BlkHdr(1) && BlockOk(b) && b.origPtr <= 10 + 100000 * d.level
    ensures BeforeTables(d, e, b)
    ensures RunOn(d, BlockBits(b, rest)) == RunOn(e, TablesAndDataBits(b, rest))
  {
    hide UnMtf, Used, ToFront, Shortest, Longest, RunOn, BlkHdrBits, WordBits, GroupFlagBits, MapBits, TablesAndDataBits,
      SelectorsBits, Advance, InMtf, Searching, InCoding, Iota, GroupFlags, Wf, Kraft, Pow2, TablesOk;
    var r2 := TablesAndDataBits(b, rest);
    var r1 := SelectorsBits(b, r2);
    HeaderRead(d, b, GroupFlagBits(GroupFlags(b.inUse), 0, MapBits(b.inUse, 0, r1)));
    var d1 := d.(storedBlockCRC := b.crc, randomised := 0, origPtr := b.origPtr, i := 0, at := Mapping1);
    var j := MapRead(d1, b, r1);
    e := SelectorsPhaseRead(Mapped(d1, b, j), b, r2);
  }


  lemma BlockRead(d: Saved, b: Block, rest: seq<bit>, byteOf: seq<byte>, v: Verdict) returns (e: Saved)
    requires Sized(d) && d.at == BlkHdr(1) && BlockOk(b) && b.origPtr <= 10 + 100000 * d.level
    requires byteOf == Used(b.inUse) + d.byteOf[|Used(b.inUse)|..]
    requires v == AcceptAll(Unmtf(Iota(256), d.u.es, d.u.n, []), false, b.syms, byteOf, |Used(b.inUse)| + 1, 100000 * d.level)
    requires v.Finished? && b.origPtr < |v.u.out|
    ensures RunOn(d, BlockBits(b, rest)) == Stopped(BlockReady, e, rest)
    ensures Sized(e) && e.at == Output && e.level == d.level && e.storedBlockCRC == b.crc && e.origPtr == b.origPtr
    ensures e.randomised == 0
    ensures e.u == v.u
  {
    hide UnMtf, Used, ToFront, Shortest, Longest, RunOn, BlockBits, CodingBits, SymbolBits, AtSymbol, AcceptAll,
      Advance, Coded,
      TablesOk, Searching;
    var r3 := SymbolBits(b.tables, |Used(b.inUse)| + 2, b.selector, b.syms, 0, rest);
    var d3 := FrontRead(d, b, rest);
    TablesAre(b);
    var c := CodingRead(d3, b.tables, r3);
    var d4 := d3.(tables := b.tables, curr := c, groupNo := -1, groupPos := 0, u := Unmtf(Iota(256), d.u.es, d.u.n, []));
    assert b.syms[0..] == b.syms;
    DataStarts(d3, b, c);
    e := DataRead(d4, false, 0, b.syms, rest);
  }
}
