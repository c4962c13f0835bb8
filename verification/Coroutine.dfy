// The block decoder as it is resumed: at each label it waits for some bits, and everything it still needs is in
// the save area.
module Coroutine {
  import opened Bits
  import opened BitIO
  import opened Permutations
  import opened Counting
  import opened CanonicalCode
  import opened SymbolMaps
  import opened Mtf

  const G_SIZE := 50
  const MAX_CODE := 20

  datatype Label =
    | Magic(k: int) | BlkHdr(k: int) | BCrc(k: int) | RandBit | OrigPtr(k: int)
    | Mapping1 | Mapping2 | Selector1 | Selector2 | Selector3 | Coding1 | Coding2 | Coding3
    | MtfBits(inRun: bool) | MtfBit(inRun: bool)
    | EndHdr(k: int) | CCrc(k: int) | Output | Idle

  /** The decoder's state between two reads. */
  datatype Saved = Saved(
    at: Label, level: int, storedBlockCRC: nat, storedCombinedCRC: nat, randomised: int, origPtr: int,
    inUse16: seq<bool>, inUse: seq<bool>, byteOf: seq<byte>, i: int, j: int, nGroups: int, nSelectors: int,
    selectorMtf: seq<int>, selector: seq<int>, curr: int, table: seq<int>, tables: seq<seq<int>>,
    groupNo: int, groupPos: int, gSel: int, zn: nat, zvec: nat, u: Unmtf)

  datatype Code = DataErrorMagic | DataError | BlockReady | StreamEnd

  datatype Outcome = Go(d: Saved) | Stop(code: Code, d: Saved)

  // ----- well-formed states

  function AlphaSize(d: Saved): int {
    |Used(d.inUse)| + 2
  }

  ghost predicate Sized(d: Saved) {
    |d.inUse16| == 16 && |d.inUse| == 256 && |d.byteOf| == 256
  }

  ghost predicate Grouped(d: Saved) {
    2 <= d.nGroups <= 6 && AlphaSize(d) >= 3
  }

  ghost predicate TablesOk(tables: seq<seq<int>>, alphaSize: int) {
    forall t {:trigger tables[t]} | 0 <= t < |tables| :: |tables[t]| == alphaSize && Lengths(tables[t], 1, MAX_CODE)
  }

  ghost predicate InCoding(d: Saved) {
    Grouped(d) && 1 <= |d.selector| && InRange(d.selector, d.nGroups) && |d.tables| < d.nGroups && TablesOk(d.tables, AlphaSize(d)) &&
    d.i == |d.table| < AlphaSize(d) && Lengths(d.table, 1, MAX_CODE)
  }

  ghost predicate InMtf(d: Saved) {
    Grouped(d) && InRange(d.selector, d.nGroups) && |d.tables| == d.nGroups && TablesOk(d.tables, AlphaSize(d)) &&
    Listed(d.u)
  }

  ghost predicate Searching(d: Saved) {
    InMtf(d) && 0 <= d.gSel < d.nGroups && 1 <= d.zn <= MAX_CODE + 1 && Shortest(d.tables[d.gSel]) <= d.zn
  }

  /** What the code after each label relies on. */
  ghost predicate Wf(d: Saved) {
    Sized(d) &&
    match d.at
    case Mapping1 => 0 <= d.i < 16
    case Mapping2 => 0 <= d.i < 16 && 0 <= d.j < 16
    case Selector1 => AlphaSize(d) >= 3
    case Selector2 => Grouped(d)
    case Selector3 => Grouped(d) && 0 <= d.j < d.nGroups && d.i == |d.selectorMtf| < d.nSelectors && InRange(d.selectorMtf, d.nGroups)
    case Coding1 => InCoding(d) && d.table == []
    case Coding2 => InCoding(d) && 1 <= d.curr <= MAX_CODE
    case Coding3 => InCoding(d) && 1 <= d.curr <= MAX_CODE
    case MtfBits(_) => Searching(d) && d.zn <= MAX_CODE
    case MtfBit(_) => Searching(d)
    case _ => true
  }

  ghost predicate Active(d: Saved) {
    Wf(d) && d.at != Output && d.at != Idle
  }

  /** The decoder goes on in a state it can go on from, and a finished block has its starting point inside it. */
  ghost predicate Sane(o: Outcome) {
    match o
    case Go(d) => Active(d)
    case Stop(code, d) => code == BlockReady ==> Sized(d) && 0 <= d.origPtr < |d.u.out|
  }

  // ----- how many bits each label waits for

  function Need(d: Saved): (n: nat)
    ensures Wf(d) ==> 1 <= n <= 24
  {
    match d.at
    case RandBit => 1
    case Mapping1 => 1
    case Mapping2 => 1
    case Selector1 => 3
    case Selector2 => 15
    case Selector3 => 1
    case Coding1 => 5
    case Coding2 => 1
    case Coding3 => 1
    case MtfBits(_) => d.zn
    case MtfBit(_) => 1
    case _ => 8
  }

  // ----- what happens between labels

  function Fail(d: Saved): Outcome { Stop(DataError, d) }

  function MagicByte(k: int): int {
    if k == 1 then 0x42 else if k == 2 then 0x5a else 0x68
  }

  function BlockByte(k: int): int {
    if k == 1 then 0x31 else if k == 2 then 0x41 else if k == 3 then 0x59 else if k == 4 then 0x26 else if k == 5 then 0x53 else 0x59
  }

  function EndByte(k: int): int {
    if k == 1 then 0x17 else if k == 2 then 0x72 else if k == 3 then 0x45 else if k == 4 then 0x38 else if k == 5 then 0x50 else 0x90
  }

  function AfterMagic(d: Saved, k: int, v: nat): (o: Outcome)
    requires Sized(d)
    ensures Sane(o)
  {
    if k < 4 then
      if v != MagicByte(k) then Stop(DataErrorMagic, d) else Go(d.(at := Magic(k + 1)))
    else if v < 0x30 + 1 || v > 0x30 + 9 then Stop(DataErrorMagic, d.(level := v))
    else Go(d.(level := v - 0x30, at := BlkHdr(1)))
  }

  function AfterBlkHdr(d: Saved, k: int, v: nat): (o: Outcome)
    requires Sized(d)
    ensures Sane(o)
  {
    if k == 1 && v == EndByte(1) then Go(d.(at := EndHdr(2)))
    else if v != BlockByte(k) then Fail(d)
    else if k < 6 then Go(d.(at := BlkHdr(k + 1)))
    else Go(d.(storedBlockCRC := 0, at := BCrc(1)))
  }

  /** A 32-bit word takes in a byte. */
  function PushByte(w: nat, v: nat): nat {
    (w * 256 + v) % 0x1_0000_0000
  }

  function AfterBCrc(d: Saved, k: int, v: nat): (o: Outcome)
    requires Sized(d)
    ensures Sane(o)
  {
    var e := d.(storedBlockCRC := PushByte(d.storedBlockCRC, v));
    if k < 4 then Go(e.(at := BCrc(k + 1))) else Go(e.(at := RandBit))
  }

  function AfterRandBit(d: Saved, v: nat): (o: Outcome)
    requires Sized(d)
    ensures Sane(o)
  {
    Go(d.(randomised := v, origPtr := 0, at := OrigPtr(1)))
  }

  function AfterOrigPtr(d: Saved, k: int, v: nat): (o: Outcome)
    requires Sized(d)
    ensures Sane(o)
  {
    var e := d.(origPtr := d.origPtr * 256 + v);
    if k < 3 then Go(e.(at := OrigPtr(k + 1)))
    else if e.origPtr < 0 || e.origPtr > 10 + 100000 * d.level then Fail(e)
    else Go(e.(i := 0, at := Mapping1))
  }

  function NextGroup(inUse16: seq<bool>, i: int): (k: int)
    requires 0 <= i <= 16 == |inUse16|
    ensures i <= k <= 16 && (k < 16 ==> inUse16[k])
    decreases 16 - i
  {
    if i == 16 || inUse16[i] then i else NextGroup(inUse16, i + 1)
  }

  /** The map is read group by group; groups without a byte in use are skipped. */
  function AtGroup(d: Saved, i: int): (o: Outcome)
    requires Sized(d) && 0 <= i <= 16
    ensures Sane(o)
  {
    var k := NextGroup(d.inUse16, i);
    if k < 16 then Go(d.(i := k, j := 0, at := Mapping2))
    else
      var used := Used(d.inUse);
      var e := d.(i := 16, byteOf := used + d.byteOf[|used|..]);
      if used == [] then Fail(e) else Go(e.(at := Selector1))
  }

  function AfterMapping1(d: Saved, v: nat): (o: Outcome)
    requires Wf(d) && d.at.Mapping1?
    ensures Sane(o)
  {
    var e := d.(inUse16 := d.inUse16[d.i := v == 1], i := d.i + 1);
    if d.i + 1 < 16 then Go(e) else AtGroup(e.(inUse := seq(256, k => false)), 0)
  }

  function AfterMapping2(d: Saved, v: nat): (o: Outcome)
    requires Wf(d) && d.at.Mapping2?
    ensures Sane(o)
  {
    var e := if v == 1 then d.(inUse := d.inUse[16 * d.i + d.j := true]) else d;
    if d.j + 1 < 16 then Go(e.(j := d.j + 1)) else AtGroup(e.(j := 16), d.i + 1)
  }

  function AfterSelector1(d: Saved, v: nat): (o: Outcome)
    requires Wf(d) && d.at.Selector1?
    ensures Sane(o)
  {
    if v < 2 || v > 6 then Fail(d.(nGroups := v)) else Go(d.(nGroups := v, at := Selector2))
  }

  function AfterSelector2(d: Saved, v: nat): (o: Outcome)
    requires Wf(d) && d.at.Selector2?
    ensures Sane(o)
  {
    if v < 1 then Fail(d.(nSelectors := v))
    else Go(d.(nSelectors := v, i := 0, j := 0, selectorMtf := [], at := Selector3))
  }

  /** The selectors, from their positions in a move-to-front list of the tables. */
  function UnMtf(sel: seq<int>, pos: seq<int>): (r: seq<int>)
    requires InRange(sel, |pos|)
    ensures |r| == |sel| && forall n | InRange(pos, n) :: InRange(r, n)
  {
    if sel == [] then []
    else
      var p' := ToFront(pos, sel[0]);
      assert forall n | InRange(pos, n) :: InRange(p', n);
      [pos[sel[0]]] + UnMtf(sel[1..], p')
  }

  function AfterSelector3(d: Saved, v: nat): (o: Outcome)
    requires Wf(d) && d.at.Selector3?
    ensures Sane(o)
  {
    if v == 0 then
      var sel := d.selectorMtf + [d.j];
      var e := d.(selectorMtf := sel, i := d.i + 1);
      if d.i + 1 < d.nSelectors then Go(e.(j := 0))
      else
        Go(e.(selector := UnMtf(sel, Iota(d.nGroups)), tables := [], table := [], i := 0, at := Coding1))
    else if d.j + 1 >= d.nGroups then Fail(d.(j := d.j + 1))
    else Go(d.(j := d.j + 1))
  }

  function AtLength(d: Saved): (o: Outcome)
    requires Sized(d) && InCoding(d)
    ensures Sane(o)
  {
    if d.curr < 1 || d.curr > MAX_CODE then Fail(d) else Go(d.(at := Coding2))
  }

  function AfterCoding1(d: Saved, v: nat): (o: Outcome)
    requires Wf(d) && d.at.Coding1?
    ensures Sane(o)
  {
    AtLength(d.(curr := v, i := 0))
  }

  function AfterCoding2(d: Saved, v: nat): (o: Outcome)
    requires Wf(d) && d.at.Coding2?
    ensures Sane(o)
  {
    if v != 0 then Go(d.(at := Coding3))
    else
      var table := d.table + [d.curr];
      if d.i + 1 < AlphaSize(d) then AtLength(d.(table := table, i := d.i + 1)) else AtTable(d, table)
  }

  /** One table is complete. */
  function AtTable(d: Saved, table: seq<int>): (o: Outcome)
    requires Sized(d) && InCoding(d) && |table| == AlphaSize(d) && Lengths(table, 1, MAX_CODE)
    ensures Sane(o)
  {
    var e := d.(tables := d.tables + [table], table := [], i := 0);
    if |e.tables| < d.nGroups then Go(e.(at := Coding1)) else AtBlock(e)
  }

  function AfterCoding3(d: Saved, v: nat): (o: Outcome)
    requires Wf(d) && d.at.Coding3?
    ensures Sane(o)
  {
    AtLength(d.(curr := if v == 0 then d.curr + 1 else d.curr - 1))
  }

  function Shortest(len: seq<int>): (m: int)
    ensures m <= 32 && forall i | 0 <= i < |len| :: m <= len[i]
    ensures m == 32 || m in len
  {
    if len == [] then 32
    else
      var m := Shortest(len[..|len| - 1]);
      if len[|len| - 1] < m then len[|len| - 1] else m
  }

  function Longest(len: seq<int>): (m: int)
    ensures m >= 0 && forall i | 0 <= i < |len| :: len[i] <= m
    ensures m == 0 || m in len
  {
    if len == [] then 0
    else
      var m := Longest(len[..|len| - 1]);
      if len[|len| - 1] > m then len[|len| - 1] else m
  }

  /** All tables are in: the block data follows. */
  function AtBlock(d: Saved): (o: Outcome)
    requires Sized(d) && Grouped(d) && InRange(d.selector, d.nGroups) && |d.tables| == d.nGroups
    requires TablesOk(d.tables, AlphaSize(d))
    ensures Sane(o)
  {
    AtSymbol(d.(groupNo := -1, groupPos := 0, u := Unmtf(Iota(256), d.u.es, d.u.n, [])), false)
  }

  /** The start of a symbol: after each 50, the next selector picks a table. */
  function AtSymbol(d: Saved, inRun: bool): (o: Outcome)
    requires Sized(d) && InMtf(d) && (d.groupPos != 0 ==> 0 <= d.gSel < d.nGroups)
    ensures Sane(o)
  {
    if d.groupPos == 0 then
      var e := d.(groupNo := d.groupNo + 1);
      if e.groupNo >= |d.selector| || e.groupNo < 0 then Fail(e)
      else
        var g := d.selector[e.groupNo];
        Go(e.(groupPos := G_SIZE - 1, gSel := g, zn := FirstWidth(d.tables[g]), at := MtfBits(inRun)))
    else
      Go(d.(groupPos := d.groupPos - 1, zn := FirstWidth(d.tables[d.gSel]), at := MtfBits(inRun)))
  }

  function FirstWidth(len: seq<int>): (n: nat)
    requires Lengths(len, 1, MAX_CODE) && len != []
    ensures 1 <= n <= MAX_CODE
  {
    var m := Shortest(len);
    assert m <= len[0];
    m
  }

  /** Compare with the limit for zn bits. */
  function AtSearch(d: Saved, inRun: bool): (o: Outcome)
    requires Sized(d) && Searching(d)
    ensures Sane(o)
  {
    var len := d.tables[d.gSel];
    var lo, hi := FirstWidth(len), Longest(len);
    if d.zn > MAX_CODE then Fail(d)
    else if d.zvec <= Limits(len, lo, hi)[d.zn] then
      var k := d.zvec - Bases(len, lo, hi)[d.zn];
      if k < 0 || k >= 258 then Fail(d)
      else
        SearchInside(len, lo, hi, d.zn, d.zvec);
        CountBelowAll(len, hi + 1);
        ByLengthRange(len, hi + 1);
        AtValue(d, inRun, ByLength(len, hi + 1)[k])
    else Go(d.(zn := d.zn + 1, at := MtfBit(inRun)))
  }

  function AtValue(d: Saved, inRun: bool, sym: int): (o: Outcome)
    requires Sized(d) && InMtf(d) && 0 <= d.gSel < d.nGroups && 0 <= sym < AlphaSize(d)
    ensures Sane(o)
  {
    match Accept(d.u, inRun, sym, d.byteOf, AlphaSize(d) - 1, 100000 * d.level)
    case Bad => Fail(d)
    case More(u, r) => AtSymbol(d.(u := u), r)
    case Finished(u) =>
      if d.origPtr < 0 || d.origPtr >= |u.out| then Fail(d.(u := u))
      else Stop(BlockReady, d.(u := u, at := Output))
  }

  function AfterMtfBits(d: Saved, v: nat): (o: Outcome)
    requires Wf(d) && d.at.MtfBits?
    ensures Sane(o)
  {
    AtSearch(d.(zvec := v), d.at.inRun)
  }

  function AfterMtfBit(d: Saved, v: nat): (o: Outcome)
    requires Wf(d) && d.at.MtfBit?
    ensures Sane(o)
  {
    AtSearch(d.(zvec := 2 * d.zvec + v), d.at.inRun)
  }

  function AfterEndHdr(d: Saved, k: int, v: nat): (o: Outcome)
    requires Sized(d)
    ensures Sane(o)
  {
    if v != EndByte(k) then Fail(d)
    else if k < 6 then Go(d.(at := EndHdr(k + 1)))
    else Go(d.(storedCombinedCRC := 0, at := CCrc(1)))
  }

  function AfterCCrc(d: Saved, k: int, v: nat): (o: Outcome)
    requires Sized(d)
    ensures Sane(o)
  {
    var e := d.(storedCombinedCRC := PushByte(d.storedCombinedCRC, v));
    if k < 4 then Go(e.(at := CCrc(k + 1))) else Stop(StreamEnd, e.(at := Idle))
  }

  /** What the decoder does when the bits it waits for have come: it goes on to the next label or stops. */
  function Advance(d: Saved, v: nat): (o: Outcome)
    requires Active(d)
    ensures Sane(o)
  {
    match d.at
    case Magic(k) => AfterMagic(d, k, v)
    case BlkHdr(k) => AfterBlkHdr(d, k, v)
    case BCrc(k) => AfterBCrc(d, k, v)
    case RandBit => AfterRandBit(d, v)
    case OrigPtr(k) => AfterOrigPtr(d, k, v)
    case Mapping1 => AfterMapping1(d, v)
    case Mapping2 => AfterMapping2(d, v)
    case Selector1 => AfterSelector1(d, v)
    case Selector2 => AfterSelector2(d, v)
    case Selector3 => AfterSelector3(d, v)
    case Coding1 => AfterCoding1(d, v)
    case Coding2 => AfterCoding2(d, v)
    case Coding3 => AfterCoding3(d, v)
    case MtfBits(_) => AfterMtfBits(d, v)
    case MtfBit(_) => AfterMtfBit(d, v)
    case EndHdr(k) => AfterEndHdr(d, k, v)
    case CCrc(k) => AfterCCrc(d, k, v)
  }

  // ----- which code follows a label

  lemma AdvanceMapping2(d: Saved, v: nat)
    requires Active(d) && d.at == Mapping2
    ensures Advance(d, v) == AfterMapping2(d, v)
  {
    hide AfterMagic, AfterBlkHdr, AfterBCrc, AfterRandBit, AfterOrigPtr, AfterMapping1, AfterMapping2,
      AfterSelector1, AfterSelector2,
      AfterSelector3, AfterCoding1, AfterCoding2, AfterCoding3, AfterMtfBits, AfterMtfBit, AfterEndHdr, AfterCCrc;
  }

  lemma AdvanceSelector3(d: Saved, v: nat)
    requires Active(d) && d.at == Selector3
    ensures Advance(d, v) == AfterSelector3(d, v)
  {
    hide AfterMagic, AfterBlkHdr, AfterBCrc, AfterRandBit, AfterOrigPtr, AfterMapping1, AfterMapping2,
      AfterSelector1, AfterSelector2,
      AfterSelector3, AfterCoding1, AfterCoding2, AfterCoding3, AfterMtfBits, AfterMtfBit, AfterEndHdr, AfterCCrc;
  }

  lemma AdvanceCoding2(d: Saved, v: nat)
    requires Active(d) && d.at == Coding2
    ensures Advance(d, v) == AfterCoding2(d, v)
  {
    hide AfterMagic, AfterBlkHdr, AfterBCrc, AfterRandBit, AfterOrigPtr, AfterMapping1, AfterMapping2,
      AfterSelector1, AfterSelector2,
      AfterSelector3, AfterCoding1, AfterCoding2, AfterCoding3, AfterMtfBits, AfterMtfBit, AfterEndHdr, AfterCCrc;
  }

  lemma AdvanceCoding3(d: Saved, v: nat)
    requires Active(d) && d.at == Coding3
    ensures Advance(d, v) == AfterCoding3(d, v)
  {
    hide AfterMagic, AfterBlkHdr, AfterBCrc, AfterRandBit, AfterOrigPtr, AfterMapping1, AfterMapping2,
      AfterSelector1, AfterSelector2,
      AfterSelector3, AfterCoding1, AfterCoding2, AfterCoding3, AfterMtfBits, AfterMtfBit, AfterEndHdr, AfterCCrc;
  }

  lemma AdvanceMtfBits(d: Saved, v: nat)
    requires Active(d) && d.at.MtfBits?
    ensures Advance(d, v) == AfterMtfBits(d, v)
  {
    hide AfterMagic, AfterBlkHdr, AfterBCrc, AfterRandBit, AfterOrigPtr, AfterMapping1, AfterMapping2,
      AfterSelector1, AfterSelector2,
      AfterSelector3, AfterCoding1, AfterCoding2, AfterCoding3, AfterMtfBits, AfterMtfBit, AfterEndHdr, AfterCCrc;
  }

  lemma AdvanceMtfBit(d: Saved, v: nat)
    requires Active(d) && d.at.MtfBit?
    ensures Advance(d, v) == AfterMtfBit(d, v)
  {
    hide AfterMagic, AfterBlkHdr, AfterBCrc, AfterRandBit, AfterOrigPtr, AfterMapping1, AfterMapping2,
      AfterSelector1, AfterSelector2,
      AfterSelector3, AfterCoding1, AfterCoding2, AfterCoding3, AfterMtfBits, AfterMtfBit, AfterEndHdr, AfterCCrc;
  }

  // ----- running on the bits that have come

  datatype Run = Waiting(d: Saved, rest: seq<bit>) | Stopped(code: Code, d: Saved, rest: seq<bit>)

  function RunOn(d: Saved, bits: seq<bit>): (r: Run)
    requires Active(d)
    ensures |r.rest| <= |bits|
    ensures r.Waiting? ==> Active(r.d)
    ensures r.Stopped? ==> |r.rest| + Need(d) <= |bits|
    ensures r.Stopped? && r.code == BlockReady ==> Sized(r.d) && 0 <= r.d.origPtr < |r.d.u.out|
    decreases |bits|
  {
    var n := Need(d);
    if |bits| < n then Waiting(d, bits)
    else
      match Advance(d, FromBits(bits[..n]))
      case Go(e) => RunOn(e, bits[n..])
      case Stop(c, e) => Stopped(c, e, bits[n..])
  }

  /** The model is left in a state from which more bits take it to where it would have come with all of them. */
  lemma {:induction false} Resumed(d: Saved, a: seq<bit>, b: seq<bit>)
    requires Active(d)
    ensures RunOn(d, a).Waiting? ==> |RunOn(d, a).rest| < Need(RunOn(d, a).d)
    ensures RunOn(d, a + b) == match RunOn(d, a)
                               case Waiting(e, r) => RunOn(e, r + b)
                               case Stopped(c, e, r) => Stopped(c, e, r + b)
    decreases |a|
  {
    var n := Need(d);
    if |a| >= n {
      assert (a + b)[..n] == a[..n] && (a + b)[n..] == a[n..] + b;
      var o := Advance(d, FromBits(a[..n]));
      if o.Go? { Resumed(o.d, a[n..], b); }
    }
  }
}
