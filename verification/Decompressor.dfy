// The decompressor: bits are read as they come, blocks are undone as they are complete, and output is handed out as
// there is room for it.
module Decompressor {
  import opened Bits
  import opened BitIO
  import opened Permutations
  import opened Rotations
  import opened Unsort
  import opened SmallVector
  import opened OutputStage
  import opened Coroutine
  import opened BlockFormat
  import opened BlockLayout
  import opened Stream
  import opened InverseBwt
  import opened Compressor
  import opened BitSource
  import opened BlockReader
  import Counting
  import RunLength
  import Crc

  // ----- a finished block

  /** The checks the source makes on the counts never fail. */
  lemma CountsInRange(unz: seq<int>, cf: seq<int>, l: seq<byte>)
    requires CountedBytes(unz, l) && Cftab(cf, l)
    ensures forall i {:trigger unz[i]} | 0 <= i < 256 :: 0 <= unz[i] <= |l|
    ensures forall i {:trigger cf[i]} | 0 <= i <= 256 :: 0 <= cf[i] <= |l|
    ensures forall i, j {:trigger cf[i], cf[j]} | 0 <= i <= j <= 256 :: cf[i] <= cf[j]
  {
    forall c | 0 <= c < 256 ensures multiset(l)[c] <= |l| {
      assert multiset(l)[c] <= |multiset(l)|;
    }
    Counting.CountBelowAll(l, 256);
    forall i, j | 0 <= i <= j <= 256 ensures 0 <= cf[i] <= cf[j] <= |l| {
      Counting.CountBelowMonotone(l, i, j);
      Counting.CountBelowMonotone(l, j, 256);
    }
  }

  /** Set up the inverse transform of a block, in the form the caller asked for. */
  method OpenBlock(tt: array<int>, nblock: nat, unzftab: array<int>, origPtr: nat, level: nat, small: bool, tab: Crc.Table,
                   ghost l: seq<byte>, ghost block: seq<byte>) returns (out: DState)
    requires nblock <= tt.Length && tt[..nblock] == l && CountedBytes(unzftab[..], l)
    requires Sent(block, l, origPtr) && |l| <= 100000 * level && 1 <= level <= 9 && RunLength.Countable(block)
    ensures fresh(out) && fresh(out.tt) && fresh(out.cftab) && fresh(out.vector) && fresh(out.vector.ll16)
    ensures fresh(out.vector.ll4)
    ensures out.Valid() && out.Pending() == RunLength.Decode(block) && out.tab == tab && out.small == small
    ensures out.calculatedBlockCRC == Crc.CRC_INITIAL
  {
    hide Threaded, Spells, Heads, Reversed, Sent, RunLength.Decode, RunLength.Countable, CountedBytes;
    StartOfBlock(block, l, origPtr);
    SentSpells(block, l, origPtr);
    var cftab := new int[257](_ => 0);
    CountsOf(unzftab[..], l);
    MakeCftab(unzftab, cftab, l);
    CountsInRange(unzftab[..], cftab[..], l);
    if small {
      out := OpenSmall(tt, nblock, origPtr, level, tab, cftab, l, block);
    } else {
      out := OpenFast(tt, nblock, origPtr, level, tab, cftab, l, block);
    }
  }

  lemma CountsOf(unz: seq<int>, l: seq<byte>)
    requires CountedBytes(unz, l)
    ensures |unz| == 256 && forall c | 0 <= c < 256 :: unz[c] == multiset(l)[c]
  {
  }

  lemma StartOfBlock(block: seq<byte>, l: seq<byte>, origPtr: int)
    requires Sent(block, l, origPtr) && RunLength.Countable(block)
    ensures |block| == |l| > 0 && RunsFrom(block, 0) && Rest(block, 0) == RunLength.Decode(block)
  {
    assert block[0..] == block;
  }

  method OpenFast(column: array<int>, nblock: nat, origPtr: nat, level: nat, tab: Crc.Table, cftab: array<int>,
                  ghost l: seq<byte>, ghost block: seq<byte>) returns (out: DState)
    requires nblock <= column.Length && column[..nblock] == l && column != cftab
    requires Spells(block, l, SortOrder(l), origPtr) && |l| <= 100000 * level && RunsFrom(block, 0)
    requires Cftab(cftab[..], l)
    modifies cftab
    ensures fresh(out) && fresh(out.tt) && fresh(out.cftab) && fresh(out.vector) && fresh(out.vector.ll16)
    ensures fresh(out.vector.ll4)
    ensures out.Valid() && out.Pending() == Rest(block, 0) && out.tab == tab && !out.small
    ensures out.calculatedBlockCRC == Crc.CRC_INITIAL
  {
    var tt := new int[nblock];
    for i := 0 to nblock
      invariant tt[..i] == l[..i] && column[..nblock] == l && cftab[..] == old(cftab[..])
    {
      assert column[i] == column[..nblock][i];
      tt[i] := column[i];
    }
    assert tt[..|l|] == l;
    BuildFast(tt, cftab, nblock, l);
    out := new DState.Fast(tt, nblock, origPtr, level, tab, block, l, SortOrder(l));
  }

  method OpenSmall(column: array<int>, nblock: nat, origPtr: nat, level: nat, tab: Crc.Table, cftab: array<int>,
                   ghost l: seq<byte>, ghost block: seq<byte>) returns (out: DState)
    requires nblock <= column.Length && column[..nblock] == l
    requires Spells(block, l, SortOrder(l), origPtr) && |l| <= 100000 * level && level <= 9 && RunsFrom(block, 0)
    requires Cftab(cftab[..], l)
    ensures fresh(out) && fresh(out.tt) && out.cftab == cftab && fresh(out.vector) && fresh(out.vector.ll16)
    ensures fresh(out.vector.ll4)
    ensures out.Valid() && out.Pending() == Rest(block, 0) && out.tab == tab && out.small
    ensures out.calculatedBlockCRC == Crc.CRC_INITIAL
  {
    var v := PackColumn(column, nblock, l);
    var copy := new int[257](k requires 0 <= k < 257 reads cftab => if k < cftab.Length then cftab[k] else 0);
    assert copy[..] == cftab[..];
    BuildSmall(v, copy, nblock, l);
    SortOrderStable(l);
    ghost var cycle := ReverseCycle(v, origPtr, SortOrder(l));
    CftabHeads(cftab[..], l);
    out := new DState.Small(v, cftab, nblock, origPtr, level, tab, block, l, SortOrder(l), cycle);
  }

  method PackColumn(column: array<int>, nblock: nat, ghost l: seq<byte>) returns (v: PackedVector)
    requires nblock <= column.Length && column[..nblock] == l
    ensures fresh(v) && fresh(v.ll16) && fresh(v.ll4) && v.Valid() && |v.Entries| == nblock && v.ll16[..|l|] == l
  {
    v := new PackedVector(nblock);
    var i := 0;
    while i < nblock
      invariant 0 <= i <= nblock && v.Valid() && |v.Entries| == nblock && fresh(v.ll16) && fresh(v.ll4)
      invariant forall k {:trigger v.Word(k)} | 0 <= k < i :: v.Word(k) == l[k]
    {
      assert column[i] == column[..nblock][i] == l[i];
      v.PutByte(i, column[i]);
      i := i + 1;
    }
    assert forall k | 0 <= k < nblock :: v.ll16[k] == v.Word(k);
  }

  // ----- what is still to come

  /** The bits to come are the rest of a stream whose remaining blocks are those of h. */
  ghost function RestBits(tab: Crc.Table, h: History, combined: bv32, pad: seq<bit>): seq<bit>
    requires forall k {:trigger h.bs[k]} | 0 <= k < |h.bs| :: BlockOk(h.bs[k])
  {
    BlocksBits(h.bs, Crc.AsWord(Combined(combined, Sums(tab, h.runs))), pad)
  }

  ghost predicate Encoded(tab: Crc.Table, level: nat, h: History) {
    1 <= level <= 9 && AllEncoded(tab, level, h.runs, h.ps, h.bs) && forall k {:trigger h.bs[k]} | 0 <= k < |h.bs| :: BlockOk(h.bs[k])
  }

  /** In the middle of a block, or of a header: decoding goes on as from the beginning of that block. */
  ghost predicate Reading(tab: Crc.Table, d: Saved, bits: seq<bit>, start: Saved, h: History, combined: bv32,
                          pad: seq<bit>) {
    Active(d) && Sized(start) && start.at == BlkHdr(1) && 0 <= start.level && Encoded(tab, start.level, h) &&
    RunOn(d, bits) == RunOn(start, RestBits(tab, h, combined, pad))
  }

  /** Between blocks, while one is being handed out. */
  ghost predicate Handing(tab: Crc.Table, d: Saved, bits: seq<bit>, blockCRC: bv32, h: History, combined: bv32,
                          pad: seq<bit>) {
    Sized(d) && d.at == Output && 0 <= d.level && Encoded(tab, d.level, h) && d.storedBlockCRC == Crc.AsWord(blockCRC) &&
    bits == RestBits(tab, h, Crc.Combine(combined, blockCRC), pad)
  }

  lemma TailEncoded(tab: Crc.Table, level: nat, h: History)
    requires Encoded(tab, level, h) && h.bs != []
    ensures |h.runs| == |h.ps| == |h.bs| == |Sums(tab, h.runs)|
    ensures Encodes(tab, level, h.runs[0], h.ps[0], h.bs[0])
    ensures Encoded(tab, level, History(h.runs[1..], h.ps[1..], h.bs[1..]))
    ensures Sums(tab, h.runs)[1..] == Sums(tab, h.runs[1..]) && Sums(tab, h.runs)[0] == Sum(tab, h.runs[0])
    ensures Input(h.runs) == RunLength.Expand(h.runs[0]) + Input(h.runs[1..])
  {
    hide Encodes, Sum, RunLength.Expand, BlockOk;
    assert Encodes(tab, level, h.runs[0], h.ps[0], h.bs[0]);
    forall k | 0 <= k < |h.bs[1..]|
      ensures Encodes(tab, level, h.runs[1..][k], h.ps[1..][k], h.bs[1..][k]) && BlockOk(h.bs[1..][k]) {
      assert Encodes(tab, level, h.runs[k + 1], h.ps[k + 1], h.bs[k + 1]) && BlockOk(h.bs[k + 1]);
    }
  }

  /** When the decoder stops while reading a well-formed stream, it has come to the end of a block or of the stream. */
  lemma ReadingStops(tab: Crc.Table, d: Saved, bits: seq<bit>, later: seq<bit>, start: Saved, h: History, combined: bv32,
                     pad: seq<bit>)
    requires Reading(tab, d, bits + later, start, h, combined, pad)
    ensures RunOn(d, bits).Waiting? ==> Reading(tab, RunOn(d, bits).d, RunOn(d, bits).rest + later, start, h, combined, pad)
    ensures RunOn(d, bits).Waiting? ==> |pad| < |later|
    ensures RunOn(d, bits).Stopped? && h.bs == [] ==>
      RunOn(d, bits).code == StreamEnd && RunOn(d, bits).d.storedCombinedCRC == Crc.AsWord(combined) && RunOn(d, bits).d.at == Idle
    ensures RunOn(d, bits).Stopped? && h.bs != [] ==>
      RunOn(d, bits).code == BlockReady && BlockDone(tab, RunOn(d, bits).d, RunOn(d, bits).rest + later, h, combined, pad)
  {
    Resumed(d, bits, later);
    StopsBeforePad(tab, start, h, combined, pad);
    if RunOn(d, bits).Stopped? {
      if h.bs == [] {
        EndStops(tab, start, combined, pad, h);
      } else {
        BlockStops(tab, start, combined, pad, h);
      }
    }
  }

  /** The padding is the last thing in the stream. */
  lemma {:induction false} PadLast(tab: Crc.Table, start: Saved, h: History, combined: bv32, pad: seq<bit>)
    requires Sized(start) && start.at == BlkHdr(1) && 0 <= start.level && Encoded(tab, start.level, h)
    ensures |pad| <= |RestBits(tab, h, combined, pad)|
    decreases |h.bs|
  {
    hide RunOn, BlocksBits, AllEncoded, Crc.AsWord, Crc.Combine, Sum, Sent;
    if h.bs == [] {
      EndStops(tab, start, combined, pad, h);
    } else {
      BlockStops(tab, start, combined, pad, h);
      var e := RunOn(start, RestBits(tab, h, combined, pad)).d;
      HandsOn(tab, e, RunOn(start, RestBits(tab, h, combined, pad)).rest, h, combined, pad);
      var t := History(h.runs[1..], h.ps[1..], h.bs[1..]);
      PadLast(tab, e.(at := BlkHdr(1)), t, Crc.Combine(combined, Sum(tab, h.runs[0])), pad);
    }
  }

  lemma HandsOn(tab: Crc.Table, e: Saved, bits: seq<bit>, h: History, combined: bv32, pad: seq<bit>)
    requires BlockDone(tab, e, bits, h, combined, pad)
    ensures h.bs != [] && |h.runs| == |h.ps| == |h.bs| && Sized(e) && 0 <= e.level
    ensures Encoded(tab, e.level, History(h.runs[1..], h.ps[1..], h.bs[1..]))
    ensures bits == RestBits(tab, History(h.runs[1..], h.ps[1..], h.bs[1..]), Crc.Combine(combined, Sum(tab, h.runs[0])), pad)
  {
    hide Encoded, RestBits, Sent, Sum;
  }

  ghost predicate LeavesPad(r: Run, pad: seq<bit>) { r.Stopped? && |pad| <= |r.rest| }

  /** Reading from the start of a block stops, and leaves at least the padding. */
  lemma StopsBeforePad(tab: Crc.Table, start: Saved, h: History, combined: bv32, pad: seq<bit>)
    requires Sized(start) && start.at == BlkHdr(1) && 0 <= start.level && Encoded(tab, start.level, h)
    ensures LeavesPad(RunOn(start, RestBits(tab, h, combined, pad)), pad)
  {
    hide RunOn, BlocksBits, AllEncoded, Crc.AsWord, Crc.Combine, Sum, Sent;
    if h.bs == [] {
      EndStops(tab, start, combined, pad, h);
    } else {
      BlockStops(tab, start, combined, pad, h);
      var e := RunOn(start, RestBits(tab, h, combined, pad)).d;
      HandsOn(tab, e, RunOn(start, RestBits(tab, h, combined, pad)).rest, h, combined, pad);
      PadLast(tab, e.(at := BlkHdr(1)), History(h.runs[1..], h.ps[1..], h.bs[1..]), Crc.Combine(combined, Sum(tab, h.runs[0])), pad);
    }
  }

  lemma ReadingActive(tab: Crc.Table, d: Saved, bits: seq<bit>, start: Saved, h: History, combined: bv32, pad: seq<bit>)
    requires Reading(tab, d, bits, start, h, combined, pad)
    ensures Active(d) && |h.runs| == |h.bs|
  {
  }

  /** The decoder holds the first block of h, complete, and the bits to come are those of the other blocks. */
  ghost predicate BlockDone(tab: Crc.Table, e: Saved, bits: seq<bit>, h: History, combined: bv32, pad: seq<bit>) {
    h.bs != [] && |h.runs| == |h.ps| == |h.bs| && RunLength.Storable(h.runs[0]) &&
    Sized(e) && e.at == Output && 0 <= e.level && e.randomised == 0 && 0 <= e.origPtr < |e.u.out| <= 100000 * e.level &&
    Sent(RunLength.Encode(h.runs[0]), e.u.out, e.origPtr) && RunLength.Countable(RunLength.Encode(h.runs[0])) &&
    RunLength.Decode(RunLength.Encode(h.runs[0])) == RunLength.Expand(h.runs[0]) &&
    Encoded(tab, e.level, History(h.runs[1..], h.ps[1..], h.bs[1..])) &&
    Handing(tab, e, bits, Sum(tab, h.runs[0]), History(h.runs[1..], h.ps[1..], h.bs[1..]), combined, pad)
  }

  lemma DoneAtOutput(tab: Crc.Table, e: Saved, bits: seq<bit>, h: History, combined: bv32, pad: seq<bit>)
    requires BlockDone(tab, e, bits, h, combined, pad)
    ensures e.at == Output
  {
  }

  lemma EndStops(tab: Crc.Table, start: Saved, combined: bv32, pad: seq<bit>, h: History)
    requires Sized(start) && start.at == BlkHdr(1) && 0 <= start.level && Encoded(tab, start.level, h) && h.bs == []
    ensures RunOn(start, RestBits(tab, h, combined, pad))
         == Stopped(StreamEnd, start.(storedCombinedCRC := Crc.AsWord(combined), at := Idle), pad)
  {
    hide RunOn, EndHdrBits, WordBits, Crc.AsWord, Crc.Combine;
    var total := Crc.AsWord(combined);
    EndHdrRead(start, 1, WordBits(total, pad));
    CCrcRead(start.(storedCombinedCRC := 0, at := CCrc(1)), total, pad);
  }

  ghost predicate StopsAtBlock(tab: Crc.Table, r: Run, h: History, combined: bv32, pad: seq<bit>) {
    r.Stopped? && r.code == BlockReady && BlockDone(tab, r.d, r.rest, h, combined, pad)
  }

  lemma BlockStops(tab: Crc.Table, start: Saved, combined: bv32, pad: seq<bit>, h: History)
    requires Sized(start) && start.at == BlkHdr(1) && 0 <= start.level && Encoded(tab, start.level, h) && h.bs != []
    ensures StopsAtBlock(tab, RunOn(start, RestBits(tab, h, combined, pad)), h, combined, pad)
  {
    hide RunOn, BlockBits, Encodes, Sum, Crc.AsWord, Crc.Combine, BlockOk, AllEncoded, Sent, RunLength.Decode,
      RunLength.Encode,
      RunLength.Expand, RunLength.Countable, RunLength.Storable, Sums;
    TailEncoded(tab, start.level, h);
    var t := History(h.runs[1..], h.ps[1..], h.bs[1..]);
    var rest := RestBits(tab, t, Crc.Combine(combined, Sum(tab, h.runs[0])), pad);
    var e := BlockComesBack(tab, start.level, h.runs[0], h.ps[0], h.bs[0], start, rest);
  }

  /** What BlockRead leaves behind, in terms of the block's runs. */
  lemma BlockComesBack(tab: Crc.Table, level: int, rs: seq<RunLength.Run>, p: seq<int>, b: Block, d: Saved, rest: seq<bit>)
      returns (e: Saved)
    requires Encodes(tab, level, rs, p, b) && Sized(d) && d.at == BlkHdr(1) && d.level == level && 1 <= level <= 9
    ensures BlockOk(b) && RunOn(d, BlockBits(b, rest)) == Stopped(BlockReady, e, rest)
    ensures Sized(e) && e.at == Output && e.level == level && e.randomised == 0
    ensures 0 <= e.origPtr < |e.u.out| <= 100000 * level
    ensures e.storedBlockCRC == Crc.AsWord(Sum(tab, rs)) && RunLength.Storable(rs)
    ensures Sent(RunLength.Encode(rs), e.u.out, e.origPtr) && RunLength.Countable(RunLength.Encode(rs))
    ensures RunLength.Decode(RunLength.Encode(rs)) == RunLength.Expand(rs)
  {
    hide RunOn, BlockBits, Crc.Fold, Crc.AsWord, Crc.Finalise;
    e := BlockBack(tab, level, rs, p, b, d, rest);
    RunLength.DecodeUndoesEncode(rs);
  }

  lemma StreamStart(tab: Crc.Table, d: Saved, level: nat, h: History, pad: seq<bit>)
    requires Fresh(d) && Encoded(tab, level, h)
    ensures Reading(tab, d, MagicBits(1, level, RestBits(tab, h, 0, pad)), d.(level := level, at := BlkHdr(1)), h, 0, pad)
    ensures d.at == Magic(1)
  {
    hide RunOn, RestBits, MagicBits;
    MagicRead(d, 1, level, RestBits(tab, h, 0, pad));
  }

  // ----- the decompressor

  datatype Ret = RetOk | RetStreamEnd | RetDataError | RetMagicError | RetSequenceError

  function RetOf(r: Result): Ret {
    match r
    case NeedInput => RetOk
    case Done(DataErrorMagic) => RetMagicError
    case Done(DataError) => RetDataError
    case Done(BlockReady) => RetOk
    case Done(StreamEnd) => RetStreamEnd
  }

  class Decoder {
    const tab: Crc.Table
    const small: bool
    const s: Reader
    var availOut: nat
    var nextOut: seq<byte>
    var out: DState?
    var calculatedCombinedCRC: bv32
    // the rest of the stream beyond the input, where the current block began, the blocks to come, the last padding,
    // and what the whole stream stands for
    ghost var ahead: seq<bit>
    ghost var start: Saved
    ghost var coming: History
    ghost var pad: seq<bit>
    ghost const plain: seq<byte>

    // ----- the stream as a whole

    ghost function Parts(): set<object>
      reads this`out
    {
      if out == null then {} else {out, out.tt, out.cftab, out.vector, out.vector.ll16, out.vector.ll4}
    }

    /** The bits to come, with or without more input. */
    ghost function AllBits(): seq<bit>
      reads s.input, this`ahead
    {
      s.input.Bits() + ahead
    }

    ghost predicate AtBlockStart()
      reads s.Own(), s.mtf, this`ahead, this`start, this`coming, this`pad, this`calculatedCombinedCRC, this`nextOut
    {
      s.Ready() && Reading(tab, s.model, AllBits(), start, coming, calculatedCombinedCRC, pad) &&
      plain == nextOut + Input(coming.runs)
    }

    ghost predicate AtOutput()
      reads s.Own(), this`ahead, this`coming, this`pad, this`calculatedCombinedCRC, this`nextOut, this`out, Parts()
    {
      s.input.BufferOk() && s.Common(s.model) && s.model.at == Output && out != null && out.Valid() && out.tab == tab &&
      out.small == small &&
      Handing(tab, s.model, AllBits(), Crc.Finalise(Crc.Fold(tab, out.calculatedBlockCRC, out.Pending())), coming,
              calculatedCombinedCRC, pad) &&
      plain == nextOut + out.Pending() + Input(coming.runs)
    }

    ghost predicate AtEnd()
      reads s.Own(), this`nextOut
    {
      s.input.BufferOk() && s.Head(s.model) && s.model.at == Idle && nextOut == plain
    }

    /** Together, what has been handed out and what is still to come stand for the whole plain text. */
    ghost predicate Valid()
      reads this, s.Own(), s.mtf, Parts()
    {
      AtBlockStart() || AtOutput() || AtEnd()
    }

    /** Before a stream whose blocks are those of h. */
    constructor (tab: Crc.Table, small: bool, ghost level: nat, ghost h: History, ghost pad: seq<bit>)
      requires Encoded(tab, level, h)
      ensures Valid() && out == null && nextOut == [] && plain == Input(h.runs) && s.state != Idle && this.pad == pad
      ensures s.input.nextIn == [] && ahead == MagicBits(1, level, RestBits(tab, h, 0, pad))
      ensures this.small == small && this.tab == tab && fresh(s) && fresh(s.Own())
    {
      hide Reading, MagicBits, RestBits, Input, AllEncoded, RunOn;
      this.tab, this.small := tab, small;
      availOut, nextOut, out := 0, [], null;
      calculatedCombinedCRC := 0;
      var reader := new Reader();
      s := reader;
      start, coming, this.pad := reader.model.(level := level, at := BlkHdr(1)), h, pad;
      ahead := MagicBits(1, level, RestBits(tab, h, 0, pad));
      plain := Input(h.runs);
      new;
      StreamStart(tab, s.model, level, h, pad);
      Nothing(ahead);
      Nothing(plain);
    }

    lemma OutReady()
      requires AtOutput()
      ensures out != null && out.Valid() && out.small == small && out.tab == tab
    {
      hide Handing, DState.Valid, Reader.Common;
    }

    /** Handing out the next bytes of the block keeps what is said of the rest. */
    twostate lemma StillHandingOut(t: seq<byte>)
      requires out == old(out) && out != null && old(out.Valid()) && out.Valid() && t + out.Pending() == old(out.Pending())
      requires out.calculatedBlockCRC == Crc.Fold(tab, old(out.calculatedBlockCRC), t) && nextOut == old(nextOut) + t
      requires unchanged(this`ahead, this`coming, this`pad, this`calculatedCombinedCRC) && unchanged(s)
      requires s.Own() == old(s.Own()) && unchanged(s.Own()) && old(AtOutput())
      ensures AtOutput()
    {
      hide Handing, Crc.Fold, Crc.Finalise, Input, Reader.Common, DState.Valid, DState.Pending, BitReader.BufferOk,
        BitReader.Bits;
      Crc.FoldAppend(tab, old(out.calculatedBlockCRC), t, out.Pending());
      Assoc(old(nextOut), t, out.Pending());
    }

    /** Hand out what there is room for; true when the block is all out. */
    method HandOut() returns (blockOut: bool)
      requires AtOutput()
      modifies this`availOut, this`nextOut
      modifies out`tPos, out`k0, out`nblockUsed, out`stateOutCh, out`stateOutLen, out`calculatedBlockCRC
      ensures AtOutput() && old(nextOut) <= nextOut
      ensures |nextOut| + availOut == |old(nextOut)| + old(availOut)
      ensures blockOut <==> out.Pending() == []
      ensures !blockOut ==> availOut == 0
    {
      hide Handing, Crc.Fold, Crc.Finalise, Input, Reader.Common, DState.Valid, BitReader.BufferOk, BitReader.Bits,
        Decoder.AtOutput;
      OutReady();
      var o := out;
      var corrupt, t;
      if small {
        corrupt, t := o.UnRleSmall(availOut);
      } else {
        corrupt, t := o.UnRleFast(availOut);
      }
      nextOut := nextOut + t;
      availOut := availOut - |t|;
      StillHandingOut(t);
      o.AllHandedOut();
      blockOut := o.nblockUsed == o.nblock + 1 && o.stateOutLen == 0;
    }

    lemma NextBlock(d: Saved, crc: bv32)
      requires Handing(tab, d, AllBits(), crc, coming, calculatedCombinedCRC, pad) && Sized(d)
      ensures Reading(tab, d.(at := BlkHdr(1)), AllBits(), d.(at := BlkHdr(1)), coming, Crc.Combine(calculatedCombinedCRC, crc), pad)
    {
      hide RunOn, RestBits, Crc.AsWord, Crc.Combine, Encoded;
    }

    /** The block is out: compare the checksums and go on to the next block. */
    method CloseBlock() returns (good: bool)
      requires AtOutput() && out.Pending() == []
      modifies s`state, s`model, this`start, this`calculatedCombinedCRC
      ensures good && AtBlockStart()
    {
      hide Reading, RestBits, Crc.Fold, Crc.Finalise, Crc.AsWord, Crc.Combine, Input, DState.Valid,
        BitReader.BufferOk, BitReader.Bits, DState.Pending;
      Crc.FoldNothing(tab, out.calculatedBlockCRC);
      var crc := Crc.Finalise(out.calculatedBlockCRC);
      if Crc.AsWord(crc) != s.storedBlockCRC { return false; }
      NextBlock(s.model, crc);
      calculatedCombinedCRC := Crc.Combine(calculatedCombinedCRC, crc);
      s.state := BlkHdr(1);
      s.model := s.model.(at := BlkHdr(1));
      start := s.model;
      Nothing(nextOut);
      good := true;
    }

    /** Where reading has ended. */
    ghost predicate ReadTo(r: Result)
      reads this, s.Own(), s.mtf
    {
      match r
      case NeedInput => AtBlockStart() && s.input.nextIn == [] && |pad| < |ahead|
      case Done(code) =>
        s.input.BufferOk() && s.Ended(code, s.model, s.save) &&
        if coming.bs == [] then
          coming.runs == [] && code == StreamEnd && s.model.at == Idle && s.model.storedCombinedCRC == Crc.AsWord(calculatedCombinedCRC)
        else
          code == BlockReady && s.model.at == Output && BlockDone(tab, s.model, AllBits(), coming, calculatedCombinedCRC, pad)
    }

    /** Decode up to the end of a block, or as far as the input goes. */
    method ReadOn() returns (r: Result)
      requires AtBlockStart()
      modifies s.Own()
      ensures ReadTo(r) && (s.tt == old(s.tt) || fresh(s.tt)) && plain == nextOut + Input(coming.runs)
      ensures |s.input.Bits()| <= |old(s.input.Bits())|
      ensures r.Done? ==> |s.input.Bits()| < |old(s.input.Bits())|
    {
      hide Reading, RunOn, BlockDone, Crc.AsWord;
      ReadingActive(tab, s.model, AllBits(), start, coming, calculatedCombinedCRC, pad);
      ReadingStops(tab, s.model, s.input.Bits(), ahead, start, coming, calculatedCombinedCRC, pad);
      ghost var run := RunOn(s.model, s.input.Bits());
      if run.Stopped? && coming.bs != [] {
        DoneAtOutput(tab, run.d, run.rest + ahead, coming, calculatedCombinedCRC, pad);
      }
      var garbage: Locals := *;
      r := s.Decompress(garbage);
      if r == NeedInput { ReadingActive(tab, s.model, AllBits(), start, coming, calculatedCombinedCRC, pad); }
    }

    /** A block has been read: its output is set up, and the blocks still to come are the others. */
    lemma OutputBegins(h: History)
      requires s.input.BufferOk() && s.Ended(BlockReady, s.model, s.save) && s.model.at == Output
      requires BlockDone(tab, s.model, AllBits(), h, calculatedCombinedCRC, pad) && plain == nextOut + Input(h.runs)
      requires coming == History(h.runs[1..], h.ps[1..], h.bs[1..])
      requires out != null && out.Valid() && out.tab == tab && out.small == small
      requires out.calculatedBlockCRC == Crc.CRC_INITIAL
      requires out.Pending() == RunLength.Decode(RunLength.Encode(h.runs[0]))
      ensures AtOutput()
    {
      hide Sent, RunLength.Encode, RunLength.Decode, RunLength.Expand, RunLength.Countable, Crc.Fold, Crc.Finalise, Handing,
        AllEncoded, BlocksBits, CountedBytes, DState.Valid, DState.Pending, BitReader.Bits, BitReader.BufferOk, Sum, Sums, Crc.AsWord, Input,
        Decoder.AllBits;
      FirstInput(h.runs);
      Assoc(nextOut, RunLength.Expand(h.runs[0]), Input(h.runs[1..]));
      SumOf(tab, h.runs[0]);
    }

    /** Set up the output of the block that has just been read. */
    method BeginBlock()
      requires ReadTo(Done(BlockReady)) && coming.bs != [] && plain == nextOut + Input(coming.runs)
      modifies this`out, this`coming
      ensures AtOutput() && fresh(Parts()) && out != null
    {
      hide Sent, RunLength.Encode, RunLength.Decode, RunLength.Expand, RunLength.Countable, Crc.Fold, Crc.Finalise, Handing,
        AllEncoded, BlocksBits, CountedBytes, DState.Valid, DState.Pending, BitReader.Bits, BitReader.BufferOk, Sum, Sums, Crc.AsWord, Input,
        Decoder.AtOutput;
      ghost var h := coming;
      out := OpenBlock(s.tt, s.save.nblock, s.unzftab, s.origPtr, s.blockSize100k, small, tab, s.model.u.out,
                       RunLength.Encode(h.runs[0]));
      coming := History(h.runs[1..], h.ps[1..], h.bs[1..]);
      OutputBegins(h);
    }

    /** Hand out what is left of a block, and go on to the next one if that was all. */
    method Drain() returns (stop: bool)
      requires AtOutput()
      modifies s`state, s`model, this`availOut, this`nextOut, this`calculatedCombinedCRC, this`start, out
      ensures stop ==> AtOutput() && availOut == 0
      ensures !stop ==> AtBlockStart()
      ensures old(nextOut) <= nextOut && |nextOut| + availOut == |old(nextOut)| + old(availOut)
    {
      hide Reading, Handing, Crc.Fold, Crc.Finalise, Crc.AsWord, Crc.Combine, Input, DState.Valid, DState.Pending,
        BitReader.BufferOk, BitReader.Bits, Decoder.AtBlockStart, Reader.Common;
      var blockOut := HandOut();
      if !blockOut { return true; }
      var good := CloseBlock();
      stop := !good;
    }

    /** Read up to the end of a block or of the stream. */
    method ReadBlock() returns (stop: bool, ret: Ret)
      requires AtBlockStart()
      modifies s.Own(), this`out, this`coming
      ensures Valid() && (stop ==> Halted(ret) && (ret == RetOk ==> s.state != Idle))
      ensures !stop ==> s.state == Output && |s.input.Bits()| < |old(s.input.Bits())|
      ensures |s.input.Bits()| <= |old(s.input.Bits())| && (out == old(out) || fresh(Parts()))
      ensures s.tt == old(s.tt) || fresh(s.tt)
    {
      hide Reading, Handing, BlockDone, Crc.Fold, Crc.Finalise, Crc.AsWord, Active, Sized, Input, DState.Valid,
        DState.Pending, Decoder.AtOutput, BitReader.BufferOk;
      stop, ret := true, RetOk;
      var r := ReadOn();
      if r == NeedInput { NotIdle(); }
      if r == Done(StreamEnd) {
        InputEnds();
        if Crc.AsWord(calculatedCombinedCRC) != s.storedCombinedCRC { return true, RetDataError; }
        return true, RetStreamEnd;
      }
      if s.state != Output { return true, RetOf(r); }
      BeginBlock();
      stop := false;
    }

    lemma NotIdle()
      requires AtBlockStart()
      ensures s.state != Idle && s.state != Output
    {
      hide Reading;
    }

    lemma InputEnds()
      ensures Input([]) == [] && nextOut + Input([]) == nextOut
    {
    }

    /** One turn of BZ2_bzDecompress; no more when ret is set. */
    method Turn() returns (stop: bool, ret: Ret)
      requires Valid() && s.state != Idle
      modifies s.Own(), this`availOut, this`nextOut, this`out, this`calculatedCombinedCRC, this`start, this`coming
      modifies if out != null then {out} else {}
      ensures Valid() && old(nextOut) <= nextOut && |nextOut| + availOut == |old(nextOut)| + old(availOut)
      ensures stop ==> Halted(ret) && (ret == RetOk ==> s.state != Idle)
      ensures !stop ==> s.state == Output && |s.input.Bits()| < |old(s.input.Bits())|
      ensures |s.input.Bits()| <= |old(s.input.Bits())| && (out == old(out) || fresh(Parts()))
      ensures s.tt == old(s.tt) || fresh(s.tt)
    {
      hide AtBlockStart, AtOutput, AtEnd;
      WhichState();
      if s.state == Output {
        stop := Drain();
        if stop {
          OutputState();
          return true, RetOk;
        }
      }
      stop, ret := ReadBlock();
    }

    lemma OutputState()
      requires AtOutput()
      ensures s.state == Output
    {
      hide Handing;
    }

    lemma WhichState()
      requires Valid() && s.state != Idle
      ensures s.state == Output ==> AtOutput()
      ensures s.state != Output ==> AtBlockStart()
    {
      hide Reading, Handing;
    }

    /** Why a call comes to an end: no room, no input though the stream goes on, or the end of the stream. */
    ghost predicate Halted(ret: Ret)
      reads this`availOut, this`ahead, this`pad, s`state, s.input`nextIn
    {
      (ret == RetOk && (availOut == 0 || (s.input.nextIn == [] && |ahead| > |pad|))) || (ret == RetStreamEnd && s.state == Idle)
    }

    /** The caller gives the next part of the stream, in portions of any size, and room for output. The call goes on until
        the room is used up, the input is used up before the stream is complete, or everything has been handed out. */
    method BzDecompress(more: seq<byte>, room: nat, ghost later: seq<bit>) returns (ret: Ret)
      requires Valid() && ahead == BytesToBits(more) + later
      modifies this, s.Own(), Parts()
      ensures Valid() && ahead == later
      ensures old(nextOut) <= nextOut && |nextOut| + availOut == |old(nextOut)| + room
      ensures old(s.state) == Idle <==> ret == RetSequenceError
      ensures old(s.state) != Idle ==> ret == RetOk || ret == RetStreamEnd
      ensures ret == RetOk ==> s.state != Idle && (availOut == 0 || (s.input.nextIn == [] && |later| > |pad|))
      ensures ret == RetStreamEnd ==> nextOut == plain && s.state == Idle
      ensures (out == old(out) || fresh(Parts())) && (s.tt == old(s.tt) || fresh(s.tt)) && pad == old(pad)
    {
      hide AtBlockStart, AtOutput, AtEnd, Decoder.Valid, DState.Valid;
      SwapInput(more, room, later);
      if s.state == Idle { return RetSequenceError; }
      var stop := false;
      ret := RetOk;
      while !stop
        invariant Valid() && (stop || s.state != Idle) && ahead == later && pad == old(pad)
        invariant old(nextOut) <= nextOut && |nextOut| + availOut == |old(nextOut)| + room
        invariant stop ==> Halted(ret) && (ret == RetOk ==> s.state != Idle)
        invariant (out == old(out) || fresh(Parts())) && (s.tt == old(s.tt) || fresh(s.tt))
        decreases !stop, |s.input.Bits()|
      {
        stop, ret := Turn();
      }
      IdleIsDone();
    }

    /** Never more than the plain text is handed out. */
    lemma OutWithin()
      requires Valid()
      ensures |nextOut| <= |plain|
    {
      hide Reading, Handing;
    }

    lemma IdleIsDone()
      requires Valid()
      ensures s.state == Idle ==> nextOut == plain
    {
      hide Reading, Handing;
    }

    // New input and room change none of what the three kinds of state say.

    twostate lemma StillAtStart()
      requires old(AtBlockStart()) && AllBits() == old(AllBits()) && s.input.BufferOk() && SameButInput()
      ensures AtBlockStart()
    {
      hide Reading, Input, Active, Reader.Fits, BitReader.BufferOk, BitReader.Bits, Decoder.AllBits;
    }

    twostate lemma StillAtOutput()
      requires old(AtOutput()) && AllBits() == old(AllBits()) && s.input.BufferOk() && SameButInput()
      ensures AtOutput()
    {
      hide Handing, Crc.Fold, Crc.Finalise, Input, Reader.Common, DState.Valid, DState.Pending, BitReader.BufferOk,
        BitReader.Bits,
        Decoder.AllBits;
    }

    twostate lemma StillAtEnd()
      requires old(AtEnd()) && s.input.BufferOk() && SameButInput()
      ensures AtEnd()
    {
      hide Reader.Head, BitReader.BufferOk;
    }

    twostate predicate SameButInput()
      reads this, s.Own(), s.mtf, Parts()
    {
      unchanged(this`start, this`coming, this`pad, this`calculatedCombinedCRC, this`nextOut, this`out) &&
      unchanged(s) && s.tt == old(s.tt) && s.Own() == old(s.Own()) && unchanged(s.Own() - {s.input}) && unchanged(s.mtf) &&
      (out != null ==> Parts() == old(Parts()) && unchanged(Parts()))
    }

    /** strm->next_in, avail_in and avail_out as the caller sets them. */
    method SwapInput(more: seq<byte>, room: nat, ghost later: seq<bit>)
      requires Valid() && ahead == BytesToBits(more) + later
      modifies s.input`nextIn, this`availOut, this`ahead
      ensures Valid() && availOut == room && ahead == later
    {
      hide Decoder.AtBlockStart, Decoder.AtOutput, Decoder.AtEnd, BitReader.BufferOk, BitReader.Bits;
      InputOk();
      Assoc(s.input.Bits(), BytesToBits(more), later);
      s.input.Supply(more);
      availOut, ahead := room, later;
      if old(AtBlockStart()) {
        StillAtStart();
      } else if old(AtOutput()) {
        StillAtOutput();
      } else {
        StillAtEnd();
      }
    }

    lemma InputOk()
      requires Valid()
      ensures s.input.BufferOk()
    {
      hide Reading, Handing, BitReader.BufferOk;
    }

    lemma FirstInput(runs: seq<seq<RunLength.Run>>)
      requires runs != []
      ensures Input(runs) == RunLength.Expand(runs[0]) + Input(runs[1..])
    {
    }

    lemma SumOf(tab: Crc.Table, rs: seq<RunLength.Run>)
      ensures Sum(tab, rs) == Crc.Finalise(Crc.Fold(tab, Crc.CRC_INITIAL, RunLength.Expand(rs)))
    {
    }
  }
}
