// The compressor's state machine: the caller hands over input and room for output in any portions and asks to run,
// flush or finish.
module Encoder {
  import opened Permutations
  import opened BitIO
  import opened Coroutine
  import opened BlockFormat
  import opened BlockLayout
  import opened Stream
  import opened Gatherer
  import opened Compressor
  import SendMtf
  import RunLength
  import Crc

  datatype Phase = InputPhase | OutputPhase
  datatype Mode = Ended | Running | Flushing | Finishing
  datatype Action = DoRun | DoFlush | DoFinish
  datatype Ret = RunOk | FlushOk | FinishOk | StreamEnded | SequenceError | ParamError

  lemma HeaderIs(level: nat)
    ensures MagicBits(1, level, []) == [] + ToBits(0x42, 8) + ToBits(0x5a, 8) + ToBits(0x68, 8) + ToBits(0x30 + level, 8)
  {
    hide ToBits;
    var m4 := ToBits(0x30 + level, 8) + [];
    assert MagicBits(4, level, []) == m4 && MagicBits(3, level, []) == ToBits(0x68, 8) + m4;
    assert MagicBits(2, level, []) == ToBits(0x5a, 8) + (ToBits(0x68, 8) + m4);
  }

  method PutHeader(w: BitWriter, level: nat)
    requires SendMtf.Room(w, 32) && 1 <= level <= 9
    modifies w, w.zbits
    ensures SendMtf.Wrote(w, MagicBits(1, level, []))
  {
    hide ToBits, MagicBits, SendMtf.Grown, BitWriter.Emitted, BitWriter.Valid;
    HeaderIs(level);
    ghost var e := w.Emitted();
    SendMtf.GrownStart(e);
    SendMtf.PutNext(w, 0x42, e, []);
    ghost var h1 := [] + ToBits(0x42, 8);
    SendMtf.PutNext(w, 0x5a, e, h1);
    ghost var h2 := h1 + ToBits(0x5a, 8);
    SendMtf.PutNext(w, 0x68, e, h2);
    ghost var h3 := h2 + ToBits(0x68, 8);
    SendMtf.PutNext(w, 0x30 + level, e, h3);
    SendMtf.GrownEnd(w.Emitted(), e, h3 + ToBits(0x30 + level, 8));
  }

  lemma TrailerIs()
    ensures EndHdrBits(1, [])
         == [] + ToBits(0x17, 8) + ToBits(0x72, 8) + ToBits(0x45, 8) + ToBits(0x38, 8) + ToBits(0x50, 8) + ToBits(0x90, 8)
  {
    hide ToBits;
    var h6 := ToBits(0x90, 8) + [];
    assert EndHdrBits(7, []) == [] && EndHdrBits(6, []) == h6;
    assert EndHdrBits(5, []) == ToBits(0x50, 8) + h6;
    assert EndHdrBits(4, []) == ToBits(0x38, 8) + (ToBits(0x50, 8) + h6);
    assert EndHdrBits(3, []) == ToBits(0x45, 8) + (ToBits(0x38, 8) + (ToBits(0x50, 8) + h6));
    assert EndHdrBits(2, []) == ToBits(0x72, 8) + (ToBits(0x45, 8) + (ToBits(0x38, 8) + (ToBits(0x50, 8) + h6)));
  }

  lemma {:induction false} EndHdrTail(k: int, rest: seq<bit>)
    requires 1 <= k <= 7
    ensures EndHdrBits(k, rest) == EndHdrBits(k, []) + rest
    decreases 7 - k
  {
    hide ToBits;
    if k == 7 {
      Nothing(rest);
    } else {
      EndHdrTail(k + 1, rest);
      Assoc(ToBits(EndByte(k), 8), EndHdrBits(k + 1, []), rest);
    }
  }

  method PutTrailer(w: BitWriter, combined: nat)
    requires SendMtf.Room(w, 80)
    modifies w, w.zbits
    ensures SendMtf.Wrote(w, EndHdrBits(1, WordBits(combined, [])))
  {
    hide ToBits, EndHdrBits, WordBits, SendMtf.Grown;
    TrailerIs();
    WordTail(combined, []);
    EndHdrTail(1, WordBits(combined, []));
    ghost var e := w.Emitted();
    SendMtf.GrownStart(e);
    SendMtf.PutNext(w, 0x17, e, []);
    ghost var h1 := [] + ToBits(0x17, 8);
    SendMtf.PutNext(w, 0x72, e, h1);
    ghost var h2 := h1 + ToBits(0x72, 8);
    SendMtf.PutNext(w, 0x45, e, h2);
    ghost var h3 := h2 + ToBits(0x45, 8);
    SendMtf.PutNext(w, 0x38, e, h3);
    ghost var h4 := h3 + ToBits(0x38, 8);
    SendMtf.PutNext(w, 0x50, e, h4);
    ghost var h5 := h4 + ToBits(0x50, 8);
    SendMtf.PutNext(w, 0x90, e, h5);
    SendMtf.GrownStep(w.Emitted(), e, h5 + ToBits(0x90, 8), WordBits(combined, []));
    SendMtf.PutUInt32(w, combined);
    SendMtf.GrownEnd(w.Emitted(), e, h5 + ToBits(0x90, 8) + WordBits(combined, []));
  }

  /** The padding at the very end belongs to the trailer. */
  lemma TrailerPadded(combined: nat, k: nat)
    ensures EndHdrBits(1, WordBits(combined, [])) + Zeros(k) == EndHdrBits(1, WordBits(combined, Zeros(k)))
  {
    hide EndHdrBits, WordBits;
    EndHdrTail(1, WordBits(combined, []));
    EndHdrTail(1, WordBits(combined, Zeros(k)));
    WordTail(combined, Zeros(k));
    Assoc(EndHdrBits(1, []), WordBits(combined, []), Zeros(k));
  }

  lemma TrailerLong(combined: nat)
    ensures |EndHdrBits(1, WordBits(combined, []))| >= 8
  {
    hide ToBits, WordBits;
  }

  lemma EncodeEmpty(rs: seq<RunLength.Run>)
    requires RunLength.Storable(rs)
    ensures RunLength.Encode(rs) == [] ==> rs == []
  {
    if rs != [] { RunLength.EncodeFirst(rs); }
  }

  /** From whatever state a decoder starts, it turns out into plain. */
  ghost predicate DecodesTo(tab: Crc.Table, out: seq<byte>, plain: seq<byte>) {
    forall d {:trigger Fresh(d)} | Fresh(d) :: Unzip(tab, d, 0, BytesToBits(out)) == Whole(plain)
  }

  class EState {
    const tab: Crc.Table
    const level: nat
    const workFactor: nat
    const g: RunBuffer
    const w: BitWriter
    const unseqToSeq: array<int>
    const mtfFreq: array<int>
    var state: Phase
    var mode: Mode
    var availInExpect: nat
    var blockNo: nat
    var combinedCRC: bv32
    var stateOutPos: nat
    // the stream: input still to come, room for output, and all output so far
    var nextIn: seq<byte>
    var availOut: nat
    var nextOut: seq<byte>
    // all input taken in, the output of earlier blocks, and the blocks themselves
    ghost var taken: seq<byte>
    ghost var earlier: seq<byte>
    ghost var history: History
    ghost var closed: bool

    const nblockMAX := 100000 * level - 19

    ghost predicate Shape()
      reads w`zbits
    {
      1 <= level <= 9 && g.tab == tab && g.block.Length == 100000 * level && unseqToSeq.Length == 256 &&
      mtfFreq.Length == 258 && unseqToSeq != mtfFreq && w.zbits != g.block
    }

    /** All bits of the stream so far. */
    ghost function Sofar(): seq<bit>
      requires w.Valid()
      reads this`earlier, w, w.zbits
    {
      BytesToBits(earlier) + w.Emitted()
    }

    /** The input that is in no finished block yet. */
    ghost function Unfinished(): seq<byte>
      requires PendingOk(g.stateInCh, g.stateInLen)
      reads this`state, g
    {
      if state == OutputPhase then g.Pending() else g.Content()
    }

    ghost predicate Headed()
      reads this`state, this`blockNo
    {
      state == OutputPhase || blockNo != 1
    }

    ghost predicate Writing()
      reads this`earlier, this`closed, this`stateOutPos, this`nextOut, this`history, this`combinedCRC, this`state,
        this`blockNo
      reads w, w.zbits
    {
      w.Valid() && (if closed then w.bsLive <= 0 else w.bsLive >= 0) && stateOutPos <= w.numZ &&
      nextOut == earlier + w.zbits[..stateOutPos] &&
      Stage(Sofar(), tab, level, history, combinedCRC, Headed(), closed)
    }

    ghost predicate Gathering()
      reads this`taken, this`history, this`state, g, g.block, g.inUse
    {
      g.Valid() && taken == Input(history.runs) + Unfinished()
    }

    /** No byte of input is lost or doubled, and what has been written is a well-formed beginning of a stream. */
    ghost predicate Inv()
      reads this`earlier, this`closed, this`stateOutPos, this`nextOut, this`history, this`combinedCRC, this`state,
        this`blockNo, this`taken
      reads g, g.block, g.inUse, w, w.zbits
    {
      Shape() && Writing() && Gathering() && blockNo >= 1 &&
      (state == InputPhase ==> w.numZ == 0 && stateOutPos == 0 && !closed) &&
      (closed ==> state == OutputPhase && g.stateInCh == 256)
    }

    /** Outside a flush, a block that is being handed out has left a run behind for the next one, unless it is the
        last one of a finish. */
    ghost predicate CarriedOver()
      reads this`state, this`closed, this`mode, this`availInExpect, g
    {
      (state == OutputPhase && !closed && mode != Flushing ==> g.stateInCh < 256) &&
      (closed ==> mode == Ended || (mode == Finishing && availInExpect == 0))
    }

    /** Nothing has been flushed into the block that is being gathered. */
    ghost predicate Open()
      reads g
    {
      g.stateInCh == 256 ==> g.cur == []
    }

    ghost predicate Valid()
      reads this`earlier, this`closed, this`stateOutPos, this`nextOut, this`history, this`combinedCRC, this`state,
        this`blockNo, this`taken, this`mode, this`availInExpect
      reads g, g.block, g.inUse, w, w.zbits
    {
      Inv() && CarriedOver() && (state == InputPhase ==> Open() && g.nblock < nblockMAX)
    }

    constructor (tab: Crc.Table, blockSize100k: nat, workFactor: nat)
      requires 1 <= blockSize100k <= 9 && workFactor <= 250
      ensures Valid() && this.tab == tab && level == blockSize100k && mode == Running && taken == [] && nextOut == []
      ensures fresh(g) && fresh(g.block) && fresh(g.inUse) && fresh(w) && fresh(w.zbits) && fresh(unseqToSeq)
      ensures fresh(mtfFreq)
    {
      hide Crc.Fold, RunLength.Encode, RunLength.Expand, Gathered, BitWriter.Valid, RunBuffer.Valid,
        RunBuffer.Pending, Stage, Input,
        BytesToBits, BitWriter.Emitted, RunLength.Cut;
      this.tab := tab;
      level := blockSize100k;
      this.workFactor := if workFactor == 0 then 30 else workFactor;
      var buffer := new RunBuffer(tab, 100000 * blockSize100k);
      g := buffer;
      var room := new byte[0];
      w := new BitWriter(room);
      unseqToSeq := new int[256];
      mtfFreq := new int[258];
      state, mode, availInExpect, blockNo, combinedCRC, stateOutPos := InputPhase, Running, 0, 1, 0, 0;
      nextIn, availOut, nextOut := [], 0, [];
      taken, earlier, history, closed := [], [], History([], [], []), false;
      new;
      assert w.zbits[..0] == [];
      NothingYet(tab, level);
    }

    /** Before the first byte. */
    static lemma NothingYet(tab: Crc.Table, level: nat)
      requires 1 <= level <= 9
      ensures Stage([], tab, level, History([], [], []), 0, false, false)
      ensures Input([]) == [] && RunLength.Expand([]) == [] && BytesToBits([]) == []
    {
      assert Sums(tab, []) == [];
    }

    /** While a block is being written. */
    ghost predicate Midway(headed: bool, used: nat)
      reads this, g, w, w.zbits
    {
      Shape() && w.Valid() && w.bsLive >= 0 && stateOutPos == 0 && nextOut == earlier && !closed &&
      Stage(Sofar(), tab, level, history, combinedCRC, headed, false) &&
      |w.Emitted()| <= used && w.zbits.Length == 4 * (100000 * level + 34) - g.nblock
    }

    method StartStream()
      requires Midway(false, 32) && g.nblock <= nblockMAX + 9
      modifies w, w.zbits
      ensures Midway(true, 64) && w.zbits == old(w.zbits)
    {
      hide MagicBits, Told;
      RoomEnough(g.nblock, level);
      MagicTail(1, level, []);
      PutHeader(w, level);
      Nothing(MagicBits(1, level, []));
    }

    lemma EmptyBlock()
      requires g.Valid() && g.nblock == 0
      ensures g.cur == [] && g.Content() == g.Pending()
    {
      EncodeEmpty(g.cur);
      Nothing(g.Pending());
    }

    method CopyBlock() returns (copy: array<byte>)
      requires g.nblock <= g.block.Length
      ensures fresh(copy) && copy.Length == g.nblock && copy[..] == g.block[..g.nblock]
    {
      copy := new byte[g.nblock](_ => 0);
      var i := 0;
      while i < g.nblock
        invariant 0 <= i <= g.nblock && copy[..i] == g.block[..i]
      {
        copy[i] := g.block[i];
        i := i + 1;
      }
    }

    /** The block's runs join the history. */
    method AppendBlock()
      requires Midway(true, 64) && 0 < g.nblock <= nblockMAX + 9
      requires g.Valid() && taken == Input(history.runs) + g.Content()
      modifies w, w.zbits, unseqToSeq, mtfFreq, this`combinedCRC, this`history
      ensures Midway(true, 64 + BlockRoom(g.nblock)) && w.zbits == old(w.zbits)
      ensures taken == Input(history.runs) + g.Pending()
    {
      hide Stage, Gathered, BlockBits, Encodes, Crc.Combine, Crc.Finalise, Sum, Input, BlockRoom, BitWriter.Emitted, RunLength.Expand;
      RoomEnough(g.nblock, level);
      var copy := CopyBlock();
      ghost var rs, sofar := g.cur, Sofar();
      ghost var p, b := EncodeBlock(w, tab, level, copy, g.inUse, unseqToSeq, mtfFreq, g.blockCRC, workFactor, rs);
      EncodedOk(tab, level, rs, p, b);
      StageBlock(sofar, tab, level, history, combinedCRC, rs, p, b);
      Assoc(BytesToBits(earlier), old(w.Emitted()), BlockBits(b, []));
      Assoc(Input(history.runs), RunLength.Expand(rs), g.Pending());
      SumIs(tab, g.block[..g.nblock], g.inUse[..], g.blockCRC, rs);
      combinedCRC := Crc.Combine(combinedCRC, Crc.Finalise(g.blockCRC));
      history := History(history.runs + [rs], history.ps + [p], history.bs + [b]);
    }

    lemma SumIs(tab: Crc.Table, block: seq<byte>, inUse: seq<bool>, crc: bv32, rs: seq<RunLength.Run>)
      requires Gathered(tab, block, inUse, crc, rs)
      ensures Crc.Finalise(crc) == Sum(tab, rs)
    {
      hide Crc.Fold, Crc.Finalise;
    }

    method CloseStream()
      requires Midway(true, 64 + BlockRoom(g.nblock)) && g.nblock <= nblockMAX + 9
      modifies w, w.zbits, this`closed
      ensures Shape() && w.Valid() && stateOutPos == 0 && nextOut == earlier && w.zbits == old(w.zbits)
      ensures closed && w.numZ > 0 && w.bsLive <= 0 && Stage(Sofar(), tab, level, history, combinedCRC, true, true)
    {
      hide AllEncoded, Combined, Sums, SentBits, Crc.AsWord, EndHdrBits, WordBits;
      RoomEnough(g.nblock, level);
      ghost var e, c := w.Emitted(), Crc.AsWord(combinedCRC);
      ghost var tail := EndHdrBits(1, WordBits(c, []));
      PutTrailer(w, Crc.AsWord(combinedCRC));
      w.FinishWrite();
      closed := true;
      ghost var k := 8 * w.numZ - |e + tail|;
      TrailerPadded(c, k);
      TrailerLong(c);
      assert w.Emitted() == BytesToBits(w.zbits[..w.numZ]);
      PairUp(BytesToBits(earlier), e, tail, Zeros(k));
      assert Closing(Sofar(), level, history.bs, c, k);
    }

    /** The output goes behind the block; the stream header comes first. */
    method BeginOutput()
      requires Inv() && state == InputPhase && g.nblock <= nblockMAX + 9
      modifies w
      ensures Midway(true, 64) && fresh(w.zbits) && g.Valid() && taken == Input(history.runs) + g.Content()
    {
      hide Stage, Gathered, Input, BlockRoom;
      var room := new byte[4 * (100000 * level + 34) - g.nblock];
      RoomEnough(g.nblock, level);
      w.MoveTo(room);
      if blockNo == 1 { StartStream(); }
    }

    /** The runs gathered, if any, become a block of the stream. */
    method FinishBlock()
      requires Midway(true, 64) && g.nblock <= nblockMAX + 9
      requires g.Valid() && taken == Input(history.runs) + g.Content()
      modifies w, w.zbits, unseqToSeq, mtfFreq, this`combinedCRC, this`history
      ensures Midway(true, 64 + BlockRoom(g.nblock)) && w.zbits == old(w.zbits)
      ensures taken == Input(history.runs) + g.Pending()
    {
      hide Stage, Gathered, Input;
      if g.nblock > 0 { AppendBlock(); } else { EmptyBlock(); }
    }

    method EndOutput(isLastBlock: bool)
      requires Midway(true, 64 + BlockRoom(g.nblock)) && g.nblock <= nblockMAX + 9
      modifies w, w.zbits, this`closed
      ensures Shape() && w.Valid() && stateOutPos == 0 && nextOut == earlier + w.zbits[..0] && w.zbits == old(w.zbits)
      ensures closed == isLastBlock && (if closed then w.bsLive <= 0 && w.numZ > 0 else w.bsLive >= 0)
      ensures Stage(Sofar(), tab, level, history, combinedCRC, true, closed)
    {
      hide Stage, BlockRoom, Sofar;
      if isLastBlock { CloseStream(); }
      assert w.zbits[..0] == [];
      Nothing(earlier);
    }

    /** Store and code the current block, and close the stream after the last one. */
    method CompressBlock(isLastBlock: bool)
      requires Inv() && state == InputPhase && g.nblock <= nblockMAX + 9 && (isLastBlock ==> g.stateInCh == 256)
      modifies this`state, this`combinedCRC, this`history, this`closed, w, w.zbits, unseqToSeq, mtfFreq
      ensures Inv() && state == OutputPhase && closed == isLastBlock && (closed ==> !AllOut()) && fresh(w.zbits)
    {
      hide Stage, Gathered, Input, BlockRoom, Sofar, BlockBits, RunLength.Expand, RunLength.Repeat;
      WriteBlock(isLastBlock);
      state := OutputPhase;
    }

    method WriteBlock(isLastBlock: bool)
      requires Inv() && state == InputPhase && g.nblock <= nblockMAX + 9
      modifies this`combinedCRC, this`history, this`closed, w, w.zbits, unseqToSeq, mtfFreq
      ensures Shape() && w.Valid() && stateOutPos == 0 && nextOut == earlier + w.zbits[..0] && fresh(w.zbits)
      ensures closed == isLastBlock && (if closed then w.bsLive <= 0 && w.numZ > 0 else w.bsLive >= 0)
      ensures Stage(Sofar(), tab, level, history, combinedCRC, true, closed)
      ensures taken == Input(history.runs) + g.Pending() && g.Valid()
    {
      hide Inv, Midway, Sofar, Stage, RunBuffer.Valid, RunBuffer.Content, RunBuffer.Pending, BitWriter.Valid, Input,
        BlockRoom;
      BeginOutput();
      FinishBlock();
      EndOutput(isLastBlock);
    }

    // ----- moving on

    /** All output of this block is out: the buffer starts again. */
    method RestartOutput()
      requires w.Valid() && stateOutPos == w.numZ && nextOut == earlier + w.zbits[..stateOutPos]
      modifies this`stateOutPos, this`earlier, w`numZ
      ensures w.Valid() && Sofar() == old(Sofar()) && w.numZ == 0 && stateOutPos == 0 && nextOut == earlier + w.zbits[..0]
    {
      BytesToBitsAppend(earlier, w.zbits[..w.numZ]);
      Assoc(BytesToBits(earlier), BytesToBits(w.zbits[..w.numZ]), LiveBits(w.bsBuff, w.Live()));
      earlier := earlier + w.zbits[..w.numZ];
      w.Restart();
      stateOutPos := 0;
      Nothing(earlier);
      assert w.zbits[..0] == [];
    }

    /** prepare_new_block, and on to taking input. */
    method PrepareNewBlock()
      requires Inv() && state == OutputPhase && stateOutPos == w.numZ && !closed
      modifies this`state, this`stateOutPos, this`blockNo, this`earlier, g`nblock, g`blockCRC, g`cur, g.inUse, w`numZ
      ensures Valid() && state == InputPhase && g.nblock == 0
    {
      hide Stage, Gathered, Input, Sofar, RunBuffer.Valid, RunBuffer.Content, RunBuffer.Pending, BitWriter.Valid, MayFollow;
      RestartOutput();
      g.Clear();
      blockNo := blockNo + 1;
      state := InputPhase;
    }

    method TakeByte()
      requires Inv() && Open() && state == InputPhase && g.nblock < nblockMAX && nextIn != []
      modifies this`nextIn, this`taken, g, g.block, g.inUse
      ensures Inv() && taken == old(taken) + [old(nextIn)[0]] && nextIn == old(nextIn)[1..]
      ensures g.nblock <= nblockMAX + 4 && g.stateInCh < 256
    {
      hide Stage, Gathered, Input, Writing;
      Assoc(Input(history.runs), g.Content(), [nextIn[0]]);
      g.AddChar(nextIn[0]);
      taken := taken + [nextIn[0]];
      nextIn := nextIn[1..];
    }

    /** Input has moved from nextIn to taken. */
    ghost predicate Consumed(total: seq<byte>, coming: nat)
      reads this`taken, this`nextIn
    {
      taken + nextIn == total && |nextIn| <= coming
    }

    /** What copy_input_until_stop has done since it began with this input and this state. */
    ghost predicate Copied(total: seq<byte>, coming: nat, awaited: int, ch: int, n: int, progressIn: bool)
      reads this`taken, this`nextIn, this`availInExpect, this`mode, g`stateInCh, g`nblock
    {
      Consumed(total, coming) && (progressIn <==> |nextIn| < coming) &&
      (!progressIn ==> g.stateInCh == ch && g.nblock == n) && g.nblock <= nblockMAX + 4 &&
      (g.nblock >= nblockMAX ==> g.stateInCh < 256) &&
      availInExpect == (if mode == Running then awaited else awaited - (coming - |nextIn|))
    }

    method CopyByte(ghost total: seq<byte>, ghost coming: nat, ghost awaited: int, ghost ch: int, ghost n: int,
                    ghost progressIn: bool)
      requires Inv() && Open() && state == InputPhase && g.nblock < nblockMAX && nextIn != []
      requires mode != Running ==> availInExpect > 0
      requires Copied(total, coming, awaited, ch, n, progressIn)
      modifies this`nextIn, this`availInExpect, this`taken, g, g.block, g.inUse
      ensures Inv() && Open() && Copied(total, coming, awaited, ch, n, true) && |nextIn| < |old(nextIn)|
    {
      hide Writing, Gathering;
      assert nextIn == [nextIn[0]] + nextIn[1..];
      Assoc(taken, [nextIn[0]], nextIn[1..]);
      TakeByte();
      if mode != Running { availInExpect := availInExpect - 1; }
    }

    method CopyInputUntilStop() returns (progressIn: bool)
      requires Valid() && state == InputPhase
      modifies this`nextIn, this`availInExpect, this`taken, g, g.block, g.inUse
      ensures Inv() && Open()
      ensures Copied(old(taken + nextIn), old(|nextIn|), old(availInExpect), old(g.stateInCh), old(g.nblock), progressIn)
      ensures g.nblock >= nblockMAX || nextIn == [] || (mode != Running && availInExpect == 0)
    {
      progressIn := false;
      assert Copied(taken + nextIn, |nextIn|, availInExpect, g.stateInCh, g.nblock, false);
      hide Inv, Open, Copied;
      while true
        invariant Inv() && Open()
        invariant Copied(old(taken + nextIn), old(|nextIn|), old(availInExpect), old(g.stateInCh), old(g.nblock), progressIn)
        decreases |nextIn|
      {
        if g.nblock >= nblockMAX { break; }
        if nextIn == [] { break; }
        if mode != Running && availInExpect == 0 { break; }
        CopyByte(old(taken + nextIn), old(|nextIn|), old(availInExpect), old(g.stateInCh), old(g.nblock), progressIn);
        progressIn := true;
      }
    }

    /** One byte goes to the caller. */
    method OutByte()
      requires Inv() && availOut > 0 && stateOutPos < w.numZ
      modifies this`stateOutPos, this`availOut, this`nextOut
      ensures Inv() && stateOutPos == old(stateOutPos) + 1 && availOut == old(availOut) - 1
      ensures |nextOut| == |old(nextOut)| + 1 && old(nextOut) <= nextOut
    {
      hide Stage, Gathering, Sofar;
      assert w.zbits[..stateOutPos + 1] == w.zbits[..stateOutPos] + [w.zbits[stateOutPos]];
      Assoc(earlier, w.zbits[..stateOutPos], [w.zbits[stateOutPos]]);
      nextOut := nextOut + [w.zbits[stateOutPos]];
      stateOutPos := stateOutPos + 1;
      availOut := availOut - 1;
    }

    method CopyOutputUntilStop() returns (progressOut: bool)
      requires Inv()
      modifies this`stateOutPos, this`availOut, this`nextOut
      ensures Inv() && (availOut == 0 || stateOutPos == w.numZ) && stateOutPos >= old(stateOutPos)
      ensures progressOut <==> stateOutPos > old(stateOutPos)
      ensures |nextOut| + availOut == |old(nextOut)| + old(availOut) && old(nextOut) <= nextOut
      ensures progressOut <==> |nextOut| > |old(nextOut)|
      ensures state == InputPhase ==> stateOutPos == 0
    {
      hide Inv;
      progressOut := false;
      while true
        invariant Inv() && stateOutPos >= old(stateOutPos) && (progressOut <==> stateOutPos > old(stateOutPos))
        invariant |nextOut| + availOut == |old(nextOut)| + old(availOut) && old(nextOut) <= nextOut
        invariant progressOut <==> |nextOut| > |old(nextOut)|
        decreases availOut
      {
        Positions();
        if availOut == 0 { break; }
        if stateOutPos >= w.numZ { break; }
        progressOut := true;
        OutByte();
      }
      Positions();
    }

    // ----- handle_compress

    /** During a flush or finish exactly the announced input is still to come. */
    ghost predicate Awaited()
      reads this`mode, this`availInExpect, this`nextIn
    {
      mode != Running ==> availInExpect == |nextIn|
    }

    /** Nothing has been lost since a call began: neither input nor room for output nor output. */
    ghost predicate Balanced(total: seq<byte>, coming: nat, out0: seq<byte>, room: nat)
      reads this`taken, this`nextIn, this`nextOut, this`availOut
    {
      Consumed(total, coming) && |nextOut| + availOut == |out0| + room && out0 <= nextOut
    }

    /** Where handle_compress may rest. */
    ghost predicate Settled()
      reads this`state, this`mode, this`closed, this`stateOutPos, this`availOut, this`nextIn, g`stateInCh, w`numZ
    {
      if state == OutputPhase then (stateOutPos < w.numZ && availOut == 0) || (closed && stateOutPos == w.numZ && nextIn == [])
      else nextIn == [] && (mode == Running || (mode == Flushing && g.stateInCh == 256))
    }

    /** Hand out output; when the block is out, get ready for the next one unless this was the last. */
    method OutputPart() returns (stop: bool, progressOut: bool)
      requires Valid() && Awaited() && state == OutputPhase && mode != Ended
      modifies this`state, this`stateOutPos, this`blockNo, this`earlier, this`availOut, this`nextOut
      modifies g`nblock, g`blockCRC, g`cur, g.inUse, w`numZ
      ensures Valid() && (stop ==> Settled())
      ensures !stop ==> state == InputPhase && g.nblock == 0 && (mode != Running && availInExpect == 0 ==> g.stateInCh < 256)
      ensures |nextOut| + availOut == |old(nextOut)| + old(availOut) && old(nextOut) <= nextOut
      ensures progressOut <==> |nextOut| > |old(nextOut)|
      ensures g.stateInCh == old(g.stateInCh) && (AllOut() ==> old(AllOut()) || progressOut)
    {
      hide Writing, Gathering;
      progressOut := CopyOutputUntilStop();
      stop := false;
      Positions();
      if stateOutPos < w.numZ {
        stop := true;
      } else if mode == Finishing && availInExpect == 0 && g.IsEmptyRL() {
        PendingShape();
        stop := true;
      } else {
        PendingShape();
        PrepareNewBlock();
        if mode == Flushing && availInExpect == 0 && g.IsEmptyRL() { stop := true; }
      }
    }

    lemma Positions()
      requires Inv()
      ensures stateOutPos <= w.numZ && (state == InputPhase ==> stateOutPos == 0)
    {
    }

    lemma PendingShape()
      requires Inv()
      ensures g.IsEmptyRL() <==> g.stateInCh == 256
      ensures closed ==> g.stateInCh == 256 && state == OutputPhase
      ensures 0 <= g.stateInCh <= 256
    {
    }

    method FlushPending()
      requires Inv() && state == InputPhase && g.nblock <= nblockMAX + 4
      modifies g, g.block, g.inUse
      ensures Inv() && g.stateInCh == 256 && g.nblock <= nblockMAX + 9
    {
      hide Writing, Gathered, Input;
      g.FlushRL();
    }

    /** Take in input; compress the block when it is full or when the flush or finish has all its input. */
    method InputPart() returns (stop: bool, progressIn: bool)
      requires Valid() && Awaited() && state == InputPhase && mode != Ended
      modifies this`state, this`combinedCRC, this`history, this`closed, this`nextIn, this`availInExpect, this`taken
      modifies g, g.block, g.inUse, w, w.zbits, unseqToSeq, mtfFreq
      ensures Valid() && Awaited() && (stop ==> Settled())
      ensures w.zbits == old(w.zbits) || fresh(w.zbits)
      ensures Consumed(old(taken + nextIn), old(|nextIn|)) && (progressIn <==> |nextIn| < |old(nextIn)|)
      ensures !stop ==> state == OutputPhase
      ensures !AllOut()
      ensures !stop ==> progressIn || (g.stateInCh == 256 && mode != Running && availInExpect == 0 && nextIn == [])
    {
      hide Writing, Gathering;
      progressIn := CopyInputUntilStop();
      stop := false;
      if mode != Running && availInExpect == 0 {
        FlushPending();
        CompressBlock(mode == Finishing);
      } else if g.nblock >= nblockMAX {
        CompressBlock(false);
      } else {
        stop := true;
      }
    }

    /** What is left to do: input to take in, a pending run to flush, a block to gather. */
    ghost function Pace(): (int, int, int)
      reads this`nextIn, this`state, g`stateInCh
    {
      (|nextIn|, if g.stateInCh < 256 then 1 else 0, if state == InputPhase then 1 else 0)
    }

    ghost predicate Faster(p: (int, int, int), q: (int, int, int)) {
      p.0 < q.0 || (p.0 == q.0 && (p.1 < q.1 || (p.1 == q.1 && p.2 < q.2)))
    }

    /** What one round achieves: it is balanced, its progress is reported, and unless it stops less is left to do. */
    ghost predicate Rounded(total: seq<byte>, coming: nat, out0: seq<byte>, room: nat, pace: (int, int, int),
                            stop: bool, progressIn: bool, progressOut: bool)
      reads this`taken, this`nextIn, this`nextOut, this`availOut, this`state, g`stateInCh
    {
      Balanced(total, coming, out0, room) && (progressIn <==> |nextIn| < coming) && (progressOut <==> |nextOut| > |out0|) &&
      (!stop ==> Faster(Pace(), pace))
    }

    ghost predicate OutputDone(total: seq<byte>, coming: nat, out0: seq<byte>, room: nat, pace: (int, int, int),
                               stop: bool, progressOut: bool)
      reads this`taken, this`nextIn, this`nextOut, this`availOut, this`state, this`mode, this`availInExpect, g`stateInCh
    {
      Rounded(total, coming, out0, room, pace, true, false, progressOut) && coming == |nextIn| == pace.0 && Pace().1 == pace.1 && 0 <= pace.2 &&
      (!stop ==> state == InputPhase && (pace.2 == 0 && mode != Running && availInExpect == 0 ==> pace.1 == 1))
    }

    method MaybeOutput() returns (stop: bool, progressOut: bool)
      requires Valid() && Awaited() && mode != Ended
      modifies this`state, this`stateOutPos, this`blockNo, this`earlier, this`availOut, this`nextOut
      modifies g`nblock, g`blockCRC, g`cur, g.inUse, w`numZ
      ensures Valid() && Awaited() && (stop ==> Settled())
      ensures OutputDone(old(taken + nextIn), old(|nextIn|), old(nextOut), old(availOut), old(Pace()), stop, progressOut)
      ensures AllOut() ==> old(AllOut()) || progressOut
    {
      hide Valid, Settled;
      stop, progressOut := false, false;
      if state == OutputPhase {
        stop, progressOut := OutputPart();
      }
    }

    method FollowInput(ghost total: seq<byte>, ghost coming: nat, ghost out0: seq<byte>, ghost room: nat,
                       ghost pace: (int, int, int), ghost progressOut: bool) returns (stop: bool, progressIn: bool)
      requires Valid() && Awaited() && mode != Ended
      requires OutputDone(total, coming, out0, room, pace, false, progressOut)
      modifies this`state, this`combinedCRC, this`history, this`closed, this`nextIn, this`availInExpect, this`taken
      modifies g, g.block, g.inUse, w, w.zbits, unseqToSeq, mtfFreq
      ensures Valid() && Awaited() && (stop ==> Settled()) && (w.zbits == old(w.zbits) || fresh(w.zbits))
      ensures Rounded(total, coming, out0, room, pace, stop, progressIn, progressOut) && !AllOut()
    {
      hide Valid, Settled;
      stop, progressIn := InputPart();
    }

    method Round() returns (stop: bool, progressIn: bool, progressOut: bool)
      requires Valid() && Awaited() && mode != Ended
      modifies this`state, this`combinedCRC, this`history, this`closed, this`nextIn, this`availInExpect, this`taken
      modifies this`stateOutPos, this`blockNo, this`earlier, this`availOut, this`nextOut
      modifies g, g.block, g.inUse, w, w.zbits, unseqToSeq, mtfFreq
      ensures Valid() && Awaited() && (stop ==> Settled()) && (w.zbits == old(w.zbits) || fresh(w.zbits))
      ensures Rounded(old(taken + nextIn), old(|nextIn|), old(nextOut), old(availOut), old(Pace()), stop, progressIn, progressOut)
      ensures AllOut() ==> old(AllOut()) || progressOut
    {
      hide Valid, Settled, Awaited, Pace;
      progressIn := false;
      stop, progressOut := MaybeOutput();
      if !stop {
        stop, progressIn := FollowInput(old(taken + nextIn), old(|nextIn|), old(nextOut), old(availOut), old(Pace()), progressOut);
      }
    }

    method HandleCompress() returns (progress: bool)
      requires Valid() && Awaited() && mode != Ended
      modifies this`state, this`combinedCRC, this`history, this`closed, this`nextIn, this`availInExpect, this`taken
      modifies this`stateOutPos, this`blockNo, this`earlier, this`availOut, this`nextOut
      modifies g, g.block, g.inUse, w, w.zbits, unseqToSeq, mtfFreq
      ensures Valid() && Awaited() && Settled() && (w.zbits == old(w.zbits) || fresh(w.zbits))
      ensures Balanced(old(taken + nextIn), old(|nextIn|), old(nextOut), old(availOut))
      ensures progress <==> |nextIn| < |old(nextIn)| || |nextOut| > |old(nextOut)|
      ensures AllOut() ==> old(AllOut()) || progress
    {
      hide Inv, Valid, Settled, Awaited;
      progress := false;
      var stop := false;
      while !stop
        invariant Valid() && Awaited() && (stop ==> Settled()) && (w.zbits == old(w.zbits) || fresh(w.zbits))
        invariant Balanced(old(taken + nextIn), old(|nextIn|), old(nextOut), old(availOut))
        invariant progress <==> |nextIn| < |old(nextIn)| || |nextOut| > |old(nextOut)|
        invariant AllOut() ==> old(AllOut()) || progress
        decreases !stop, Pace().0, Pace().1, Pace().2
      {
        var progressIn, progressOut;
        stop, progressIn, progressOut := Round();
        progress := progress || progressIn || progressOut;
      }
    }

    // ----- bzCompress

    /** The stream is complete and all of it is with the caller. */
    ghost predicate AllOut()
      reads this`closed, this`stateOutPos, w`numZ
    {
      closed && stateOutPos == w.numZ
    }

    /** What the caller then has decodes to all the input it ever gave. */
    lemma OutputDecodes()
      requires Inv() && AllOut()
      ensures DecodesTo(tab, nextOut, taken)
    {
      forall d | Fresh(d) ensures Unzip(tab, d, 0, BytesToBits(nextOut)) == Whole(taken) {
        OutputDecodesFrom(d);
      }
    }

    lemma OutputDecodesFrom(d: Saved)
      requires Inv() && AllOut() && Fresh(d)
      ensures Unzip(tab, d, 0, BytesToBits(nextOut)) == Whole(taken)
    {
      hide Unzip, Stage, Gathered, Input;
      assert w.zbits[..stateOutPos] == w.zbits[..w.numZ];
      BytesToBitsAppend(earlier, w.zbits[..w.numZ]);
      assert w.Live() == 0 && w.Emitted() == BytesToBits(w.zbits[..w.numZ]);
      Nothing(Input(history.runs));
      ClosedDecodes(Sofar(), tab, level, history, combinedCRC, d);
    }

    /** A call that comes out of turn: after the end, another action than the one begun, or another amount of input. */
    ghost predicate Refused(action: Action, coming: nat)
      reads this`mode, this`availInExpect
    {
      mode == Ended || (mode == Flushing && (action != DoFlush || availInExpect != coming)) ||
      (mode == Finishing && (action != DoFinish || availInExpect != coming))
    }

    /** All input is in a block, and all of that block's output is with the caller. */
    ghost predicate Complete()
      reads this`nextIn, this`stateOutPos, g`stateInCh, w`numZ
    {
      nextIn == [] && g.stateInCh == 256 && stateOutPos == w.numZ
    }

    /** What an accepted call answers, and the mode it leaves: it stops only for want of input or of room. */
    ghost predicate Answered(action: Action, ret: Ret, moved: bool)
      reads this`nextIn, this`stateOutPos, this`availOut, this`mode, this`closed, g`stateInCh, w`numZ
    {
      match action
      case DoRun => mode == Running && ret == (if moved then RunOk else ParamError) && (availOut == 0 || nextIn == [])
      case DoFlush =>
        if Complete() then mode == Running && ret == RunOk else mode == Flushing && ret == FlushOk && availOut == 0
      case DoFinish =>
        if AllOut() then mode == Ended && ret == StreamEnded && moved && nextIn == []
        else mode == Finishing && ret == (if moved then FinishOk else SequenceError) && availOut == 0
    }

    /** What every accepted call keeps. */
    ghost predicate Kept(total: seq<byte>, coming: nat, out0: seq<byte>, room: nat)
      reads this, g, g.block, g.inUse, w, w.zbits
    {
      Valid() && (mode == Ended <==> AllOut()) && Balanced(total, coming, out0, room) &&
      (mode in {Flushing, Finishing} ==> availInExpect == |nextIn|)
    }

    method Run() returns (ret: Ret)
      requires Valid() && mode == Running
      modifies this, g, g.block, g.inUse, w, w.zbits, unseqToSeq, mtfFreq
      ensures Kept(old(taken + nextIn), old(|nextIn|), old(nextOut), old(availOut)) && (w.zbits == old(w.zbits) || fresh(w.zbits))
      ensures Answered(DoRun, ret, |nextIn| < |old(nextIn)| || |nextOut| > |old(nextOut)|)
    {
      hide Inv, Awaited, Settled, Balanced;
      Waits();
      Unclosed();
      var progress := HandleCompress();
      Rests();
      Unclosed();
      ret := if progress then RunOk else ParamError;
    }

    method Flush() returns (ret: Ret)
      requires Valid() && mode == Flushing && availInExpect == |nextIn|
      modifies this, g, g.block, g.inUse, w, w.zbits, unseqToSeq, mtfFreq
      ensures Kept(old(taken + nextIn), old(|nextIn|), old(nextOut), old(availOut)) && (w.zbits == old(w.zbits) || fresh(w.zbits))
      ensures Answered(DoFlush, ret, |nextIn| < |old(nextIn)| || |nextOut| > |old(nextOut)|)
    {
      hide Inv, Awaited, Settled, Balanced;
      Waits();
      var progress := HandleCompress();
      Rests();
      Unclosed();
      if availInExpect > 0 || !g.IsEmptyRL() || stateOutPos < w.numZ { return FlushOk; }
      mode := Running;
      ret := RunOk;
    }

    method Finish() returns (ret: Ret)
      requires Valid() && mode == Finishing && availInExpect == |nextIn| && !AllOut()
      modifies this, g, g.block, g.inUse, w, w.zbits, unseqToSeq, mtfFreq
      ensures Kept(old(taken + nextIn), old(|nextIn|), old(nextOut), old(availOut)) && (w.zbits == old(w.zbits) || fresh(w.zbits))
      ensures Answered(DoFinish, ret, |nextIn| < |old(nextIn)| || |nextOut| > |old(nextOut)|)
      ensures ret == StreamEnded ==> DecodesTo(tab, nextOut, taken)
    {
      hide Inv, Awaited, Settled, DecodesTo, Balanced;
      Waits();
      var progress := HandleCompress();
      Rests();
      if !progress { return SequenceError; }
      if availInExpect > 0 || !g.IsEmptyRL() || stateOutPos < w.numZ { return FinishOk; }
      mode := Ended;
      OutputDecodes();
      ret := StreamEnded;
    }

    lemma Unclosed()
      requires Valid() && mode in {Running, Flushing}
      ensures !closed && !AllOut()
    {
      hide Inv;
    }

    /** The caller gives the next input and room for output and says what to do. */
    method BzCompress(action: Action, input: seq<byte>, room: nat) returns (ret: Ret)
      requires Valid() && (mode == Ended <==> AllOut())
      modifies this, g, g.block, g.inUse, w, w.zbits, unseqToSeq, mtfFreq
      ensures Valid() && (mode == Ended <==> AllOut()) && (w.zbits == old(w.zbits) || fresh(w.zbits))
      ensures Balanced(old(taken) + input, |input|, old(nextOut), room)
      ensures old(Refused(action, |input|)) ==> ret == SequenceError && nextIn == input && availOut == room && mode == old(mode)
      ensures !old(Refused(action, |input|)) ==> Answered(action, ret, |nextIn| < |input| || |nextOut| > |old(nextOut)|)
      ensures ret == StreamEnded ==> DecodesTo(tab, nextOut, taken)
      ensures !old(Refused(action, |input|)) && mode in {Flushing, Finishing} ==> availInExpect == |nextIn|
    {
      hide Inv, DecodesTo, Answered;
      nextIn, availOut := input, room;
      if mode == Ended { return SequenceError; }
      if mode == Running {
        if action == DoRun {
          ret := Run();
          AnswerCodes(action, ret, |nextIn| < |input| || |nextOut| > |old(nextOut)|);
          return;
        }
        availInExpect := |nextIn|;
        mode := if action == DoFlush then Flushing else Finishing;
      }
      if mode == Flushing {
        if action != DoFlush { return SequenceError; }
        if availInExpect != |nextIn| { return SequenceError; }
        ret := Flush();
        AnswerCodes(action, ret, |nextIn| < |input| || |nextOut| > |old(nextOut)|);
        return;
      }
      if action != DoFinish { return SequenceError; }
      if availInExpect != |nextIn| { return SequenceError; }
      ret := Finish();
    }

    lemma AnswerCodes(action: Action, ret: Ret, moved: bool)
      requires Answered(action, ret, moved)
      ensures action != DoFinish ==> ret != StreamEnded
    {
    }

    lemma Waits()
      ensures Awaited() <==> (mode != Running ==> availInExpect == |nextIn|)
    {
    }

    /** Where handle_compress rests, in terms of what the caller can see. */
    lemma Rests()
      requires Valid() && Settled() && Awaited() && mode != Ended
      ensures stateOutPos <= w.numZ && (g.IsEmptyRL() <==> g.stateInCh == 256)
      ensures mode != Running ==> availInExpect == |nextIn|
      ensures availOut == 0 || nextIn == []
      ensures mode == Flushing ==> availOut == 0 || Complete()
      ensures mode == Flushing && Complete() ==> state == InputPhase
      ensures mode == Finishing ==> availOut == 0 || AllOut()
      ensures AllOut() ==> mode == Finishing && Complete()
      ensures mode == Finishing && Complete() ==> AllOut()
    {
      PendingShape();
    }
  }

  lemma PairUp<T>(a: seq<T>, b: seq<T>, c: seq<T>, d: seq<T>)
    ensures a + (b + c + d) == (a + b) + (c + d)
  {
  }
}
