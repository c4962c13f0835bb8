// What the compressor has handed out is a stream that the decompressor can be set on.
module RoundTrip {
  import opened BitIO
  import opened Permutations
  import opened BlockFormat
  import opened BlockLayout
  import opened Stream
  import opened Compressor
  import opened Encoder
  import opened Decompressor
  import opened Gatherer
  import opened BlockReader
  import opened Coroutine

  /** A finished compression leaves exactly what a Decoder takes as its stream, and its plain text is all the input. */
  lemma StreamForDecoder(e: EState) returns (h: History, pad: seq<bit>)
    requires e.Inv() && e.AllOut()
    ensures Encoded(e.tab, e.level, h) && BytesToBits(e.nextOut) == MagicBits(1, e.level, RestBits(e.tab, h, 0, pad))
    ensures Input(h.runs) == e.taken && |pad| < 8
  {
    hide Stage, Gathered, Input, MagicBits, BlocksBits, Combined, Sums;
    h := e.history;
    assert e.w.zbits[..e.stateOutPos] == e.w.zbits[..e.w.numZ];
    BytesToBitsAppend(e.earlier, e.w.zbits[..e.w.numZ]);
    assert e.w.Live() == 0 && e.w.Emitted() == BytesToBits(e.w.zbits[..e.w.numZ]);
    Nothing(Input(h.runs));
    pad := ClosedLayout(e.Sofar(), e.tab, e.level, h, e.combinedCRC);
    HistoryEncoded(e.Sofar(), e.tab, e.level, h, e.combinedCRC);
  }

  lemma HistoryEncoded(sofar: seq<bit>, tab: Crc.Table, level: nat, h: History, combined: bv32)
    requires Stage(sofar, tab, level, h, combined, true, true) && 1 <= level <= 9
    ensures Encoded(tab, level, h)
  {
  }

  /** Whatever the pieces the stream comes in, and whatever the room for output at each call, decompression ends with
      the whole input of the compressor once there has been room for it. */
  method Decompressed(e: EState, pieces: seq<seq<byte>>, rooms: seq<nat>, last: nat, small: bool)
      returns (ret: Decompressor.Ret, plain: seq<byte>)
    requires e.Inv() && e.AllOut() && Joined(pieces) == e.nextOut && |rooms| == |pieces| && last > |e.taken|
    ensures ret == RetStreamEnd && plain == e.taken
  {
    hide MagicBits, RestBits, BytesToBits, Encoded, Input, Decoder.Valid, Joined, EState.Inv;
    ghost var h, pad := StreamForDecoder(e);
    var d := new Decoder(e.tab, small, e.level, h, pad);
    var i := 0;
    ret := RetOk;
    assert pieces[0..] == pieces;
    while i < |pieces| && ret == RetOk
      invariant 0 <= i <= |pieces| && fresh(d) && fresh(d.s) && fresh(d.s.Own()) && fresh(d.Parts())
      invariant d.Valid() && d.plain == e.taken && d.ahead == BytesToBits(Joined(pieces[i..]))
      invariant ret in {RetOk, RetStreamEnd} && (ret == RetOk ==> d.s.state != Idle) && (ret == RetStreamEnd ==> d.nextOut == e.taken)
      decreases |pieces| - i
    {
      FirstPiece(pieces, i);
      ret := d.BzDecompress(pieces[i], rooms[i], BytesToBits(Joined(pieces[i + 1..])));
      i := i + 1;
    }
    if ret == RetOk {
      NoMore(pieces[i..]);
      d.OutWithin();
      ret := d.BzDecompress([], last, []);
      d.OutWithin();
    }
    plain := d.nextOut;
  }

  lemma FirstPiece(pieces: seq<seq<byte>>, i: nat)
    requires i < |pieces|
    ensures BytesToBits(Joined(pieces[i..])) == BytesToBits(pieces[i]) + BytesToBits(Joined(pieces[i + 1..]))
  {
    hide BytesToBits;
    BytesToBitsAppend(pieces[i], Joined(pieces[i + 1..]));
    assert pieces[i..][1..] == pieces[i + 1..];
  }

  lemma NoMore(pieces: seq<seq<byte>>)
    requires pieces == []
    ensures BytesToBits(Joined(pieces)) == BytesToBits([]) + []
  {
  }
}
