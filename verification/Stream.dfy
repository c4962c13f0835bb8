// The whole way there and back: what the decoder makes of a compressed stream is the input of the encoder.
module Stream {
  import opened Permutations
  import opened Rotations
  import opened InverseBwt
  import opened BitIO
  import opened SymbolMaps
  import opened Mtf
  import opened Coroutine
  import opened BlockFormat
  import Unsort
  import GenerateMtf
  import RunLength
  import Crc

  datatype Unzipped = Whole(out: seq<byte>) | Damaged | Truncated

  /** The bytes of a decoded block: back through the sort, then through the run-length coding. */
  ghost function BlockBytes(l: seq<byte>, origPtr: int): seq<byte>
    requires 0 <= origPtr < |l|
  {
    Unsorted(l, Unsort.SortOrder(l), origPtr)
  }

  /** Decoding the rest of a stream, block by block, with both levels of checksum. */
  ghost function Unzip(tab: Crc.Table, d: Saved, combined: bv32, bits: seq<bit>): Unzipped
    requires Active(d)
    decreases |bits|
  {
    match RunOn(d, bits)
    case Waiting(_, _) => Truncated
    case Stopped(code, e, rest) =>
      if code == StreamEnd then
        if Crc.AsWord(combined) == e.storedCombinedCRC then Whole([]) else Damaged
      else if code == BlockReady && e.randomised == 0 && RunLength.Countable(BlockBytes(e.u.out, e.origPtr)) then
        var out := RunLength.Decode(BlockBytes(e.u.out, e.origPtr));
        var crc := Crc.Finalise(Crc.Fold(tab, Crc.CRC_INITIAL, out));
        if Crc.AsWord(crc) != e.storedBlockCRC then Damaged
        else
          var more := Unzip(tab, e.(at := BlkHdr(1)), Crc.Combine(combined, crc), rest);
          if more.Whole? then Whole(out + more.out) else more
      else Damaged
  }

  /** The checksum of a block of runs. */
  ghost function Sum(tab: Crc.Table, rs: seq<RunLength.Run>): bv32 {
    Crc.Finalise(Crc.Fold(tab, Crc.CRC_INITIAL, RunLength.Expand(rs)))
  }

  /** What the encoder may make of a block of runs: any sorted listing of the rotations, any complete codes. */
  ghost predicate Encodes(tab: Crc.Table, level: int, rs: seq<RunLength.Run>, p: seq<int>, b: Block) {
    BlockOk(b) && RunLength.Cut(rs) && RowOrder(RunLength.Encode(rs), p) && |p| <= 100000 * level &&
    b.crc == Crc.AsWord(Sum(tab, rs)) &&
    b.origPtr < |p| && p[b.origPtr] == 0 &&
    (forall c | c in RunLength.Encode(rs) :: b.inUse[c]) &&
    InRange(GenerateMtf.Numbers(LastColumn(RunLength.Encode(rs), p), b.inUse), |Used(b.inUse)|) &&
    b.syms == Mtf.Encode(GenerateMtf.Numbers(LastColumn(RunLength.Encode(rs), p), b.inUse), Iota(|Used(b.inUse)|), 0)
  }

  /** The last column comes out of the block data. */
  lemma ColumnBack(tab: Crc.Table, level: int, rs: seq<RunLength.Run>, p: seq<int>, b: Block, byteOf: seq<byte>, u: Unmtf)
    requires Encodes(tab, level, rs, p, b) && level <= 9
    requires |byteOf| == 256 && byteOf[..|Used(b.inUse)|] == Used(b.inUse) && u.yy == Iota(256) && u.out == []
    ensures Listed(u) && |Used(b.inUse)| <= 256 && InRange(b.syms, |Used(b.inUse)| + 2)
    ensures var v := AcceptAll(u, false, b.syms, byteOf, |Used(b.inUse)| + 1, 100000 * level);
      v.Finished? && v.u.out == LastColumn(RunLength.Encode(rs), p)
  {
    var n := |Used(b.inUse)|;
    var l := LastColumn(RunLength.Encode(rs), p);
    var nums := GenerateMtf.Numbers(l, b.inUse);
    var yy := Iota(n);
    assert u.yy[..n] == yy;
    Mtf.DecodeUndoesEncode(nums, yy, 0, u, byteOf, 100000 * level);
    GenerateMtf.LastColumnBytes(RunLength.Encode(rs), p);
    forall k | 0 <= k < |l| ensures Bytes(nums, byteOf)[k] == l[k] {
      assert l[k] in l;
      NumberedBack(b.inUse, l[k]);
      assert byteOf[..n][nums[k]] == l[k];
    }
    assert Bytes(nums, byteOf) == l;
    assert Copies(byteOf[yy[0]], 0) == [];
  }

  /** A block's bytes come back from its last column, whatever listing the sorter chose. */
  lemma BytesBack(b: seq<byte>, p: seq<int>, origPtr: int)
    requires RowOrder(b, p) && 0 <= origPtr < |p| && p[origPtr] == 0
    ensures BlockBytes(LastColumn(b, p), origPtr) == b
  {
    Unsort.SortOrderStable(LastColumn(b, p));
    InverseUndoesForward(b, p, Unsort.SortOrder(LastColumn(b, p)), origPtr);
  }

  // ----- the stream

  function BlocksBits(bs: seq<Block>, combined: nat, pad: seq<bit>): seq<bit>
    requires forall k {:trigger bs[k]} | 0 <= k < |bs| :: BlockOk(bs[k])
  {
    if bs == [] then EndHdrBits(1, WordBits(combined, pad)) else BlockBits(bs[0], BlocksBits(bs[1..], combined, pad))
  }

  function Combined(start: bv32, crcs: seq<bv32>): bv32
    decreases |crcs|
  {
    if crcs == [] then start else Combined(Crc.Combine(start, crcs[0]), crcs[1..])
  }

  ghost function Sums(tab: Crc.Table, rss: seq<seq<RunLength.Run>>): seq<bv32> {
    seq(|rss|, k requires 0 <= k < |rss| => Sum(tab, rss[k]))
  }

  ghost function Input(rss: seq<seq<RunLength.Run>>): seq<byte> {
    if rss == [] then [] else RunLength.Expand(rss[0]) + Input(rss[1..])
  }

  ghost predicate AllEncoded(tab: Crc.Table, level: int, rss: seq<seq<RunLength.Run>>, ps: seq<seq<int>>, bs: seq<Block>) {
    |rss| == |ps| == |bs| && forall k {:trigger bs[k]} | 0 <= k < |bs| :: Encodes(tab, level, rss[k], ps[k], bs[k])
  }

  /** One block: the decoder stops at its end and its bytes, checksum included, are those of the runs. */
  lemma BlockBack(tab: Crc.Table, level: int, rs: seq<RunLength.Run>, p: seq<int>, b: Block, d: Saved, rest: seq<bit>)
      returns (e: Saved)
    requires Encodes(tab, level, rs, p, b) && Sized(d) && d.at == BlkHdr(1) && d.level == level && 1 <= level <= 9
    ensures RunOn(d, BlockBits(b, rest)) == Stopped(BlockReady, e, rest)
    ensures Sized(e) && e.at == Output && e.level == level && e.randomised == 0 && 0 <= e.origPtr < |e.u.out|
    ensures e.u.out == LastColumn(RunLength.Encode(rs), p) && e.origPtr == b.origPtr
    ensures e.storedBlockCRC == Crc.AsWord(Sum(tab, rs))
    ensures RunLength.Countable(BlockBytes(e.u.out, e.origPtr))
    ensures RunLength.Decode(BlockBytes(e.u.out, e.origPtr)) == RunLength.Expand(rs)
  {
    hide RunOn, BlockBits, AcceptAll, BlockBytes, Used, Crc.Fold;
    var n := |Used(b.inUse)|;
    var byteOf := Used(b.inUse) + d.byteOf[n..];
    assert byteOf[..n] == Used(b.inUse);
    var u := Unmtf(Iota(256), d.u.es, d.u.n, []);
    ColumnBack(tab, level, rs, p, b, byteOf, u);
    var v := AcceptAll(u, false, b.syms, byteOf, n + 1, 100000 * d.level);
    e := BlockRead(d, b, rest, byteOf, v);
    BytesBack(RunLength.Encode(rs), p, b.origPtr);
    RunLength.DecodeUndoesEncode(rs);
  }

  /** One block of the stream: its bytes come first, and the decoder goes on behind it. */
  lemma BlockUnzipped(tab: Crc.Table, level: int, rs: seq<RunLength.Run>, p: seq<int>, b: Block, d: Saved,
                      combined: bv32, rest: seq<bit>) returns (e: Saved)
    requires Encodes(tab, level, rs, p, b) && Sized(d) && d.at == BlkHdr(1) && d.level == level && 1 <= level <= 9
    ensures Sized(e) && e.at == BlkHdr(1) && e.level == level
    ensures var more := Unzip(tab, e, Crc.Combine(combined, Sum(tab, rs)), rest);
      more.Whole? ==> Unzip(tab, d, combined, BlockBits(b, rest)) == Whole(RunLength.Expand(rs) + more.out)
  {
    hide RunOn, BlockBits, BlockBytes, Encodes, Crc.Fold, Crc.Finalise, Crc.AsWord, Crc.Combine;
    var f := BlockBack(tab, level, rs, p, b, d, rest);
    e := f.(at := BlkHdr(1));
  }

  lemma EndUnzipped(tab: Crc.Table, d: Saved, combined: bv32, pad: seq<bit>)
    requires Sized(d) && d.at == BlkHdr(1)
    ensures Unzip(tab, d, combined, EndHdrBits(1, WordBits(Crc.AsWord(combined), pad))) == Whole([])
  {
    hide RunOn, EndHdrBits, WordBits, BlockBytes, Crc.Fold, Crc.Finalise, Crc.AsWord, Crc.Combine;
    var total := Crc.AsWord(combined);
    EndHdrRead(d, 1, WordBits(total, pad));
    CCrcRead(d.(storedCombinedCRC := 0, at := CCrc(1)), total, pad);
  }

  lemma BlocksOk(tab: Crc.Table, level: int, rss: seq<seq<RunLength.Run>>, ps: seq<seq<int>>, bs: seq<Block>)
    requires AllEncoded(tab, level, rss, ps, bs)
    ensures forall k {:trigger bs[k]} | 0 <= k < |bs| :: BlockOk(bs[k])
  {
    forall k {:trigger bs[k]} | 0 <= k < |bs| ensures BlockOk(bs[k]) {
      assert Encodes(tab, level, rss[k], ps[k], bs[k]);
    }
  }

  lemma NoSums(tab: Crc.Table, rss: seq<seq<RunLength.Run>>)
    requires rss == []
    ensures Sums(tab, rss) == [] && Input(rss) == []
  {
  }

  lemma SumsFirst(tab: Crc.Table, rss: seq<seq<RunLength.Run>>)
    requires rss != []
    ensures |Sums(tab, rss)| == |rss| && Sums(tab, rss)[0] == Sum(tab, rss[0]) && Sums(tab, rss)[1..] == Sums(tab, rss[1..])
  {
    hide Sum;
  }

  lemma EncodedRest(tab: Crc.Table, level: int, rss: seq<seq<RunLength.Run>>, ps: seq<seq<int>>, bs: seq<Block>)
    requires AllEncoded(tab, level, rss, ps, bs) && bs != []
    ensures Encodes(tab, level, rss[0], ps[0], bs[0]) && AllEncoded(tab, level, rss[1..], ps[1..], bs[1..])
  {
    hide Encodes;
    forall k | 0 <= k < |bs[1..]| ensures Encodes(tab, level, rss[1..][k], ps[1..][k], bs[1..][k]) {
      assert Encodes(tab, level, rss[k + 1], ps[k + 1], bs[k + 1]);
    }
    assert Encodes(tab, level, rss[0], ps[0], bs[0]);
  }

  lemma {:induction false} BlocksBack(tab: Crc.Table, level: int, rss: seq<seq<RunLength.Run>>, ps: seq<seq<int>>,
                                      bs: seq<Block>, d: Saved, combined: bv32, pad: seq<bit>)
    requires AllEncoded(tab, level, rss, ps, bs) && Sized(d) && d.at == BlkHdr(1) && d.level == level && 1 <= level <= 9
    ensures Unzip(tab, d, combined, BlocksBits(bs, Crc.AsWord(Combined(combined, Sums(tab, rss))), pad)) == Whole(Input(rss))
    decreases |bs|
  {
    hide Unzip, BlockBits, EndHdrBits, WordBits, Encodes, Sum, Crc.AsWord, Crc.Combine, BlockOk, Sums;
    BlocksOk(tab, level, rss, ps, bs);
    var total := Crc.AsWord(Combined(combined, Sums(tab, rss)));
    if bs == [] {
      NoSums(tab, rss);
      EndUnzipped(tab, d, combined, pad);
    } else {
      EncodedRest(tab, level, rss, ps, bs);
      var rest := BlocksBits(bs[1..], total, pad);
      var e := BlockUnzipped(tab, level, rss[0], ps[0], bs[0], d, combined, rest);
      SumsFirst(tab, rss);
      BlocksBack(tab, level, rss[1..], ps[1..], bs[1..], e, Crc.Combine(combined, Sum(tab, rss[0])), pad);
    }
  }

  /** The decoder as bzDecompressInit leaves it. */
  ghost predicate Fresh(d: Saved) {
    Sized(d) && d.at == Magic(1)
  }

  /** Whatever way the input was cut into runs and blocks, whatever listings and codes were chosen: decoding the
      stream gives the input back, and both levels of checksum agree. */
  lemma DecompressUndoesCompress(tab: Crc.Table, level: int, rss: seq<seq<RunLength.Run>>, ps: seq<seq<int>>,
                                 bs: seq<Block>, d: Saved, pad: seq<bit>)
    requires AllEncoded(tab, level, rss, ps, bs) && 1 <= level <= 9 && Fresh(d)
    ensures Unzip(tab, d, 0, MagicBits(1, level, BlocksBits(bs, Crc.AsWord(Combined(0, Sums(tab, rss))), pad))) == Whole(Input(rss))
  {
    hide RunOn, BlocksBits, BlockBytes, Crc.Fold, Crc.AsWord, Crc.Combine;
    var rest := BlocksBits(bs, Crc.AsWord(Combined(0, Sums(tab, rss))), pad);
    MagicRead(d, 1, level, rest);
    BlocksBack(tab, level, rss, ps, bs, d.(level := level, at := BlkHdr(1)), 0, pad);
  }
}
