// The compressor: blocks are gathered, sorted, coded and handed out, however the caller doles out buffers.
module Compressor {
  import opened Permutations
  import opened Rotations
  import opened BitIO
  import opened SymbolMaps
  import opened Coroutine
  import opened BlockFormat
  import opened BlockLayout
  import opened Stream
  import opened Gatherer
  import GenerateMtf
  import Mtf
  import TableChoice
  import SendMtf
  import BlockSort
  import RunLength
  import Crc

  // ----- one block

  method ReadSymbols(arr1: array<int>, nMTF: nat) returns (syms: seq<int>)
    requires nMTF <= 2 * arr1.Length
    ensures syms == GenerateMtf.Halves(arr1[..], nMTF)
  {
    syms := [];
    while |syms| < nMTF
      invariant |syms| <= nMTF && forall k | 0 <= k < |syms| :: syms[k] == GenerateMtf.Half(arr1[..], k)
    {
      var k := |syms|;
      var word := arr1[k / 2];
      syms := syms + [if k % 2 == 0 then word % 0x1_0000 else word / 0x1_0000];
    }
  }

  /** The bits a block may need: well within the room behind the block in its array. */
  function BlockRoom(nblock: nat): nat {
    51509 + 6 * TableChoice.GroupCount(nblock + 1) + 17 * (nblock + 1)
  }

  lemma RoomEnough(nblock: nat, level: nat)
    requires 1 <= level && nblock <= 100000 * level
    ensures 32 + 32 + BlockRoom(nblock) + 80 + 8 <= 8 * (4 * (100000 * level + 34) - nblock)
  {
  }

  lemma InUseCovers(l: seq<byte>, inUse: seq<bool>)
    requires |inUse| == 256 && l != [] && forall c {:trigger inUse[c]} | 0 <= c < 256 && c in l :: inUse[c]
    ensures forall c | c in l :: inUse[c]
    ensures Used(inUse) != []
  {
    assert l[0] in l;
    NumberedBack(inUse, l[0]);
  }

  /** The symbols of a sorted block's last column, and the tables to start from. */
  method ColumnSymbols(ptr: array<int>, block: array<byte>, inUse: array<bool>, unseqToSeq: array<int>, mtfFreq: array<int>,
                       ghost bytes: seq<byte>, ghost p: seq<int>)
      returns (nInUse: nat, syms: seq<int>, start: seq<seq<int>>)
    requires 0 < block.Length <= 900_000 && block[..] == bytes && ptr[..] == p && RowOrder(bytes, p)
    requires inUse.Length == 256 && unseqToSeq.Length == 256 && mtfFreq.Length == 258 && unseqToSeq != mtfFreq
    requires ptr !in {unseqToSeq, mtfFreq} && forall c | c in bytes :: inUse[c]
    modifies ptr, unseqToSeq, mtfFreq
    ensures nInUse == |Used(inUse[..])| >= 1 && InRange(GenerateMtf.Numbers(LastColumn(bytes, p), inUse[..]), nInUse)
    ensures syms == Mtf.Encode(GenerateMtf.Numbers(LastColumn(bytes, p), inUse[..]), Iota(nInUse), 0)
    ensures 0 < |syms| <= block.Length + 1 && InRange(syms, nInUse + 2)
    ensures |start| == SendMtf.GroupsFor(|syms|) && TableChoice.Costed(start, nInUse + 2)
  {
    hide Mtf.Encode, GenerateMtf.Halves, TableChoice.Costed, TableChoice.Dealt, GenerateMtf.Numbers, Used;
    var nMTF;
    nInUse, nMTF := GenerateMtf.GenerateMTFValues(ptr, block, block.Length, inUse, unseqToSeq, mtfFreq, bytes, p);
    syms := ReadSymbols(ptr, nMTF);
    Mtf.EncodeRange(GenerateMtf.Numbers(LastColumn(bytes, p), inUse[..]), Iota(nInUse), 0);
    start := TableChoice.InitialTables(mtfFreq, nMTF, nInUse + 2, SendMtf.GroupsFor(nMTF), syms);
  }

  /** Sort a block of runs, code it and write it out. */
  method EncodeBlock(w: BitWriter, tab: Crc.Table, level: nat, block: array<byte>, inUse: array<bool>,
                     unseqToSeq: array<int>, mtfFreq: array<int>, blockCRC: bv32, workFactor: int,
                     ghost rs: seq<RunLength.Run>)
      returns (ghost p: seq<int>, ghost b: Block)
    requires 1 <= level <= 9 && 0 < block.Length <= 100000 * level && w.zbits != block
    requires inUse.Length == 256 && unseqToSeq.Length == 256 && mtfFreq.Length == 258 && unseqToSeq != mtfFreq
    requires Gathered(tab, block[..], inUse[..], blockCRC, rs)
    requires SendMtf.Room(w, BlockRoom(block.Length))
    modifies w, w.zbits, block, unseqToSeq, mtfFreq
    ensures Encodes(tab, level, rs, p, b) && SendMtf.Wrote(w, BlockBits(b, []))
    ensures |BlockBits(b, [])| <= BlockRoom(block.Length)
  {
    hide Crc.Fold, Crc.Update, Crc.Finalise, Crc.AsWord, RunLength.Encode, RunLength.Expand, Mtf.Encode, BlockBits,
      BlockOk, Encodes, TableChoice.Costed, GenerateMtf.Numbers, Used;
    ghost var bytes := block[..];
    var ptr, origPtr := BlockSort.SortBlock(block, workFactor);
    p := ptr[..];
    InUseCovers(bytes, inUse[..]);
    var nInUse, syms, start := ColumnSymbols(ptr, block, inUse, unseqToSeq, mtfFreq, bytes, p);
    var crc := Crc.AsWord(Crc.Finalise(blockCRC));
    b := SendMtf.SendBlock(w, crc, origPtr, inUse, syms, start);
    Collected(tab, level, rs, p, b, inUse[..], origPtr, nInUse);
    BlockFits(b, block.Length);
  }

  lemma BlockFits(b: Block, nblock: nat)
    requires BlockOk(b) && |b.selector| == TableChoice.GroupCount(|b.syms|) && |b.syms| <= nblock + 1
    ensures |BlockBits(b, [])| <= BlockRoom(nblock)
  {
    hide BlockBits, BlockOk, TableChoice.GroupCount;
    BlockParts(b, []);
    MoreGroups(|b.syms|, nblock + 1);
  }

  lemma MoreGroups(m: nat, n: nat)
    requires m <= n
    ensures TableChoice.GroupCount(m) <= TableChoice.GroupCount(n)
  {
  }

  lemma Collected(tab: Crc.Table, level: nat, rs: seq<RunLength.Run>, p: seq<int>, b: Block, inUse: seq<bool>,
                  origPtr: nat, nInUse: nat)
    requires BlockOk(b) && RunLength.Cut(rs) && RowOrder(RunLength.Encode(rs), p) && |p| <= 100000 * level
    requires b.crc == Crc.AsWord(Sum(tab, rs)) && b.origPtr == origPtr < |p| && p[origPtr] == 0 && b.inUse == inUse
    requires (forall c | c in RunLength.Encode(rs) :: inUse[c]) && nInUse == |Used(inUse)|
    requires InRange(GenerateMtf.Numbers(LastColumn(RunLength.Encode(rs), p), inUse), nInUse)
    requires b.syms == Mtf.Encode(GenerateMtf.Numbers(LastColumn(RunLength.Encode(rs), p), inUse), Iota(nInUse), 0)
    ensures Encodes(tab, level, rs, p, b)
  {
  }

  // ----- what has been sent

  function BlocksSent(bs: seq<Block>): seq<bit>
    requires forall k {:trigger bs[k]} | 0 <= k < |bs| :: BlockOk(bs[k])
  {
    if bs == [] then [] else BlocksSent(bs[..|bs| - 1]) + BlockBits(bs[|bs| - 1], [])
  }

  lemma BlocksSentSnoc(bs: seq<Block>, b: Block)
    requires (forall k {:trigger bs[k]} | 0 <= k < |bs| :: BlockOk(bs[k])) && BlockOk(b)
    ensures forall k {:trigger (bs + [b])[k]} | 0 <= k < |bs + [b]| :: BlockOk((bs + [b])[k])
    ensures BlocksSent(bs + [b]) == BlocksSent(bs) + BlockBits(b, [])
  {
    assert (bs + [b])[..|bs|] == bs;
  }

  lemma {:induction false} BlocksSentFirst(bs: seq<Block>)
    requires bs != [] && forall k {:trigger bs[k]} | 0 <= k < |bs| :: BlockOk(bs[k])
    ensures BlocksSent(bs) == BlockBits(bs[0], []) + BlocksSent(bs[1..])
  {
    hide BlockBits;
    var n := |bs| - 1;
    if n == 0 {
      assert bs[..0] == [] && bs[1..] == [];
      Nothing(BlockBits(bs[0], []));
    } else {
      BlocksSentFirst(bs[..n]);
      assert bs[..n][1..] == bs[1..][..n - 1] && bs[1..][n - 1] == bs[n] && bs[..n][0] == bs[0];
      Assoc(BlockBits(bs[0], []), BlocksSent(bs[1..][..n - 1]), BlockBits(bs[n], []));
    }
  }

  lemma {:induction false} BlocksJoin(bs: seq<Block>, combined: nat, pad: seq<bit>)
    requires forall k {:trigger bs[k]} | 0 <= k < |bs| :: BlockOk(bs[k])
    ensures BlocksSent(bs) + EndHdrBits(1, WordBits(combined, pad)) == BlocksBits(bs, combined, pad)
    decreases |bs|
  {
    hide BlockBits, EndHdrBits, WordBits;
    var tail := EndHdrBits(1, WordBits(combined, pad));
    if bs == [] {
      Nothing(tail);
    } else {
      BlocksSentFirst(bs);
      BlocksJoin(bs[1..], combined, pad);
      BlockTail(bs[0], BlocksBits(bs[1..], combined, pad));
      Assoc(BlockBits(bs[0], []), BlocksSent(bs[1..]), tail);
    }
  }

  lemma BlockTail(b: Block, rest: seq<bit>)
    requires BlockOk(b)
    ensures BlockBits(b, rest) == BlockBits(b, []) + rest
  {
    hide BlockBits, HeadBits, MapsBits, SelectorsBits, TablesAndDataBits;
    BlockParts(b, rest);
    BlockParts(b, []);
    Nothing(HeadBits(b) + MapsBits(b) + SelectorsBits(b, []) + TablesAndDataBits(b, []));
  }

  lemma {:induction false} MagicTail(k: int, level: nat, rest: seq<bit>)
    requires 1 <= k <= 4
    ensures MagicBits(k, level, rest) == MagicBits(k, level, []) + rest && |MagicBits(k, level, [])| == 8 * (5 - k)
    decreases 4 - k
  {
    hide ToBits;
    if k < 4 {
      MagicTail(k + 1, level, rest);
      Assoc(ToBits(MagicByte(k), 8), MagicBits(k + 1, level, []), rest);
    } else {
      Nothing(ToBits(0x30 + level, 8));
      Nothing(rest);
    }
  }

  /** The blocks so far: their runs, their sorted listings and their contents. */
  datatype History = History(runs: seq<seq<RunLength.Run>>, ps: seq<seq<int>>, bs: seq<Block>)

  ghost predicate Told(tab: Crc.Table, level: nat, h: History, combined: bv32) {
    AllEncoded(tab, level, h.runs, h.ps, h.bs) && combined == Combined(0, Sums(tab, h.runs)) &&
    forall k {:trigger h.bs[k]} | 0 <= k < |h.bs| :: BlockOk(h.bs[k])
  }

  function SentBits(level: nat, bs: seq<Block>): seq<bit>
    requires forall k {:trigger bs[k]} | 0 <= k < |bs| :: BlockOk(bs[k])
  {
    MagicBits(1, level, []) + BlocksSent(bs)
  }

  /** What of the stream has been written: nothing, the header and some blocks, or all of it. */
  ghost predicate Stage(sofar: seq<bit>, tab: Crc.Table, level: nat, h: History, combined: bv32, headed: bool,
                        closed: bool) {
    Told(tab, level, h, combined) &&
    if !headed then !closed && sofar == [] && h.bs == []
    else if !closed then sofar == SentBits(level, h.bs)
    else exists k: nat :: k < 8 && Closing(sofar, level, h.bs, Crc.AsWord(combined), k)
  }

  ghost predicate Closing(sofar: seq<bit>, level: nat, bs: seq<Block>, combined: nat, k: nat) {
    (forall i {:trigger bs[i]} | 0 <= i < |bs| :: BlockOk(bs[i])) &&
    sofar == SentBits(level, bs) + EndHdrBits(1, WordBits(combined, Zeros(k)))
  }

  /** A closed stream has the layout of its blocks and nothing else. */
  lemma ClosedLayout(sofar: seq<bit>, tab: Crc.Table, level: nat, h: History, combined: bv32) returns (pad: seq<bit>)
    requires Stage(sofar, tab, level, h, combined, true, true)
    ensures sofar == MagicBits(1, level, BlocksBits(h.bs, Crc.AsWord(Combined(0, Sums(tab, h.runs))), pad)) && |pad| < 8
  {
    hide MagicBits, BlocksSent, BlocksBits, EndHdrBits, WordBits, Crc.AsWord, Combined, Sums, AllEncoded;
    var c := Crc.AsWord(combined);
    var k: nat :| k < 8 && Closing(sofar, level, h.bs, c, k);
    pad := Zeros(k);
    BlocksJoin(h.bs, c, pad);
    MagicTail(1, level, BlocksBits(h.bs, c, pad));
    Assoc(MagicBits(1, level, []), BlocksSent(h.bs), EndHdrBits(1, WordBits(c, pad)));
  }

  /** A closed stream decodes to the bytes of its runs. */
  lemma ClosedDecodes(sofar: seq<bit>, tab: Crc.Table, level: nat, h: History, combined: bv32, d: Saved)
    requires Stage(sofar, tab, level, h, combined, true, true) && 1 <= level <= 9 && Fresh(d)
    ensures Unzip(tab, d, 0, sofar) == Whole(Input(h.runs))
  {
    hide Unzip, MagicBits, BlocksBits, Crc.AsWord, Combined, Sums, AllEncoded;
    var pad := ClosedLayout(sofar, tab, level, h, combined);
    DecompressUndoesCompress(tab, level, h.runs, h.ps, h.bs, d, pad);
  }

  // ----- how the history grows

  lemma {:induction false} InputSnoc(runs: seq<seq<RunLength.Run>>, rs: seq<RunLength.Run>)
    ensures Input(runs + [rs]) == Input(runs) + RunLength.Expand(rs)
  {
    hide RunLength.Expand;
    if runs == [] {
      assert [rs][1..] == [];
      Nothing(RunLength.Expand(rs));
    } else {
      assert (runs + [rs])[1..] == runs[1..] + [rs];
      InputSnoc(runs[1..], rs);
      Assoc(RunLength.Expand(runs[0]), Input(runs[1..]), RunLength.Expand(rs));
    }
  }

  lemma {:induction false} CombinedSnoc(start: bv32, crcs: seq<bv32>, c: bv32)
    ensures Combined(start, crcs + [c]) == Crc.Combine(Combined(start, crcs), c)
    decreases |crcs|
  {
    hide Crc.Combine;
    if crcs == [] {
      assert ([] + [c])[1..] == [];
    } else {
      assert (crcs + [c])[1..] == crcs[1..] + [c];
      CombinedSnoc(Crc.Combine(start, crcs[0]), crcs[1..], c);
    }
  }

  /** One more block. */
  lemma StageBlock(sofar: seq<bit>, tab: Crc.Table, level: nat, h: History, combined: bv32,
                   rs: seq<RunLength.Run>, p: seq<int>, b: Block)
    requires Stage(sofar, tab, level, h, combined, true, false) && Encodes(tab, level, rs, p, b)
    ensures Stage(sofar + BlockBits(b, []), tab, level, History(h.runs + [rs], h.ps + [p], h.bs + [b]),
                  Crc.Combine(combined, Sum(tab, rs)), true, false)
    ensures Input(h.runs + [rs]) == Input(h.runs) + RunLength.Expand(rs)
  {
    hide BlockBits, Sum, Crc.Combine, Combined, Sums, RunLength.Expand, MagicBits, Encodes, Input, AllEncoded;
    InputSnoc(h.runs, rs);
    EncodedOk(tab, level, rs, p, b);
    BlocksSentSnoc(h.bs, b);
    Assoc(MagicBits(1, level, []), BlocksSent(h.bs), BlockBits(b, []));
    SumsSnoc(tab, h.runs, rs);
    CombinedSnoc(0, Sums(tab, h.runs), Sum(tab, rs));
    EncodedSnoc(tab, level, h, rs, p, b);
  }

  lemma EncodedOk(tab: Crc.Table, level: nat, rs: seq<RunLength.Run>, p: seq<int>, b: Block)
    requires Encodes(tab, level, rs, p, b)
    ensures BlockOk(b)
  {
  }

  lemma SumsSnoc(tab: Crc.Table, runs: seq<seq<RunLength.Run>>, rs: seq<RunLength.Run>)
    ensures Sums(tab, runs + [rs]) == Sums(tab, runs) + [Sum(tab, rs)]
  {
    hide Sum;
  }

  lemma EncodedSnoc(tab: Crc.Table, level: nat, h: History, rs: seq<RunLength.Run>, p: seq<int>, b: Block)
    requires AllEncoded(tab, level, h.runs, h.ps, h.bs) && Encodes(tab, level, rs, p, b)
    ensures AllEncoded(tab, level, h.runs + [rs], h.ps + [p], h.bs + [b])
  {
    hide Encodes;
    var bs, runs, ps := h.bs + [b], h.runs + [rs], h.ps + [p];
    forall k | 0 <= k < |bs| ensures Encodes(tab, level, runs[k], ps[k], bs[k]) {
      if k < |h.bs| { assert Encodes(tab, level, h.runs[k], h.ps[k], h.bs[k]); }
    }
  }
}
