// The encoder's first stage: input bytes gather into runs, and runs into a block.
module Gatherer {
  import opened Permutations
  import opened RunLength
  import opened Crc

  /** The block holds the runs cur, cut where a run reaches 255; the checksum and the map of bytes in use cover it. */
  ghost predicate Gathered(tab: Table, block: seq<byte>, inUse: seq<bool>, crc: bv32, cur: seq<Run>) {
    Cut(cur) && block == Encode(cur) && crc == Fold(tab, CRC_INITIAL, Expand(cur)) &&
    |inUse| == 256 && forall c {:trigger inUse[c]} | 0 <= c < 256 && c in block :: inUse[c]
  }

  /** A run of ch may follow the runs cur. */
  ghost predicate MayFollow(cur: seq<Run>, ch: int) {
    cur != [] && cur[|cur| - 1].ch == ch ==> cur[|cur| - 1].len == 255
  }

  /** The bytes a run is stored as. */
  lemma RunBytes(ch: byte, len: nat)
    requires 1 <= len <= 255
    ensures forall c | c in EncodeRun(Run(ch, len)) :: c == ch || (len >= 4 && c == len - 4)
  {
  }

  lemma GatherRun(tab: Table, block: seq<byte>, inUse: seq<bool>, crc: bv32, cur: seq<Run>, ch: byte, len: nat,
                  inUse': seq<bool>)
    requires Gathered(tab, block, inUse, crc, cur) && MayFollow(cur, ch) && 1 <= len <= 255
    requires |inUse'| == 256 && inUse'[ch] && forall c | 0 <= c < 256 && inUse[c] :: inUse'[c]
    requires len >= 4 ==> inUse'[len - 4]
    ensures Gathered(tab, block + EncodeRun(Run(ch, len)), inUse', Fold(tab, crc, Repeat(ch, len)), cur + [Run(ch, len)])
    ensures Expand(cur + [Run(ch, len)]) == Expand(cur) + Repeat(ch, len)
  {
    hide Update, Fold, Encode, Expand, Repeat;
    RunBytes(ch, len);
    EncodeSnoc(cur, Run(ch, len));
    FoldAppend(tab, CRC_INITIAL, Expand(cur), Repeat(ch, len));
    forall c | 0 <= c < 256 && c in block + EncodeRun(Run(ch, len)) ensures inUse'[c] {
      if c !in block { assert c in EncodeRun(Run(ch, len)); }
    }
  }

  lemma GatherNothing(tab: Table)
    ensures Cut([]) && Encode([]) == [] && Expand([]) == [] && Fold(tab, CRC_INITIAL, []) == CRC_INITIAL
  {
  }

  class RunBuffer {
    const tab: Table
    const block: array<byte>
    const inUse: array<bool>
    var nblock: nat
    var blockCRC: bv32
    var stateInCh: int
    var stateInLen: nat
    ghost var cur: seq<Run>

    ghost predicate Valid()
      reads this, block, inUse
    {
      inUse.Length == 256 && nblock <= block.Length && Gathered(tab, block[..nblock], inUse[..], blockCRC, cur) && PendingOk(stateInCh, stateInLen) &&
      MayFollow(cur, stateInCh)
    }

    /** The run that has not been stored yet. */
    ghost function Pending(): seq<byte>
      requires PendingOk(stateInCh, stateInLen)
      reads this
    {
      if stateInCh < 256 then Repeat(stateInCh, stateInLen) else []
    }

    /** Everything gathered for this block. */
    ghost function Content(): seq<byte>
      requires PendingOk(stateInCh, stateInLen)
      reads this
    {
      Expand(cur) + Pending()
    }

    constructor (tab: Table, size: nat)
      ensures Valid() && this.tab == tab && block.Length == size && fresh(block) && fresh(inUse)
      ensures cur == [] && stateInCh == 256 && nblock == 0 && Pending() == []
    {
      this.tab := tab;
      block := new byte[size](_ => 0);
      inUse := new bool[256](_ => false);
      nblock, blockCRC, cur := 0, CRC_INITIAL, [];
      stateInCh, stateInLen := 256, 0;
      new;
      assert block[..0] == [];
    }

    method Store(c: byte)
      requires nblock < block.Length
      modifies this`nblock, block
      ensures nblock == old(nblock) + 1 && block[..nblock] == old(block[..nblock]) + [c]
    {
      block[nblock] := c;
      nblock := nblock + 1;
      assert block[..nblock] == block[..nblock - 1] + [c];
    }

    method StoreCopies(c: byte, n: nat)
      requires nblock + n <= block.Length
      modifies this`nblock, block
      ensures nblock == old(nblock) + n && block[..nblock] == old(block[..nblock]) + Repeat(c, n)
    {
      var i := 0;
      while i < n
        invariant 0 <= i <= n && nblock == old(nblock) + i && block[..nblock] == old(block[..nblock]) + Repeat(c, i)
      {
        Store(c);
        assert Repeat(c, i) + [c] == Repeat(c, i + 1);
        i := i + 1;
      }
    }

    /** The checksum takes in the byte n times. */
    method FoldRun(ch: byte, n: nat)
      modifies this`blockCRC
      ensures blockCRC == Fold(tab, old(blockCRC), Repeat(ch, n))
    {
      hide Update, Fold;
      FoldNothing(tab, blockCRC);
      assert Repeat(ch, 0) == [];
      for i := 0 to n
        invariant blockCRC == Fold(tab, old(blockCRC), Repeat(ch, i))
      {
        FoldSnoc(tab, old(blockCRC), Repeat(ch, i), ch);
        assert Repeat(ch, i) + [ch] == Repeat(ch, i + 1);
        blockCRC := Update(tab, blockCRC, ch);
      }
    }

    method AddPairToBlock()
      requires Valid() && stateInCh < 256 && nblock + 5 <= block.Length
      modifies this`nblock, this`blockCRC, this`cur, block, inUse
      ensures cur == old(cur) + [Run(stateInCh, stateInLen)] && old(nblock) < nblock <= old(nblock) + 5
      ensures Gathered(tab, block[..nblock], inUse[..], blockCRC, cur)
      ensures Expand(cur) == old(Content())
    {
      hide Update, Fold, Encode, Expand, Cut;
      var ch: byte := stateInCh;
      ghost var was, used := block[..nblock], inUse[..];
      FoldRun(ch, stateInLen);
      inUse[stateInCh] := true;
      if stateInLen < 4 {
        StoreCopies(ch, stateInLen);
      } else {
        inUse[stateInLen - 4] := true;
        StoreCopies(ch, 4);
        Store(stateInLen - 4);
        Assoc(was, Repeat(ch, 4), [stateInLen - 4]);
      }
      GatherRun(tab, was, used, old(blockCRC), cur, ch, stateInLen, inUse[..]);
      cur := cur + [Run(ch, stateInLen)];
    }

    /** Take in one byte of input.  After FlushRL this has to wait for the next block: the same byte again would run
        on from a stored run that the decoder takes to have ended. */
    method AddChar(c: byte)
      requires Valid() && nblock + 5 <= block.Length && (stateInCh == 256 ==> cur == [])
      modifies this, block, inUse
      ensures Valid() && Content() == old(Content()) + [c] && old(nblock) <= nblock <= old(nblock) + 5
      ensures stateInCh < 256
    {
      hide Update, Fold, Encode, Expand, Cut;
      FoldNothing(tab, blockCRC);
      if c != stateInCh && stateInLen == 1 {
        var ch: byte := stateInCh;
        ghost var was, used := block[..nblock], inUse[..];
        assert Repeat(ch, 1) == [] + [ch];
        FoldSnoc(tab, blockCRC, [], ch);
        blockCRC := Update(tab, blockCRC, ch);
        inUse[stateInCh] := true;
        Store(ch);
        GatherRun(tab, was, used, old(blockCRC), cur, ch, 1, inUse[..]);
        cur := cur + [Run(ch, 1)];
        stateInCh := c;
      } else if c != stateInCh || stateInLen == 255 {
        if stateInCh < 256 { AddPairToBlock(); }
        stateInCh := c;
        stateInLen := 1;
      } else {
        assert Repeat(c, stateInLen) + [c] == Repeat(c, stateInLen + 1);
        Assoc(Expand(cur), Repeat(c, stateInLen), [c]);
        stateInLen := stateInLen + 1;
      }
      assert Repeat(c, 1) == [c];
    }

    /** Store the pending run. */
    method FlushRL()
      requires Valid() && nblock + 5 <= block.Length
      modifies this, block, inUse
      ensures Valid() && Expand(cur) == Content() == old(Content()) && old(nblock) <= nblock <= old(nblock) + 5
      ensures stateInCh == 256
    {
      hide Update, Fold, Encode, Expand, Cut;
      if stateInCh < 256 { AddPairToBlock(); }
      stateInCh := 256;
      stateInLen := 0;
    }

    predicate IsEmptyRL()
      reads this
    {
      !(stateInCh < 256 && stateInLen > 0)
    }

    /** A new block; a pending run moves into it. */
    method Clear()
      requires Valid()
      modifies this`nblock, this`blockCRC, this`cur, inUse
      ensures Valid() && nblock == 0 && cur == [] && Content() == old(Pending())
    {
      hide Update, Fold, Encode, Expand, Cut;
      GatherNothing(tab);
      nblock, blockCRC, cur := 0, CRC_INITIAL, [];
      var i := 0;
      while i < 256
        invariant 0 <= i <= 256
        modifies inUse
      {
        inUse[i] := false;
        i := i + 1;
      }
      assert block[..0] == [];
      assert [] + Pending() == Pending();
    }
  }

  ghost predicate PendingOk(ch: int, len: nat) {
    if ch == 256 then len == 0 else 0 <= ch < 256 && 1 <= len <= 255
  }
}
