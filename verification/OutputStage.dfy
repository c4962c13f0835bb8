// The decoder's output stage: walk the inverse vector (fast or small form), undo the run-length
// coding, and hand over as many bytes as the caller has room for.
module OutputStage {
  import opened Permutations
  import opened Rotations
  import opened InverseBwt
  import opened Unsort
  import opened SmallVector
  import opened Counting
  import opened RunLength
  import opened Crc

  /** What is still to be decoded once the bytes before i have been used up. */
  ghost function Rest(b: seq<byte>, i: nat): seq<byte>
    requires i >= |b| || Countable(b[i..])
  {
    if i >= |b| then [] else Decode(b[i..])
  }

  ghost predicate RunsFrom(b: seq<byte>, i: nat) {
    i >= |b| || Countable(b[i..])
  }

  /** A run of k < 4 equal bytes at i. */
  lemma ShortRunAt(b: seq<byte>, i: nat, k: nat)
    requires i < |b| && RunsFrom(b, i) && 1 <= k < 4 && i + k <= |b|
    requires forall j | i <= j < i + k :: b[j] == b[i]
    requires i + k == |b| || b[i + k] != b[i]
    ensures RunsFrom(b, i + k) && Rest(b, i) == Repeat(b[i], k) + Rest(b, i + k)
  {
    var s := b[i..];
    assert Lead(s) == k by {
      assert forall j | 0 <= j < k :: s[j] == b[i + j] == s[0];
      assert i + k < |b| ==> s[k] == b[i + k];
    }
    assert s[k..] == b[i + k..] && s[0] == b[i];
    assert Decode(s) == Repeat(b[i], k) + Decode(s[k..]);
  }

  /** Four equal bytes at i, and the count that must follow them. */
  lemma LongRunAt(b: seq<byte>, i: nat)
    requires i < |b| && RunsFrom(b, i) && i + 4 <= |b|
    requires b[i + 1] == b[i] && b[i + 2] == b[i] && b[i + 3] == b[i]
    ensures i + 4 < |b| && RunsFrom(b, i + 5)
    ensures Rest(b, i) == Repeat(b[i], (b[i + 4] as int) + 4) + Rest(b, i + 5)
  {
    var s := b[i..];
    assert s[1] == b[i + 1] && s[2] == b[i + 2] && s[3] == b[i + 3];
    assert Lead(s) == 4;
    assert s[5..] == b[i + 5..] && s[4] == b[i + 4];
  }

  /** A sorted block: last column and origPtr as the encoder sends them. */
  ghost predicate Sent(b: seq<byte>, l: seq<byte>, origPtr: int) {
    exists p :: RowOrder(b, p) && l == LastColumn(b, p) && 0 <= origPtr < |b| && p[origPtr] == 0
  }

  /** Byte j of the walk along t, starting behind origPtr. */
  ghost function WalkByte(l: seq<byte>, t: seq<int>, origPtr: int, j: nat): byte
    requires |l| == |t| && InRange(t, |t|) && 0 <= origPtr < |l|
  {
    l[Walk(t, origPtr, j + 1)]
  }

  /** The walk spells the block, round and round. */
  ghost predicate Spells(b: seq<byte>, l: seq<byte>, t: seq<int>, origPtr: int) {
    |l| == |b| == |t| && InRange(t, |t|) && 0 <= origPtr < |l| &&
    forall j: nat {:trigger WalkByte(l, t, origPtr, j)} :: WalkByte(l, t, origPtr, j) == Rot(b, j, 0)
  }

  lemma SentSpells(b: seq<byte>, l: seq<byte>, origPtr: int)
    requires Sent(b, l, origPtr)
    ensures Spells(b, l, SortOrder(l), origPtr)
  {
    var p :| RowOrder(b, p) && l == LastColumn(b, p) && 0 <= origPtr < |b| && p[origPtr] == 0;
    SortOrderStable(l);
    forall j: nat ensures WalkByte(l, SortOrder(l), origPtr, j) == Rot(b, j, 0) {
      WalkSpells(b, p, SortOrder(l), origPtr, j);
    }
  }

  /** The walk starts one step behind origPtr. */
  lemma FirstRow(w: seq<int>, l: seq<byte>, t: seq<int>, origPtr: nat)
    requires Threaded(w, l, t) && origPtr < |l|
    ensures 0 <= w[origPtr] && HighPart(w[origPtr]) == Walk(t, origPtr, 1)
  {
    PackedParts(l[origPtr], t[origPtr]);
    assert Walk(t, origPtr, 0) == origPtr;
  }

  /** For each place from which whole runs lie ahead, what the block decodes to from there. */
  ghost function Rests(b: seq<byte>): (m: map<int, seq<byte>>)
    ensures forall i {:trigger RestAt(b, m, i)} | 0 <= i <= |b| :: RestAt(b, m, i)
  {
    map i | 0 <= i <= |b| && RunsFrom(b, i) :: Rest(b, i)
  }

  ghost predicate RestAt(b: seq<byte>, m: map<int, seq<byte>>, i: nat) {
    (i in m <==> RunsFrom(b, i)) && (i in m ==> m[i] == Rest(b, i))
  }

  ghost predicate RestTable(b: seq<byte>, m: map<int, seq<byte>>) {
    forall i {:trigger RestAt(b, m, i)} | 0 <= i <= |b| :: RestAt(b, m, i)
  }

  /** A whole number of runs lies ahead, and k0 is the byte read last unless the block is used up. */
  ghost predicate Between(b: seq<byte>, rests: map<int, seq<byte>>, used: nat, k0: byte) {
    1 <= used <= |b| + 1 && used - 1 in rests && (used <= |b| ==> k0 == b[used - 1])
  }

  /** The part of the decoder's state that the output stage uses. */
  class DState {
    // the sorted block, in the form the smallDecompress flag chose; read only here
    const tt: array<int>
    const vector: PackedVector
    const cftab: array<int>
    const small: bool
    const nblock: nat
    const blockSize100k: nat
    const tab: Table
    ghost const block: seq<byte>
    ghost const last: seq<byte>
    ghost const order: seq<int>
    ghost const origPtr: int
    ghost const entries: seq<int>
    ghost const starts: seq<int>
    ghost const cycle: set<int>
    ghost const rests: map<int, seq<byte>>
    // the walk
    var tPos: int
    var k0: byte
    var nblockUsed: nat
    // the run being written, and the checksum of what was written
    var stateOutCh: byte
    var stateOutLen: nat
    var calculatedBlockCRC: bv32

    /** The vector in entries is the one that spells the block. */
    ghost predicate Fixed() {
      Spells(block, last, order, origPtr) && |last| == nblock <= 100_000 * blockSize100k && nblock <= |entries| && RestTable(block, rests) &&
      if small then Heads(starts, last, order) && Reversed(order, entries, origPtr, cycle)
      else Threaded(entries, last, order)
    }

    /** The arrays still hold entries. */
    ghost predicate Stored()
      reads tt, cftab, vector, vector.ll16, vector.ll4
    {
      if small then vector.Valid() && vector.Entries == entries && cftab[..] == starts
      else tt[..] == entries
    }

    /** The row the walk stands on once it has delivered `read` bytes. */
    ghost function Row(read: nat): int
      requires Fixed()
    {
      Walk(order, origPtr, if small then read else read + 1)
    }

    /** The block is unsorted through tt: what BZ2_decompress sets up once tt is threaded. */
    constructor Fast(tt: array<int>, nblock: nat, origPtr: nat, blockSize100k: nat, tab: Table,
                     ghost block: seq<byte>, ghost last: seq<byte>, ghost order: seq<int>)
      requires Spells(block, last, order, origPtr) && |last| == nblock <= 100_000 * blockSize100k
      requires nblock <= tt.Length && Threaded(tt[..], last, order) && RunsFrom(block, 0)
      ensures Valid() && Pending() == Rest(block, 0) && this.block == block && this.tab == tab
      ensures !small && calculatedBlockCRC == CRC_INITIAL && this.tt == tt
      ensures fresh(cftab) && fresh(vector) && fresh(vector.ll16) && fresh(vector.ll4)
    {
      var unused := new PackedVector(0);
      this.tt, this.vector, this.cftab, this.small := tt, unused, new int[0], false;
      this.nblock, this.blockSize100k, this.tab := nblock, blockSize100k, tab;
      this.block, this.last, this.order, this.origPtr, this.cycle := block, last, order, origPtr, {};
      this.rests := Rests(block);
      this.entries, this.starts := tt[..], [];
      stateOutLen, stateOutCh, calculatedBlockCRC := 0, 0, CRC_INITIAL;
      nblockUsed := 0;
      tPos := HighPart(tt[origPtr]);
      k0 := 0;
      new;
      FirstRow(entries, last, order, origPtr);
      var corrupt;
      corrupt, k0 := GetFast(0);
      nblockUsed := 1;
      assert RestAt(block, rests, 0);
    }

    /** The block is unsorted through the vector reversed along the cycle of origPtr. */
    constructor Small(vector: PackedVector, cftab: array<int>, nblock: nat, origPtr: nat, blockSize100k: nat, tab: Table,
                      ghost block: seq<byte>, ghost last: seq<byte>, ghost order: seq<int>, ghost cycle: set<int>)
      requires Spells(block, last, order, origPtr) && |last| == nblock <= 100_000 * blockSize100k
      requires vector.Valid() && nblock <= |vector.Entries| && |last| == |order| && InRange(order, |order|)
      requires Heads(cftab[..], last, order) && Reversed(order, vector.Entries, origPtr, cycle) && RunsFrom(block, 0)
      ensures Valid() && Pending() == Rest(block, 0) && this.block == block && this.tab == tab
      ensures small && calculatedBlockCRC == CRC_INITIAL && this.vector == vector && this.cftab == cftab && fresh(tt)
    {
      this.tt, this.vector, this.cftab, this.small := new int[0], vector, cftab, true;
      this.nblock, this.blockSize100k, this.tab := nblock, blockSize100k, tab;
      this.block, this.last, this.order, this.origPtr, this.cycle := block, last, order, origPtr, cycle;
      this.rests := Rests(block);
      this.entries, this.starts := vector.Entries, cftab[..];
      stateOutLen, stateOutCh, calculatedBlockCRC := 0, 0, CRC_INITIAL;
      nblockUsed := 0;
      tPos := origPtr;
      k0 := 0;
      new;
      var corrupt;
      corrupt, k0 := GetSmall(0);
      nblockUsed := 1;
      assert RestAt(block, rests, 0);
    }

    ghost predicate Valid()
      reads this, tt, cftab, vector, vector.ll16, vector.ll4
    {
      Fixed() && Stored() && tPos == Row(nblockUsed) && Between(block, rests, nblockUsed, k0)
    }

    ghost function Pending(): seq<byte>
      requires Valid()
      reads this, tt, cftab, vector, vector.ll16, vector.ll4
    {
      Repeat(stateOutCh, stateOutLen) + rests[nblockUsed - 1]
    }

    /** All of the block is out exactly when every byte has been read and no run is left. */
    lemma AllHandedOut()
      requires Valid()
      ensures Pending() == [] <==> nblockUsed == nblock + 1 && stateOutLen == 0
    {
      assert RestAt(block, rests, nblockUsed - 1);
      if nblockUsed - 1 < |block| {
        assert block[nblockUsed - 1..] != [];
      }
    }

    /** BZ_GET_FAST. */
    method GetFast(ghost read: nat) returns (corrupt: bool, c: byte)
      requires Fixed() && Stored() && !small && tPos == Row(read)
      modifies this`tPos
      ensures !corrupt && tPos == Row(read + 1) && (read < nblock ==> c == block[read])
    {
      assert WalkByte(last, order, origPtr, read) == Rot(block, read, 0);
      if read < nblock { RotInside(block, read); }
      c := 0;
      if tPos >= 100_000 * blockSize100k { return true, c; }
      PackedParts(last[tPos], order[tPos]);
      tPos := tt[tPos];
      c := LowByte(tPos);
      tPos := HighPart(tPos);
      corrupt := false;
    }

    lemma {:induction false} WalkStaysOnCycle(j: nat)
      requires Fixed() && small
      ensures Walk(order, origPtr, j) in cycle
    {
      if j > 0 { WalkStaysOnCycle(j - 1); }
    }

    /** BZ_GET_SMALL: the byte comes from the first column, before the step. */
    method GetSmall(ghost read: nat) returns (corrupt: bool, c: byte)
      requires Fixed() && Stored() && small && tPos == Row(read)
      modifies this`tPos
      ensures !corrupt && tPos == Row(read + 1) && (read < nblock ==> c == block[read])
    {
      assert WalkByte(last, order, origPtr, read) == Rot(block, read, 0);
      if read < nblock { RotInside(block, read); }
      WalkStaysOnCycle(read);
      c := 0;
      if tPos >= 100_000 * blockSize100k { return true, c; }
      var nb := IndexIntoF(tPos, cftab);
      c := nb;
      tPos := vector.Get(tPos);
      corrupt := false;
    }

    /** Writes one more copy of the run's byte. */
    method Emit(out: seq<byte>, ghost crc0: bv32) returns (more: seq<byte>)
      requires out == Repeat(stateOutCh, |out|) && calculatedBlockCRC == Fold(tab, crc0, out)
      modifies this`calculatedBlockCRC
      ensures more == Repeat(stateOutCh, |out| + 1) && calculatedBlockCRC == Fold(tab, crc0, more)
    {
      FoldSnoc(tab, crc0, out, stateOutCh);
      more := out + [stateOutCh];
      calculatedBlockCRC := Update(tab, calculatedBlockCRC, stateOutCh);
    }

    /** Writes the open run as far as there is room. */
    method FinishRun(availOut: nat) returns (out: seq<byte>)
      modifies this`stateOutLen, this`calculatedBlockCRC
      ensures out == Repeat(stateOutCh, if availOut < old(stateOutLen) then availOut else old(stateOutLen))
      ensures stateOutLen == old(stateOutLen) - |out|
      ensures calculatedBlockCRC == Fold(tab, old(calculatedBlockCRC), out)
    {
      out := [];
      while |out| < availOut && stateOutLen != 0
        invariant |out| <= availOut && stateOutLen == old(stateOutLen) - |out|
        invariant out == Repeat(stateOutCh, |out|)
        invariant calculatedBlockCRC == Fold(tab, old(calculatedBlockCRC), out)
      {
        out := Emit(out, old(calculatedBlockCRC));
        stateOutLen := stateOutLen - 1;
      }
    }

    /** Reads the next run of the block, up to and including the byte after it. */
    method ReadRunSmall() returns (corrupt: bool)
      requires Fixed() && Stored() && small && 1 <= nblockUsed <= nblock && tPos == Row(nblockUsed)
      requires k0 == block[nblockUsed - 1] && CountFollows(block, nblockUsed - 1)
      modifies this`tPos, this`k0, this`nblockUsed, this`stateOutCh, this`stateOutLen
      ensures !corrupt && tPos == Row(nblockUsed)
      ensures RunRead(block, old(nblockUsed) - 1, nblockUsed, k0, stateOutCh, stateOutLen)
    {
      hide Fold, RunsFrom, Rest, RestTable, RestAt, Repeat;
      var k, used, len := k0, nblockUsed, 1;
      var k1;
      label Run: {
        corrupt, k1 := GetSmall(used);
        used := used + 1;
        if used == nblock + 1 { break Run; }
        if k1 != k { k := k1; break Run; }
        len := 2;
        corrupt, k1 := GetSmall(used);
        used := used + 1;
        if used == nblock + 1 { break Run; }
        if k1 != k { k := k1; break Run; }
        len := 3;
        corrupt, k1 := GetSmall(used);
        used := used + 1;
        if used == nblock + 1 { break Run; }
        if k1 != k { k := k1; break Run; }
        corrupt, k1 := GetSmall(used);
        used := used + 1;
        len := (k1 as int) + 4;
        corrupt, k := GetSmall(used);
        used := used + 1;
      }
      stateOutCh, stateOutLen, k0, nblockUsed := k0, len, k, used;
    }

    /** One round of the small output loop: finish the open run, then read the next one. */
    method RoundSmall(availOut: nat) returns (stop: bool, corrupt: bool, run: seq<byte>)
      requires Valid() && small
      modifies this`tPos, this`k0, this`nblockUsed, this`stateOutCh, this`stateOutLen, this`calculatedBlockCRC
      ensures !corrupt && Valid() && run + Pending() == old(Pending()) && |run| <= availOut
      ensures if stop then |run| == availOut || Pending() == [] else nblockUsed > old(nblockUsed)
      ensures calculatedBlockCRC == Fold(tab, old(calculatedBlockCRC), run)
    {
      hide Fold, RunsFrom, Rest, RestTable, RestAt, Repeat;
      ghost var i, len, whole := nblockUsed - 1, stateOutLen, Pending();
      run := FinishRun(availOut);
      RepeatSplit(stateOutCh, |run|, len, rests[i]);
      if |run| == availOut { return true, false, run; }
      NothingAtEnd(block, rests);
      if nblockUsed == nblock + 1 { return true, false, run; }
      if nblockUsed > nblock + 1 { return true, true, run; }
      CountMustFollow(block, rests, i);
      corrupt := ReadRunSmall();
      if corrupt { return true, true, run; }
      stop := false;
      RunReadAdvances(block, rests, i, nblockUsed, k0, stateOutCh, stateOutLen);
    }

    /** unRLE_obuf_to_output_SMALL: the next bytes of the block, as many as fit. */
    method UnRleSmall(availOut: nat) returns (corrupt: bool, out: seq<byte>)
      requires Valid() && small
      modifies this`tPos, this`k0, this`nblockUsed, this`stateOutCh, this`stateOutLen, this`calculatedBlockCRC
      ensures !corrupt && Valid() && out + Pending() == old(Pending())
      ensures |out| == Min(availOut, |old(Pending())|)
      ensures calculatedBlockCRC == Fold(tab, old(calculatedBlockCRC), out)
    {
      out := [];
      ghost var whole, todo, crc0 := Pending(), Pending(), calculatedBlockCRC;
      while true
        invariant Valid() && todo == Pending() && out + todo == whole && |out| <= availOut
        invariant calculatedBlockCRC == Fold(tab, crc0, out)
        decreases nblock + 1 - nblockUsed
      {
        var stop, run;
        stop, corrupt, run := RoundSmall(availOut - |out|);
        todo := Pending();
        Assoc(out, run, todo);
        FoldAppend(tab, crc0, out, run);
        out := out + run;
        if stop { return; }
      }
    }

    /** The length of the open run; at the label s_state_out_len_eq_one the field itself is stale. */
    ghost function Open(atOne: bool): nat
      reads this`stateOutLen
    {
      if atOne then 1 else stateOutLen
    }

    ghost function PendingFast(atOne: bool): seq<byte>
      requires Valid()
      reads this, tt, cftab, vector, vector.ll16, vector.ll4
    {
      Repeat(stateOutCh, Open(atOne)) + rests[nblockUsed - 1]
    }

    /** Writes the open run: all but its last byte in a loop, the last at the label eq_one. */
    method FinishRunFast(availOut: nat, atOne: bool) returns (stop: bool, out: seq<byte>)
      modifies this`stateOutLen, this`calculatedBlockCRC
      ensures out == Repeat(stateOutCh, Min(availOut, old(Open(atOne))))
      ensures stop <==> |out| < old(Open(atOne))
      ensures stop ==> |out| == availOut && stateOutLen == old(Open(atOne)) - |out|
      ensures calculatedBlockCRC == Fold(tab, old(calculatedBlockCRC), out)
    {
      out := [];
      if !atOne {
        if stateOutLen == 0 { return false, out; }
        while true
          invariant 1 <= stateOutLen == old(stateOutLen) - |out| && |out| <= availOut
          invariant out == Repeat(stateOutCh, |out|)
          invariant calculatedBlockCRC == Fold(tab, old(calculatedBlockCRC), out)
          decreases stateOutLen
        {
          if |out| == availOut { return true, out; }
          if stateOutLen == 1 { break; }
          out := Emit(out, old(calculatedBlockCRC));
          stateOutLen := stateOutLen - 1;
        }
      }
      if |out| == availOut { stateOutLen := 1; return true, out; }
      out := Emit(out, old(calculatedBlockCRC));
      stop := false;
    }

    /** Reads the next run; a run of one goes straight to eq_one without setting the length. */
    method ReadRunFast() returns (corrupt: bool, atOne: bool)
      requires Fixed() && Stored() && !small && 1 <= nblockUsed <= nblock && tPos == Row(nblockUsed)
      requires k0 == block[nblockUsed - 1] && CountFollows(block, nblockUsed - 1)
      modifies this`tPos, this`k0, this`nblockUsed, this`stateOutCh, this`stateOutLen
      ensures !corrupt && tPos == Row(nblockUsed)
      ensures RunRead(block, old(nblockUsed) - 1, nblockUsed, k0, stateOutCh, Open(atOne))
    {
      hide Fold, RunsFrom, Rest, RestTable, RestAt, Repeat;
      var k, used, len := k0, nblockUsed, stateOutLen;
      var k1;
      atOne := false;
      label Run: {
        corrupt, k1 := GetFast(used);
        used := used + 1;
        if k1 != k { k := k1; atOne := true; break Run; }
        if used == nblock + 1 { atOne := true; break Run; }
        len := 2;
        corrupt, k1 := GetFast(used);
        used := used + 1;
        if used == nblock + 1 { break Run; }
        if k1 != k { k := k1; break Run; }
        len := 3;
        corrupt, k1 := GetFast(used);
        used := used + 1;
        if used == nblock + 1 { break Run; }
        if k1 != k { k := k1; break Run; }
        corrupt, k1 := GetFast(used);
        used := used + 1;
        len := (k1 as int) + 4;
        corrupt, k := GetFast(used);
        used := used + 1;
      }
      stateOutCh, stateOutLen, k0, nblockUsed := k0, len, k, used;
    }

    method RoundFast(availOut: nat, atOne: bool) returns (stop: bool, corrupt: bool, run: seq<byte>, next: bool)
      requires Valid() && !small
      modifies this`tPos, this`k0, this`nblockUsed, this`stateOutCh, this`stateOutLen, this`calculatedBlockCRC
      ensures !corrupt && Valid() && run + PendingFast(next) == old(PendingFast(atOne)) && |run| <= availOut
      ensures if stop then !next && (|run| == availOut || Pending() == []) else nblockUsed > old(nblockUsed)
      ensures calculatedBlockCRC == Fold(tab, old(calculatedBlockCRC), run)
    {
      hide Fold, RunsFrom, Rest, RestTable, RestAt, Repeat;
      ghost var i, open := nblockUsed - 1, Open(atOne);
      next, corrupt := false, false;
      stop, run := FinishRunFast(availOut, atOne);
      RepeatSplit(stateOutCh, |run|, open, rests[i]);
      if stop { return; }
      NothingAtEnd(block, rests);
      if nblockUsed > nblock + 1 { return true, true, run, false; }
      if nblockUsed == nblock + 1 { stateOutLen := 0; return true, false, run, false; }
      CountMustFollow(block, rests, i);
      corrupt, next := ReadRunFast();
      if corrupt { return true, true, run, next; }
      stop := false;
      RunReadAdvances(block, rests, i, nblockUsed, k0, stateOutCh, Open(next));
    }

    /** unRLE_obuf_to_output_FAST: the same contract as UnRleSmall. */
    method UnRleFast(availOut: nat) returns (corrupt: bool, out: seq<byte>)
      requires Valid() && !small
      modifies this`tPos, this`k0, this`nblockUsed, this`stateOutCh, this`stateOutLen, this`calculatedBlockCRC
      ensures !corrupt && Valid() && out + Pending() == old(Pending())
      ensures |out| == Min(availOut, |old(Pending())|)
      ensures calculatedBlockCRC == Fold(tab, old(calculatedBlockCRC), out)
    {
      out := [];
      var atOne := false;
      ghost var whole, todo, crc0 := Pending(), Pending(), calculatedBlockCRC;
      while true
        invariant Valid() && todo == PendingFast(atOne) && out + todo == whole && |out| <= availOut
        invariant calculatedBlockCRC == Fold(tab, crc0, out)
        decreases nblock + 1 - nblockUsed
      {
        var stop, run;
        stop, corrupt, run, atOne := RoundFast(availOut - |out|, atOne);
        todo := PendingFast(atOne);
        Assoc(out, run, todo);
        FoldAppend(tab, crc0, out, run);
        out := out + run;
        if stop { return; }
      }
    }
  }

  function Min(a: nat, b: nat): nat { if a < b then a else b }

  lemma RepeatSplit(ch: byte, m: nat, n: nat, rest: seq<byte>)
    requires m <= n
    ensures Repeat(ch, n) + rest == Repeat(ch, m) + (Repeat(ch, n - m) + rest)
  {
  }

  lemma NothingAtEnd(b: seq<byte>, rests: map<int, seq<byte>>)
    requires RestTable(b, rests)
    ensures |b| in rests ==> rests[|b|] == []
  {
    assert RestAt(b, rests, |b|);
  }

  /** If four equal bytes start at i, a count follows. */
  ghost predicate CountFollows(b: seq<byte>, i: nat)
    requires i < |b|
  {
    i + 4 <= |b| && b[i + 1] == b[i] && b[i + 2] == b[i] && b[i + 3] == b[i] ==> i + 4 < |b|
  }

  lemma CountMustFollow(b: seq<byte>, rests: map<int, seq<byte>>, i: nat)
    requires i < |b| && RestTable(b, rests) && i in rests
    ensures CountFollows(b, i)
  {
    assert RestAt(b, rests, i);
    if i + 4 <= |b| && b[i + 1] == b[i] && b[i + 2] == b[i] && b[i + 3] == b[i] {
      LongRunAt(b, i);
    }
  }

  /** What a decoder knows when it has read one run at i: it holds len copies of ch, and k0 is the byte after. */
  ghost predicate RunRead(b: seq<byte>, i: nat, used: nat, k0: byte, ch: byte, len: nat)
    requires i < |b|
  {
    ch == b[i] &&
    if len < 4 then
      1 <= len && used == i + len + 1 <= |b| + 1 &&
      (len >= 2 ==> b[i + 1] == b[i]) && (len >= 3 ==> b[i + 2] == b[i]) &&
      (used <= |b| ==> b[i + len] != b[i] && k0 == b[i + len])
    else
      i + 4 < |b| && b[i + 1] == b[i] && b[i + 2] == b[i] && b[i + 3] == b[i] && len == (b[i + 4] as int) + 4 &&
      used == i + 6 && (used <= |b| ==> k0 == b[i + 5])
  }

  lemma ShortRunRead(b: seq<byte>, rests: map<int, seq<byte>>, i: nat, used: nat, k0: byte, ch: byte, len: nat)
    requires i < |b| && RestTable(b, rests) && i in rests && RunRead(b, i, used, k0, ch, len) && len < 4
    ensures used > i + 1 && Between(b, rests, used, k0) && Repeat(ch, len) + rests[used - 1] == rests[i]
  {
    hide RunsFrom, Rest, Repeat;
    assert RestAt(b, rests, i) && RestAt(b, rests, used - 1);
    ShortRunAt(b, i, len);
  }

  lemma RunReadAdvances(b: seq<byte>, rests: map<int, seq<byte>>, i: nat, used: nat, k0: byte, ch: byte, len: nat)
    requires i < |b| && RestTable(b, rests) && i in rests && RunRead(b, i, used, k0, ch, len)
    ensures used > i + 1 && Between(b, rests, used, k0) && Repeat(ch, len) + rests[used - 1] == rests[i]
  {
    if len < 4 {
      ShortRunRead(b, rests, i, used, k0, ch, len);
    } else {
      assert RestAt(b, rests, i) && RestAt(b, rests, used - 1);
      LongRunAt(b, i);
    }
  }
}
