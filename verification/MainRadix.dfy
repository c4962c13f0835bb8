// The start of the main sort: count the two-byte keys and drop the positions into their buckets, last position first.
module MainRadix {
  import opened Permutations
  import opened Rotations
  import opened Counting
  import opened Radix
  import opened MainCompare
  import opened SmallBuckets

  /** The keys as the loops meet them, from the last position down. */
  ghost function Backward(l: seq<int>): seq<int> {
    seq(|l|, k requires 0 <= k < |l| => l[|l| - 1 - k])
  }

  /** Positions counted from the end. */
  ghost function Mirror(t: seq<int>): seq<int> {
    seq(|t|, k requires 0 <= k < |t| => |t| - 1 - t[k])
  }

  lemma BackwardCounts(l: seq<int>, c: nat)
    ensures CountBelow(Backward(l), c) == CountBelow(l, c)
  {
    var f := seq(|l|, k => |l| - 1 - k);
    assert IsPermutation(f);
    SelectPermutation(l, f);
    assert Select(l, f) == Backward(l);
    SameCounts(l, Backward(l), c);
  }

  lemma {:induction false} SameCounts(l: seq<int>, l': seq<int>, c: nat)
    requires multiset(l) == multiset(l')
    ensures CountBelow(l, c) == CountBelow(l', c)
  {
    if c > 0 { SameCounts(l, l', c - 1); }
  }

  lemma MirrorListing(b: seq<byte>, f: seq<int>)
    requires b != [] && |f| == |b| && BucketListing(Backward(PairKeys(b)), 65536, Mirror(f))
    ensures Listing(b, f)
  {
    var l, t := PairKeys(b), Mirror(f);
    forall k | 0 <= k < |f| ensures 0 <= f[k] < |f| && f[k] == |f| - 1 - t[k] {
      assert t[k] == |f| - 1 - f[k];
    }
    forall i, j | 0 <= i < j < |f| ensures f[i] != f[j] {
      assert t[i] != t[j];
    }
    forall c, s | 0 <= c < 65536 && InBucket(l, c, s) ensures 0 <= s < |l| && l[f[s]] == c {
      BackwardCounts(l, c);
      BackwardCounts(l, c + 1);
      assert InBucket(Backward(l), c, s);
    }
  }

  /** The key of position i, from the one after it. */
  lemma KeyRolls(b: seq<byte>, j: int, i: nat, c: int)
    requires b != [] && i < |b| && c == b[i] && 0 <= j < 65536 && j / 256 == Rot(b, i + 1, 0)
    ensures j / 256 + c * 256 == PairKey(b, i) == Backward(PairKeys(b))[|b| - 1 - i]
  {
    WrapOnce(i, |b|);
  }

  /** Count the keys, clear the quadrants and repeat the first bytes behind the block. */
  method Frequencies(block: array<int>, quadrant: array<int>, ftab: array<int>, nblock: nat, ghost b: seq<byte>)
    requires block != quadrant && block != ftab && quadrant != ftab && ftab.Length == 65537
    requires nblock > N_OVERSHOOT && block.Length == quadrant.Length == nblock + N_OVERSHOOT && block[..nblock] == b
    modifies block, quadrant, ftab
    ensures block[..nblock] == b && Extended(b, block[..])
    ensures forall x {:trigger quadrant[x]} | 0 <= x < quadrant.Length :: quadrant[x] == 0
    ensures Counts(ftab[..], Backward(PairKeys(b)), nblock, 65536) && ftab[65536] == 0
  {
    hide Backward, PairKeys, Extended, Counts;
    for c := 65537 downto 0
      invariant forall x {:trigger ftab[x]} | c <= x < 65537 :: ftab[x] == 0
      invariant block[..nblock] == b
    {
      ftab[c] := 0;
    }
    CountKeys(block, quadrant, ftab, nblock, b);
    Overshoot(block, quadrant, nblock, b);
  }

  /** Entry x of the block, extended cyclically. */
  ghost predicate Repeats(b: seq<byte>, block: seq<int>, n: nat)
    requires b != []
  {
    n <= |block| && forall x {:trigger block[x]} | 0 <= x < n :: block[x] == Rot(b, x, 0)
  }

  lemma RepeatsNext(b: seq<byte>, block: seq<int>, i: nat)
    requires i < |b| && |b| + i < |block| && Repeats(b, block, |b| + i)
    ensures Repeats(b, block[|b| + i := block[i]], |b| + i + 1)
  {
    WrapOnce(|b| + i, |b|);
    WrapOnce(i, |b|);
    assert block[i] == Rot(b, i, 0);
  }

  lemma RepeatsStart(b: seq<byte>, block: seq<int>)
    requires b != [] && |b| <= |block| && block[..|b|] == b
    ensures Repeats(b, block, |b|)
  {
    forall x | 0 <= x < |b| ensures block[x] == Rot(b, x, 0) {
      WrapOnce(x, |b|);
      assert block[x] == block[..|b|][x];
    }
  }

  method Overshoot(block: array<int>, quadrant: array<int>, nblock: nat, ghost b: seq<byte>)
    requires block != quadrant && nblock > N_OVERSHOOT && block.Length == quadrant.Length == nblock + N_OVERSHOOT
    requires block[..nblock] == b && forall x {:trigger quadrant[x]} | 0 <= x < nblock :: quadrant[x] == 0
    modifies block, quadrant
    ensures block[..nblock] == b && Extended(b, block[..])
    ensures forall x {:trigger quadrant[x]} | 0 <= x < quadrant.Length :: quadrant[x] == 0
  {
    hide Repeats, Rot;
    RepeatsStart(b, block[..]);
    for i := 0 to N_OVERSHOOT
      invariant block[..nblock] == b && Repeats(b, block[..], nblock + i)
      invariant forall x {:trigger quadrant[x]} | 0 <= x < nblock + i :: quadrant[x] == 0
    {
      ghost var bl := block[..];
      RepeatsNext(b, bl, i);
      block[nblock + i] := block[i];
      quadrant[nblock + i] := 0;
      assert block[..] == bl[nblock + i := bl[i]];
      assert block[..nblock] == bl[..nblock];
    }
    RepeatsAll(b, block[..]);
  }

  lemma RepeatsAll(b: seq<byte>, block: seq<int>)
    requires |b| > N_OVERSHOOT && |block| == |b| + N_OVERSHOOT && Repeats(b, block, |block|)
    ensures Extended(b, block)
  {
  }

  method CountKeys(block: array<int>, quadrant: array<int>, ftab: array<int>, nblock: nat, ghost b: seq<byte>)
    requires block != quadrant && block != ftab && quadrant != ftab && ftab.Length == 65537
    requires 0 < nblock <= block.Length == quadrant.Length && block[..nblock] == b
    requires forall x {:trigger ftab[x]} | 0 <= x < 65537 :: ftab[x] == 0
    modifies quadrant, ftab
    ensures forall x {:trigger quadrant[x]} | 0 <= x < nblock :: quadrant[x] == 0
    ensures Counts(ftab[..], Backward(PairKeys(b)), nblock, 65536) && ftab[65536] == 0
  {
    hide Counts, PairKeys, Backward, Rot;
    ghost var l := Backward(PairKeys(b));
    CountsStart(b, ftab[..]);
    FirstByte(b);
    var j := block[0] * 256;
    for i := nblock downto 0
      invariant 0 <= j < 65536 && j / 256 == Rot(b, i, 0)
      invariant forall x {:trigger quadrant[x]} | i <= x < nblock :: quadrant[x] == 0
      invariant |l| == nblock && Counts(ftab[..], l, nblock - i, 65536) && ftab[65536] == 0
    {
      quadrant[i] := 0;
      KeyRolls(b, j, i, block[i]);
      ByteAt(b, i);
      j := j / 256 + block[i] * 256;
      ghost var cc := ftab[..];
      BackwardKeys(b);
      CountNext(cc, l, nblock - 1 - i, 65536);
      ftab[j] := ftab[j] + 1;
      assert ftab[..] == cc[j := cc[j] + 1];
    }
  }

  lemma FirstByte(b: seq<byte>)
    requires b != []
    ensures Rot(b, |b|, 0) == b[0]
  {
    WrapOnce(|b|, |b|);
  }

  lemma ByteAt(b: seq<byte>, i: nat)
    requires i < |b|
    ensures Rot(b, i, 0) == b[i]
  {
    WrapOnce(i, |b|);
  }

  lemma BackwardKeys(b: seq<byte>)
    requires b != []
    ensures Keys(Backward(PairKeys(b)), 65536) && |Backward(PairKeys(b))| == |b|
  {
    var l := PairKeys(b);
    forall k | 0 <= k < |l| ensures 0 <= Backward(l)[k] < 65536 {
      assert Backward(l)[k] == l[|l| - 1 - k];
    }
  }

  lemma CountsStart(b: seq<byte>, ft: seq<int>)
    requires b != [] && |ft| == 65537 && forall x {:trigger ft[x]} | 0 <= x < 65537 :: ft[x] == 0
    ensures |Backward(PairKeys(b))| == |b| && Counts(ft, Backward(PairKeys(b)), 0, 65536)
  {
    assert Backward(PairKeys(b))[..0] == [];
  }

  /** Where each bucket's pointer stands. */
  ghost predicate Pointers(ft: seq<int>, l: seq<int>, i: nat)
    requires i <= |l|
  {
    |ft| == 65537 && forall c {:trigger ft[c]} | 0 <= c < 65536 :: ft[c] == Pointer(l, i, c)
  }

  lemma PointersNext(ft: seq<int>, l: seq<int>, i: nat)
    requires i < |l| && Keys(l, 65536) && Pointers(ft, l, i)
    ensures Pointers(ft[l[i] := ft[l[i]] - 1], l, i + 1)
  {
    var m, ft' := i + 1, ft[l[i] := ft[l[i]] - 1];
    forall c | 0 <= c < 65536 ensures ft'[c] == Pointer(l, m, c) {
      PointerMoves(l, 65536, i, c);
    }
  }

  /** Drop the positions; each bucket's entry of ftab ends at its start. */
  method DropPairs(block: array<int>, ptr: array<int>, ftab: array<int>, nblock: nat, ghost b: seq<byte>)
    requires ptr != block && ptr != ftab && block != ftab && 0 < nblock <= block.Length && block[..nblock] == b
    requires ptr.Length == nblock && Pointers(ftab[..], Backward(PairKeys(b)), 0) && ftab[65536] == nblock
    modifies ptr, ftab
    ensures Listing(b, ptr[..])
    ensures ftab.Length == 65537 && forall c {:trigger ftab[c]} | 0 <= c < 65537 :: ftab[c] == Edge(b, c)
  {
    hide Pointers, PairKeys, Backward, Rot, Dropped, Listing;
    ghost var l := Backward(PairKeys(b));
    BackwardKeys(b);
    DroppedNone(l, Mirror(ptr[..]));
    FirstByte(b);
    PointersLength(ftab[..], l, 0);
    var s := block[0] * 256;
    for i := nblock downto 0
      invariant 0 <= s < 65536 && s / 256 == Rot(b, i, 0)
      invariant Pointers(ftab[..], l, nblock - i) && Dropped(l, 65536, nblock - i, Mirror(ptr[..])) && ftab[65536] == nblock
    {
      KeyRolls(b, s, i, block[i]);
      ByteAt(b, i);
      s := s / 256 + block[i] * 256;
      ghost var ft, t := ftab[..], ptr[..];
      DropStep(l, 65536, nblock - 1 - i, Mirror(t));
      PointerAt(ft, l, nblock - 1 - i, s);
      PointersNext(ft, l, nblock - 1 - i);
      var j := ftab[s] - 1;
      ftab[s] := j;
      ptr[j] := i;
      assert ftab[..] == ft[s := ft[s] - 1];
      assert Mirror(ptr[..]) == Mirror(t)[j := nblock - 1 - i];
    }
    DroppedAll(l, 65536, Mirror(ptr[..]));
    MirrorListing(b, ptr[..]);
    EdgesReached(b, ftab[..]);
  }

  lemma DroppedNone(l: seq<int>, t: seq<int>)
    requires Keys(l, 65536) && |t| == |l|
    ensures Dropped(l, 65536, 0, t)
  {
    assert l[..0] == [];
  }

  lemma PointersLength(ft: seq<int>, l: seq<int>, i: nat)
    requires i <= |l| && Pointers(ft, l, i)
    ensures |ft| == 65537
  {
  }

  lemma PointerAt(ft: seq<int>, l: seq<int>, i: nat, c: nat)
    requires i <= |l| && Pointers(ft, l, i) && c < 65536
    ensures |ft| == 65537 && ft[c] == Pointer(l, i, c)
  {
  }

  lemma EdgesReached(b: seq<byte>, ft: seq<int>)
    requires b != [] && |Backward(PairKeys(b))| == |b| && Pointers(ft, Backward(PairKeys(b)), |b|) && ft[65536] == |b|
    ensures forall c {:trigger ft[c]} | 0 <= c < 65537 :: ft[c] == Edge(b, c)
  {
    EdgeEnds(b);
    forall c | 0 <= c < 65536 ensures ft[c] == Edge(b, c) {
      PointersEnd(Backward(PairKeys(b)), c);
      BackwardCounts(PairKeys(b), c);
    }
  }

  /** The two passes together. */
  method ListPairs(block: array<int>, quadrant: array<int>, ptr: array<int>, ftab: array<int>, nblock: nat,
                   ghost b: seq<byte>)
    requires block != quadrant && block != ftab && quadrant != ftab && ptr !in {block, quadrant, ftab}
    requires ftab.Length == 65537
    requires nblock > N_OVERSHOOT && block.Length == quadrant.Length == nblock + N_OVERSHOOT && block[..nblock] == b
    requires ptr.Length == nblock
    modifies block, quadrant, ptr, ftab
    ensures block[..nblock] == b && Extended(b, block[..]) && Quadrants(b, quadrant[..])
    ensures Listing(b, ptr[..])
    ensures forall c {:trigger ftab[c]} | 0 <= c < 65537 :: ftab[c] == Edge(b, c)
  {
    hide Listing, Edge, Extended, Counts;
    Frequencies(block, quadrant, ftab, nblock, b);
    NoQuadrants(b, quadrant[..]);
    BackwardKeys(b);
    RunningCounts(ftab, 65536, Backward(PairKeys(b)));
    CountBelowAll(Backward(PairKeys(b)), 65536);
    DropPairs(block, ptr, ftab, nblock, b);
  }

  lemma NoQuadrants(b: seq<byte>, q: seq<int>)
    requires |b| > N_OVERSHOOT && |q| == |b| + N_OVERSHOOT && forall x {:trigger q[x]} | 0 <= x < |q| :: q[x] == 0
    ensures Quadrants(b, q)
  {
  }
}
