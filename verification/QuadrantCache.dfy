// Step 3 of the main sort's round: the order found in a finished big bucket is cached, at 16 bits, in the quadrants
// of its positions, for later comparisons to use.
module QuadrantCache {
  import opened Permutations
  import opened Rotations
  import opened RotOrder
  import opened BitIO
  import opened MainCompare
  import opened MainSimpleSort
  import opened SmallBuckets
  import opened CopyScan

  lemma {:induction false} ShrNext(v: nat, n: nat)
    ensures Shr(v, n + 1) == Shr(v, n) / 2
  {
    if n > 0 { ShrNext(v / 2, n - 1); }
  }

  lemma {:induction false} ShrMonotone(v: nat, w: nat, n: nat)
    requires v <= w
    ensures Shr(v, n) <= Shr(w, n)
  {
    if n > 0 { ShrMonotone(v / 2, w / 2, n - 1); }
  }

  /** The rank of a row within its big bucket is what its quadrant shows, here and behind the block. */
  ghost predicate RankedAt(q: seq<int>, n: nat, x: int, rank: int) {
    0 <= x < n && |q| == n + N_OVERSHOOT && q[x] == rank && (x < N_OVERSHOOT ==> q[x + n] == rank)
  }

  ghost predicate Ranked(b: seq<byte>, f: seq<int>, q: seq<int>, ss: nat, shifts: nat, from: int)
    requires b != []
  {
    0 <= Big(b, ss) <= Big(b, ss + 1) <= |f| == |b| && 0 <= from &&
    forall p {:trigger f[p]} | Big(b, ss) + from <= p < Big(b, ss + 1) :: RankedAt(q, |b|, f[p], Shr(p - Big(b, ss), shifts))
  }

  /** The quadrants of other bytes are as they were. */
  ghost predicate OthersKept(b: seq<byte>, q0: seq<int>, q: seq<int>, ss: nat)
    requires b != []
  {
    |q0| == |q| == |b| + N_OVERSHOOT && forall x {:trigger q[x]} | 0 <= x < |q| && Rot(b, x, 0) != ss :: q[x] == q0[x]
  }

  function PutQuadrant(q: seq<int>, n: nat, x: int, v: int): (r: seq<int>)
    requires |q| == n + N_OVERSHOOT && 0 <= x < n
    ensures |r| == |q|
  {
    if x < N_OVERSHOOT then q[x := v][x + n := v] else q[x := v]
  }

  lemma RankOne(b: seq<byte>, f: seq<int>, q0: seq<int>, q: seq<int>, ss: nat, shifts: nat, from: int)
    requires Listing(b, f) && ss < 256 && |b| > N_OVERSHOOT && OthersKept(b, q0, q, ss)
    requires Ranked(b, f, q, ss, shifts, from + 1)
    requires 0 <= from && Big(b, ss) + from < Big(b, ss + 1)
    ensures 0 <= Big(b, ss) + from < |f| && 0 <= f[Big(b, ss) + from] < |b|
    ensures OthersKept(b, q0, PutQuadrant(q, |b|, f[Big(b, ss) + from], Shr(from, shifts)), ss)
    ensures Ranked(b, f, PutQuadrant(q, |b|, f[Big(b, ss) + from], Shr(from, shifts)), ss, shifts, from)
  {
    hide Edge, Shr;
    var n, p := |b|, Big(b, ss) + from;
    Layout(b, ss, ss);
    KeyAt(b, f, p);
    var x, v := f[p], Shr(from, shifts);
    var r := PutQuadrant(q, n, x, v);
    FirstByteOf(b, f, ss, p);
    WrapOnce(x, n);
    WrapOnce(x + n, n);
    forall o | p <= o < Big(b, ss + 1) ensures RankedAt(r, n, f[o], Shr(o - Big(b, ss), shifts)) {
      if o != p {
        assert f[o] != f[p];
        assert RankedAt(q, n, f[o], Shr(o - Big(b, ss), shifts));
      }
    }
  }

  lemma FirstByteOf(b: seq<byte>, f: seq<int>, ss: nat, p: int)
    requires Listing(b, f) && ss < 256 && Big(b, ss) <= p < Big(b, ss + 1)
    ensures 0 <= p < |f| == |b| && 0 <= f[p] < |b| && Rot(b, f[p], 0) == ss
  {
    hide Edge;
    BigHolds(b, f, ss);
    assert f[Big(b, ss)..Big(b, ss + 1)][p - Big(b, ss)] == f[p];
  }

  /** A position with byte ss, behind the block or not, has its rank. */
  lemma RankOf(b: seq<byte>, f: seq<int>, q: seq<int>, ss: nat, shifts: nat, x: nat) returns (p: nat)
    requires Listing(b, f) && ss < 256 && |b| > N_OVERSHOOT && Ranked(b, f, q, ss, shifts, 0) && |q| == |b| + N_OVERSHOOT
    requires x < |q| && Rot(b, x, 0) == ss
    ensures Big(b, ss) <= p < Big(b, ss + 1) <= |f| && f[p] == x % |b| && q[x] == Shr(p - Big(b, ss), shifts)
  {
    hide Edge, Shr;
    var y := if x < |b| then x else x - |b|;
    WrapOnce(x, |b|);
    WrapOnce(y, |b|);
    BigHolds(b, f, ss);
    var all := f[Big(b, ss)..Big(b, ss + 1)];
    assert Rot(b, y, 0) == ss && 0 <= y < |b|;
    assert all == f[Edge(b, ss * 256)..Edge(b, (ss + 1) * 256)];
    assert y in all;
    var k :| 0 <= k < |all| && all[k] == y;
    p := Big(b, ss) + k;
    assert RankedAt(q, |b|, f[p], Shr(p - Big(b, ss), shifts));
  }

  /** Ranks of a sorted bucket, rounded down, order its positions. */
  lemma RankedQuadrants(b: seq<byte>, f: seq<int>, q0: seq<int>, q: seq<int>, ss: nat, shifts: nat)
    requires Listing(b, f) && ss < 256 && Quadrants(b, q0) && OthersKept(b, q0, q, ss) && Ranked(b, f, q, ss, shifts, 0)
    requires RotSorted(f, b, Big(b, ss), Big(b, ss + 1) - 1)
    ensures Quadrants(b, q)
  {
    hide Edge, Shr, Ranked, Leq, Listing;
    forall x, y | 0 <= x < |q| && 0 <= y < |q| && Rot(b, x, 0) == Rot(b, y, 0) && q[x] < q[y] ensures Leq(b, x, y) {
      if Rot(b, x, 0) == ss {
        var i := RankOf(b, f, q, ss, shifts, x);
        var j := RankOf(b, f, q, ss, shifts, y);
        if j <= i { ShrMonotone(j - Big(b, ss), i - Big(b, ss), shifts); }
        Layout(b, ss, ss);
        assert Leq(b, f[i], f[j]);
        LeqModulo(b, x, y);
      } else {
        assert q[x] == q0[x] && q[y] == q0[y];
      }
    }
  }

  /** Write the rank of every row of big bucket [ss] into the quadrants; no rank needs more than 16 bits (assertion 1002). */
  method CacheOrder(ptr: array<int>, quadrant: array<int>, bbStart: nat, bbSize: nat, nblock: nat, ss: nat,
                    ghost b: seq<byte>)
    requires ptr != quadrant && |b| == nblock && ss < 256 && Listing(b, ptr[..]) && Quadrants(b, quadrant[..])
    requires bbStart == Big(b, ss) && bbStart + bbSize == Big(b, ss + 1)
    requires RotSorted(ptr[..], b, Big(b, ss), Big(b, ss + 1) - 1)
    modifies quadrant
    ensures Quadrants(b, quadrant[..])
  {
    hide Listing, Edge, Ranked, OthersKept, RotSorted, Shr, Rot, Leq;
    ghost var f, q0 := ptr[..], quadrant[..];
    Layout(b, ss, ss);
    ShrZero(bbSize);
    var shifts := 0;
    while Shr(bbSize, shifts) > 65534
      invariant quadrant[..] == q0
      decreases Shr(bbSize, shifts)
    {
      ShrNext(bbSize, shifts);
      shifts := shifts + 1;
    }
    RankStart(b, f, q0, ss, shifts, bbSize);
    for j := bbSize downto 0
      invariant quadrant.Length == nblock + N_OVERSHOOT && ptr[..] == f
      invariant OthersKept(b, q0, quadrant[..], ss) && Ranked(b, f, quadrant[..], ss, shifts, j)
    {
      ghost var q := quadrant[..];
      RankOne(b, f, q0, q, ss, shifts, j);
      var a2update := ptr[bbStart + j];
      ShrMonotone(j, bbSize, shifts);
      var qVal := Shr(j, shifts);
      assert qVal <= 65535;
      quadrant[a2update] := qVal;
      if a2update < N_OVERSHOOT { quadrant[a2update + nblock] := qVal; }
      assert quadrant[..] == PutQuadrant(q, nblock, a2update, qVal);
    }
    RankedQuadrants(b, f, q0, quadrant[..], ss, shifts);
  }

  lemma ShrZero(v: nat)
    ensures Shr(v, 0) == v
  {
  }

  lemma RankStart(b: seq<byte>, f: seq<int>, q: seq<int>, ss: nat, shifts: nat, size: nat)
    requires Listing(b, f) && ss < 256 && Quadrants(b, q) && Big(b, ss) + size == Big(b, ss + 1)
    ensures OthersKept(b, q, q, ss) && Ranked(b, f, q, ss, shifts, size) && |q| == |b| + N_OVERSHOOT
    ensures |b| == |f| > N_OVERSHOOT
  {
    hide Edge, Shr;
    Layout(b, ss, ss);
  }
}
