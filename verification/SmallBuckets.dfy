// The small buckets of the main sort: positions listed by their first two bytes, and the table of where each bucket
// starts, with a mark on every bucket that is known to be sorted.
module SmallBuckets {
  import opened Permutations
  import opened Rotations
  import opened Counting
  import opened Radix
  import opened RotOrder
  import opened MainSimpleSort

  // ----- two-byte keys

  ghost function PairKey(b: seq<byte>, x: int): (c: int)
    requires b != []
    ensures 0 <= c < 65536 && c / 256 == Rot(b, x, 0) && c % 256 == Rot(b, x, 1)
  {
    Rot(b, x, 0) * 256 + Rot(b, x, 1)
  }

  ghost function PairKeys(b: seq<byte>): (l: seq<int>)
    requires b != []
    ensures |l| == |b| && Keys(l, 65536)
  {
    seq(|b|, x => PairKey(b, x))
  }

  /** Where small bucket c starts. */
  ghost function Edge(b: seq<byte>, c: nat): int
    requires b != []
  {
    CountBelow(PairKeys(b), c)
  }

  lemma EdgeOrder(b: seq<byte>, c: nat, d: nat)
    requires b != [] && c <= d <= 65536
    ensures 0 <= Edge(b, c) <= Edge(b, d) <= |b|
  {
    CountBelowMonotone(PairKeys(b), c, d);
    CountBelowMonotone(PairKeys(b), d, 65536);
    CountBelowAll(PairKeys(b), 65536);
  }

  lemma EdgeEnds(b: seq<byte>)
    requires b != []
    ensures Edge(b, 0) == 0 && Edge(b, 65536) == |b|
  {
    CountBelowAll(PairKeys(b), 65536);
  }

  /** f lists the positions by their first two bytes. */
  ghost predicate Listing(b: seq<byte>, f: seq<int>) {
    b != [] && BucketListing(PairKeys(b), 65536, f)
  }

  ghost predicate InSmall(b: seq<byte>, c: nat, s: int)
    requires b != []
  {
    Edge(b, c) <= s < Edge(b, c + 1)
  }

  lemma RowKey(b: seq<byte>, f: seq<int>, c: nat, s: int)
    requires Listing(b, f) && c < 65536 && InSmall(b, c, s)
    ensures 0 <= s < |b| == |f| && 0 <= f[s] < |b| && PairKey(b, f[s]) == c
  {
    assert InBucket(PairKeys(b), c, s);
  }

  lemma SmallOf(b: seq<byte>, s: nat) returns (c: nat)
    requires b != [] && s < |b|
    ensures c < 65536 && InSmall(b, c, s)
  {
    CountBelowAll(PairKeys(b), 65536);
    c := BucketOf(PairKeys(b), 65536, s);
  }

  lemma SmallsApart(b: seq<byte>, c: nat, d: nat, s: int)
    requires b != [] && c < 65536 && d < 65536 && InSmall(b, c, s) && InSmall(b, d, s)
    ensures c == d
  {
    OtherSlot(PairKeys(b), 65536, c, d, s);
  }

  lemma KeyAt(b: seq<byte>, f: seq<int>, s: nat)
    requires Listing(b, f) && s < |f|
    ensures |f| == |b| && 0 <= f[s] < |b| && InSmall(b, PairKey(b, f[s]), s)
  {
    var c := SmallOf(b, s);
    RowKey(b, f, c, s);
  }

  lemma KeysAscend(b: seq<byte>, f: seq<int>, p: nat, q: nat)
    requires Listing(b, f) && p <= q < |f|
    ensures PairKey(b, f[p]) <= PairKey(b, f[q])
  {
    KeyAt(b, f, p);
    KeyAt(b, f, q);
    if PairKey(b, f[q]) < PairKey(b, f[p]) {
      EdgeOrder(b, PairKey(b, f[q]) + 1, PairKey(b, f[p]));
    }
  }

  /** Every position stands in the bucket of its key. */
  lemma SlotOf(b: seq<byte>, f: seq<int>, x: nat) returns (s: nat)
    requires Listing(b, f) && x < |b|
    ensures s < |f| == |b| && f[s] == x && InSmall(b, PairKey(b, x), s)
  {
    s := IndexOf(f, x);
    var c := SmallOf(b, s);
    RowKey(b, f, c, s);
  }

  /** A smaller key puts a rotation first. */
  lemma KeyLess(b: seq<byte>, x: int, y: int)
    requires b != [] && PairKey(b, x) < PairKey(b, y)
    ensures Leq(b, x, y) && !Leq(b, y, x)
  {
    assert Text(b, x, 0) == Text(b, y, 0);
    if Rot(b, x, 0) < Rot(b, y, 0) {
      LeqByte(b, x, y, 0);
    } else {
      assert Text(b, x, 1) == [Rot(b, x, 0)] && Text(b, y, 1) == [Rot(b, y, 0)];
      LeqByte(b, x, y, 1);
    }
  }

  /** A stretch of the listing has room for no more different positions than it has, and just for its own. */
  lemma Stretch(f: seq<int>, lo: int, hi: int, q: seq<int>)
    requires IsPermutation(f) && 0 <= lo <= hi <= |f| && Distinct(q)
    ensures (forall x | x in q :: x in f[lo..hi]) ==> |q| <= hi - lo
    ensures (forall x | x in q :: x in f[lo..hi]) && |q| == hi - lo ==> forall x | x in f[lo..hi] :: x in q
    ensures (forall x | x in f[lo..hi] :: x in q) ==> hi - lo <= |q|
  {
    var all := f[lo..hi];
    DistinctSize(q);
    DistinctSize(all);
    assert forall x :: x in q <==> x in Elements(q);
    assert forall x :: x in all <==> x in Elements(all);
    if forall x | x in q :: x in all { SubsetSize(Elements(q), Elements(all)); }
    if forall x | x in all :: x in q { SubsetSize(Elements(all), Elements(q)); }
  }

  /** Small bucket c of the listing holds exactly the positions with key c. */
  lemma SmallHas(b: seq<byte>, f: seq<int>, c: nat, x: int)
    requires Listing(b, f) && c < 65536
    ensures 0 <= Edge(b, c) <= Edge(b, c + 1) <= |f|
    ensures x in f[Edge(b, c)..Edge(b, c + 1)] <==> 0 <= x < |b| && PairKey(b, x) == c
  {
    hide Edge, Listing;
    ListingSize(b, f);
    EdgeOrder(b, c, c + 1);
    EdgeOrder(b, c + 1, c + 1);
    var all := f[Edge(b, c)..Edge(b, c + 1)];
    if x in all {
      var k :| 0 <= k < |all| && all[k] == x;
      RowKey(b, f, c, Edge(b, c) + k);
    }
    if 0 <= x < |b| && PairKey(b, x) == c {
      var s := SlotOf(b, f, x);
      assert all[s - Edge(b, c)] == x;
    }
  }

  lemma ListingSize(b: seq<byte>, f: seq<int>)
    requires Listing(b, f)
    ensures b != [] && |f| == |b|
  {
  }

  lemma SmallHolds(b: seq<byte>, f: seq<int>, c: nat)
    requires b != [] && Listing(b, f) && c < 65536
    ensures 0 <= Edge(b, c) <= Edge(b, c + 1) <= |f|
    ensures forall x :: x in f[Edge(b, c)..Edge(b, c + 1)] <==> 0 <= x < |b| && PairKey(b, x) == c
  {
    hide Edge, Listing, PairKey;
    SmallHas(b, f, c, 0);
    forall x ensures x in f[Edge(b, c)..Edge(b, c + 1)] <==> 0 <= x < |b| && PairKey(b, x) == c {
      SmallHas(b, f, c, x);
    }
  }

  /** So does big bucket t the positions with first byte t. */
  lemma BigHolds(b: seq<byte>, f: seq<int>, t: nat)
    requires Listing(b, f) && t < 256
    ensures 0 <= Edge(b, t * 256) <= Edge(b, (t + 1) * 256) <= |f|
    ensures forall x :: x in f[Edge(b, t * 256)..Edge(b, (t + 1) * 256)] <==> 0 <= x < |b| && Rot(b, x, 0) == t
  {
    hide Edge;
    EdgeOrder(b, t * 256, (t + 1) * 256);
    var lo := Edge(b, t * 256);
    var all := f[lo..Edge(b, (t + 1) * 256)];
    forall x ensures x in all <==> 0 <= x < |b| && Rot(b, x, 0) == t {
      if x in all {
        var k :| 0 <= k < |all| && all[k] == x;
        var c := SmallOf(b, lo + k);
        RowKey(b, f, c, lo + k);
        if c < t * 256 { EdgeOrder(b, c + 1, t * 256); }
        if c >= (t + 1) * 256 { EdgeOrder(b, (t + 1) * 256, c); }
        assert c / 256 == t;
      }
      if 0 <= x < |b| && Rot(b, x, 0) == t {
        var s := SlotOf(b, f, x);
        var c := PairKey(b, x);
        EdgeOrder(b, t * 256, c);
        EdgeOrder(b, c + 1, (t + 1) * 256);
        assert all[s - lo] == x;
      }
    }
  }

  // ----- the table of starts and marks

  const SETMASK := 0x20_0000

  predicate Marked(w: int) { w / SETMASK % 2 == 1 }

  function Clear(w: int): int { if Marked(w) then w - SETMASK else w }

  function Mark(w: int): int { if Marked(w) then w else w + SETMASK }

  lemma MarkKeeps(w: int)
    requires 0 <= w < 2 * SETMASK
    ensures 0 <= Mark(w) < 2 * SETMASK && Marked(Mark(w)) && Clear(Mark(w)) == Clear(w)
  {
  }

  lemma MarkMarks(w: int)
    ensures Marked(Mark(w))
  {
    assert (w + SETMASK) / SETMASK == w / SETMASK + 1;
  }

  /** Entry c is the start of small bucket c, and a marked bucket is sorted. */
  ghost predicate Table(b: seq<byte>, ft: seq<int>) {
    b != [] && |ft| == 65537 &&
    forall c {:trigger ft[c]} | 0 <= c < 65537 :: 0 <= ft[c] < 2 * SETMASK && Clear(ft[c]) == Edge(b, c)
  }

  ghost predicate SmallSorted(b: seq<byte>, f: seq<int>, c: nat)
    requires b != []
  {
    RotSorted(f, b, Edge(b, c), Edge(b, c + 1) - 1)
  }

  ghost predicate MarkedSorted(b: seq<byte>, f: seq<int>, ft: seq<int>)
    requires b != [] && |ft| == 65537
  {
    forall c {:trigger ft[c]} | 0 <= c < 65536 && Marked(ft[c]) :: SmallSorted(b, f, c)
  }
}
