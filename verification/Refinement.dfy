// Prefix doubling on rotations: what the bucket flags and the equivalence classes mean at depth h,
// and why sorting every bucket by class doubles the depth.
module Refinement {
  import opened Permutations
  import opened Rotations
  import opened ThreeWay
  import opened FallbackQSort

  /** Row i shows, on its first h bytes, something else than the row above it. */
  ghost predicate Boundary(b: seq<byte>, f: seq<int>, h: nat, i: nat)
    requires b != [] && i < |f|
  {
    i == 0 || Text(b, f[i], h) != Text(b, f[i - 1], h)
  }

  ghost predicate Ascends(b: seq<byte>, f: seq<int>, h: nat, i: nat)
    requires b != [] && i < |f|
  {
    i == 0 || !Less(Text(b, f[i], h), Text(b, f[i - 1], h))
  }

  /** f lists all rotations sorted on h bytes, and the flags mark exactly the starts of its buckets. */
  ghost predicate Bucketed(b: seq<byte>, f: seq<int>, flags: seq<bool>, h: nat) {
    b != [] && |f| == |b| <= |flags| && IsPermutation(f) &&
    (forall i {:trigger Ascends(b, f, h, i)} | 0 <= i < |f| :: Ascends(b, f, h, i)) &&
    forall i {:trigger flags[i]} | 0 <= i < |f| :: flags[i] <==> Boundary(b, f, h, i)
  }

  lemma LessOrEqualTransitive(s: seq<byte>, t: seq<byte>, u: seq<byte>)
    requires |s| == |t| == |u| && !Less(t, s) && !Less(u, t)
    ensures !Less(u, s)
    ensures s != t || t != u ==> Less(s, u)
  {
    LessTotal(s, t);
    LessTotal(t, u);
    LessTotal(s, u);
    LessTransitive(s, t, u);
    LessTransitive(u, s, t);
    LessTransitive(t, u, s);
  }

  /** Rows that ascend step by step ascend altogether. */
  lemma {:induction false} AscendsAll(b: seq<byte>, f: seq<int>, h: nat, x: nat, y: nat)
    requires b != [] && x <= y < |f|
    requires forall i {:trigger Ascends(b, f, h, i)} | x < i <= y :: Ascends(b, f, h, i)
    ensures !Less(Text(b, f[y], h), Text(b, f[x], h))
    ensures Text(b, f[y], h) == Text(b, f[x], h) ==> forall i {:trigger Boundary(b, f, h, i)} | x < i <= y :: !Boundary(b, f, h, i)
    ensures Text(b, f[y], h) != Text(b, f[x], h) ==> exists i {:trigger Boundary(b, f, h, i)} :: x < i <= y && Boundary(b, f, h, i)
    decreases y
  {
    if x == y {
      LessTotal(Text(b, f[x], h), Text(b, f[x], h));
    } else {
      AscendsAll(b, f, h, x, y - 1);
      assert Ascends(b, f, h, y);
      var s, t, u := Text(b, f[x], h), Text(b, f[y - 1], h), Text(b, f[y], h);
      LessOrEqualTransitive(s, t, u);
      LessTotal(s, u);
      if s != u && s == t {
        assert Boundary(b, f, h, y);
      }
    }
  }

  lemma BucketedSorted(b: seq<byte>, f: seq<int>, flags: seq<bool>, h: nat)
    requires Bucketed(b, f, flags, h)
    ensures SortedOn(b, f, h)
  {
    forall x, y | 0 <= x < y < |f| ensures !Less(Text(b, f[y], h), Text(b, f[x], h)) {
      AscendsAll(b, f, h, x, y);
    }
  }

  /** The start of the bucket that holds row i. */
  ghost function Head(flags: seq<bool>, i: nat): (k: nat)
    requires i < |flags|
    ensures k <= i && (forall j | k < j <= i :: !flags[j]) && (k == 0 || flags[k])
  {
    if flags[i] || i == 0 then i else Head(flags, i - 1)
  }

  /** Rows stand in one bucket exactly when they agree on h bytes; otherwise the earlier bucket is less. */
  lemma HeadCompares(b: seq<byte>, f: seq<int>, flags: seq<bool>, h: nat, x: nat, y: nat)
    requires Bucketed(b, f, flags, h) && x <= y < |f|
    ensures Text(b, f[x], h) == Text(b, f[y], h) ==> Head(flags, x) == Head(flags, y)
    ensures Text(b, f[x], h) != Text(b, f[y], h) ==> Head(flags, x) < Head(flags, y) && Less(Text(b, f[x], h), Text(b, f[y], h))
  {
    AscendsAll(b, f, h, x, y);
    LessTotal(Text(b, f[x], h), Text(b, f[y], h));
    var k, m := Head(flags, x), Head(flags, y);
    if Text(b, f[x], h) == Text(b, f[y], h) {
      assert Boundary(b, f, h, m);
      assert m <= x;
    } else {
      var i :| x < i <= y && Boundary(b, f, h, i);
      assert flags[i];
      assert m >= i;
    }
  }

  /** Classes compare as the h bytes that follow the first h do. */
  ghost predicate ClassesMean(b: seq<byte>, e: seq<int>, h: nat) {
    b != [] && |e| == |b| &&
    forall x, y {:trigger e[x], e[y]} | 0 <= x < |b| && 0 <= y < |b| ::
      (e[x] == e[y] <==> Text(b, x + h, h) == Text(b, y + h, h)) &&
      (e[x] < e[y] <==> Less(Text(b, x + h, h), Text(b, y + h, h)))
  }

  /** The class given to x: the bucket of the row that starts h bytes further on. */
  ghost predicate ClassGiven(b: seq<byte>, f: seq<int>, flags: seq<bool>, e: seq<int>, h: nat, i: nat)
    requires b != [] && |f| == |b| <= |flags| && |e| == |b| && IsPermutation(f) && i < |b|
  {
    e[(f[i] - h) % |b|] == Head(flags, i)
  }

  lemma ClassesCompare(b: seq<byte>, f: seq<int>, flags: seq<bool>, e: seq<int>, h: nat, x: nat, y: nat)
    requires Bucketed(b, f, flags, h) && |e| == |b| && x < |b| && y < |b|
    requires forall i {:trigger ClassGiven(b, f, flags, e, h, i)} | 0 <= i < |b| :: ClassGiven(b, f, flags, e, h, i)
    ensures (e[x] == e[y] <==> Text(b, x + h, h) == Text(b, y + h, h)) &&
            (e[x] < e[y] <==> Less(Text(b, x + h, h), Text(b, y + h, h)))
  {
    var n := |b|;
    var i := IndexOf(f, (x + h) % n);
    var j := IndexOf(f, (y + h) % n);
    BackAndForth(x, h, n);
    BackAndForth(y, h, n);
    assert ClassGiven(b, f, flags, e, h, i) && ClassGiven(b, f, flags, e, h, j);
    TextModulo(b, x + h, h);
    TextModulo(b, y + h, h);
    LessTotal(Text(b, x + h, h), Text(b, y + h, h));
    if i <= j {
      HeadCompares(b, f, flags, h, i, j);
    } else {
      HeadCompares(b, f, flags, h, j, i);
    }
  }

  lemma BackAndForth(x: nat, h: nat, n: nat)
    requires x < n
    ensures ((x + h) % n - h) % n == x
  {
    ModCongruent(x + h, 0 - h, n);
    WrapOnce(x, n);
  }

  lemma ClassesFromBuckets(b: seq<byte>, f: seq<int>, flags: seq<bool>, e: seq<int>, h: nat)
    requires Bucketed(b, f, flags, h) && |e| == |b|
    requires forall i {:trigger ClassGiven(b, f, flags, e, h, i)} | 0 <= i < |b| :: ClassGiven(b, f, flags, e, h, i)
    ensures ClassesMean(b, e, h)
  {
    forall x, y | 0 <= x < |b| && 0 <= y < |b|
      ensures (e[x] == e[y] <==> Text(b, x + h, h) == Text(b, y + h, h)) &&
              (e[x] < e[y] <==> Less(Text(b, x + h, h), Text(b, y + h, h)))
    {
      ClassesCompare(b, f, flags, e, h, x, y);
    }
  }

  /** Two places that agree on h bytes compare on 2h bytes as their classes do. */
  lemma ClassesDouble(b: seq<byte>, e: seq<int>, h: nat, x: nat, y: nat)
    requires ClassesMean(b, e, h) && x < |b| && y < |b|
    ensures Text(b, x, h) == Text(b, y, h) ==>
              (e[x] == e[y] <==> Text(b, x, 2 * h) == Text(b, y, 2 * h)) &&
              (e[x] < e[y] <==> Less(Text(b, x, 2 * h), Text(b, y, 2 * h)))
    ensures Text(b, x, h) != Text(b, y, h) ==> Text(b, x, 2 * h) != Text(b, y, 2 * h)
    ensures Less(Text(b, x, h), Text(b, y, h)) ==> Less(Text(b, x, 2 * h), Text(b, y, 2 * h))
  {
    assert 2 * h == h + h;
    TextSplit(b, x, h, h);
    TextSplit(b, y, h, h);
    var s, s', t, t' := Text(b, x, h), Text(b, x + h, h), Text(b, y, h), Text(b, y + h, h);
    LessAppend(s, s', t, t');
    LessTotal(s, t);
    assert (s + s')[..h] == s && (t + t')[..h] == t;
    assert (s + s')[h..] == s' && (t + t')[h..] == t';
  }

  /** Mid-pass: rows above q are bucketed on 2h bytes, the rest still on h, and q starts a bucket. */
  ghost predicate HalfDone(b: seq<byte>, f: seq<int>, flags: seq<bool>, h: nat, q: nat) {
    b != [] && |f| == |b| < |flags| && IsPermutation(f) && q <= |b| &&
    (forall i {:trigger Ascends(b, f, h, i)} | 0 <= i < |f| :: Ascends(b, f, h, i)) &&
    (forall i {:trigger Ascends(b, f, 2 * h, i)} | 0 <= i < q :: Ascends(b, f, 2 * h, i)) &&
    (forall i {:trigger Boundary(b, f, 2 * h, i)} | 0 <= i < q :: flags[i] <==> Boundary(b, f, 2 * h, i)) &&
    (forall i {:trigger Boundary(b, f, h, i)} | q <= i < |f| :: flags[i] <==> Boundary(b, f, h, i)) &&
    (q < |b| ==> Boundary(b, f, h, q))
  }

  /** A bucket of one row is already right on 2h bytes. */
  lemma DeeperBoundary(b: seq<byte>, f: seq<int>, e: seq<int>, h: nat, i: nat)
    requires ClassesMean(b, e, h) && |f| == |b| && IsPermutation(f) && i < |f|
    requires Ascends(b, f, h, i) && Boundary(b, f, h, i)
    ensures Ascends(b, f, 2 * h, i) && Boundary(b, f, 2 * h, i)
  {
    if i > 0 {
      LessTotal(Text(b, f[i], h), Text(b, f[i - 1], h));
      ClassesDouble(b, e, h, f[i - 1], f[i]);
      LessTotal(Text(b, f[i], 2 * h), Text(b, f[i - 1], 2 * h));
    }
  }

  /** Skipping rows that all start a bucket. */
  lemma SkipSingles(b: seq<byte>, f: seq<int>, flags: seq<bool>, e: seq<int>, h: nat, q: nat, l: nat)
    requires HalfDone(b, f, flags, h, q) && ClassesMean(b, e, h) && q <= l <= |b|
    requires (forall i | q <= i < l :: flags[i]) && (l < |b| ==> flags[l])
    ensures HalfDone(b, f, flags, h, l)
  {
    forall i | q <= i < l ensures Ascends(b, f, 2 * h, i) && Boundary(b, f, 2 * h, i) {
      assert Boundary(b, f, h, i);
      DeeperBoundary(b, f, e, h, i);
    }
    assert forall i | 0 <= i < q :: Ascends(b, f, 2 * h, i) && (flags[i] <==> Boundary(b, f, 2 * h, i));
    assert l < |b| ==> Boundary(b, f, h, l);
  }

  /** All rows of a bucket agree on h bytes. */
  lemma BucketAgrees(b: seq<byte>, f: seq<int>, h: nat, l: nat, x: nat)
    requires b != [] && l <= x < |f|
    requires forall i {:trigger Boundary(b, f, h, i)} | l < i <= x :: !Boundary(b, f, h, i)
    ensures Text(b, f[x], h) == Text(b, f[l], h)
    decreases x
  {
    if x > l {
      BucketAgrees(b, f, h, l, x - 1);
      assert !Boundary(b, f, h, x);
    }
  }

  /** Flags after the header scan of a sorted bucket: a new header wherever the class changes. */
  ghost predicate HeadersSet(f: seq<int>, e: seq<int>, flags: seq<bool>, flags': seq<bool>, l: nat, r: nat) {
    |flags'| == |flags| && l <= r < |f| < |flags| && Keyed(f, e, 0) &&
    (forall i {:trigger flags'[i]} | 0 <= i < |flags| && !(l <= i <= r) :: flags'[i] == flags[i]) &&
    flags'[l] && forall i {:trigger flags'[i]} | l < i <= r :: flags'[i] <==> e[f[i]] != e[f[i - 1]]
  }

  /** A bucket l..r that has been sorted by class. */
  ghost predicate SortedBucket(b: seq<byte>, f: seq<int>, f': seq<int>, flags: seq<bool>, e: seq<int>, h: nat,
                               l: nat, r: nat) {
    HalfDone(b, f, flags, h, l) && ClassesMean(b, e, h) && l <= r < |b| && Within(f, f', l, r) &&
    Keyed(f', e, 0) && ByClass(f', e, l, r) && flags[l] && (r + 1 < |b| ==> flags[r + 1]) &&
    forall i {:trigger flags[i]} | l < i <= r :: !flags[i]
  }

  lemma BucketText(b: seq<byte>, f: seq<int>, f': seq<int>, flags: seq<bool>, e: seq<int>, h: nat, l: nat, r: nat, x: nat)
    requires SortedBucket(b, f, f', flags, e, h, l, r) && l <= x <= r
    ensures 0 <= f'[x] < |b| && Text(b, f'[x], h) == Text(b, f[l], h) == Text(b, f[x], h)
  {
    var o := WithinOrigin(f, f', l, r, x);
    forall i | l < i <= r ensures !Boundary(b, f, h, i) {
      assert !flags[i];
    }
    BucketAgrees(b, f, h, l, o);
    BucketAgrees(b, f, h, l, x);
  }

  /** Sorting a bucket by class keeps every row's first h bytes. */
  lemma RowTextKept(b: seq<byte>, f: seq<int>, f': seq<int>, flags: seq<bool>, e: seq<int>, h: nat, l: nat, r: nat, x: nat)
    requires SortedBucket(b, f, f', flags, e, h, l, r) && x < |b|
    ensures Text(b, f'[x], h) == Text(b, f[x], h)
  {
    if l <= x <= r {
      BucketText(b, f, f', flags, e, h, l, r, x);
    }
  }

  lemma RowInBucket(b: seq<byte>, f: seq<int>, f': seq<int>, flags: seq<bool>, e: seq<int>, h: nat, l: nat, r: nat, i: nat)
    requires SortedBucket(b, f, f', flags, e, h, l, r) && l < i <= r
    ensures Ascends(b, f', 2 * h, i) && (Boundary(b, f', 2 * h, i) <==> e[f'[i]] != e[f'[i - 1]])
  {
    BucketText(b, f, f', flags, e, h, l, r, i - 1);
    BucketText(b, f, f', flags, e, h, l, r, i);
    ClassesDouble(b, e, h, f'[i - 1], f'[i]);
    ClassesDouble(b, e, h, f'[i], f'[i - 1]);
  }

  lemma BucketDone(b: seq<byte>, f: seq<int>, f': seq<int>, flags: seq<bool>, flags': seq<bool>, e: seq<int>, h: nat,
                   l: nat, r: nat)
    requires SortedBucket(b, f, f', flags, e, h, l, r) && HeadersSet(f', e, flags, flags', l, r)
    ensures HalfDone(b, f', flags', h, r + 1)
  {
    RearrangedMultiset(f, f');
    SameElementsPermutation(f, f');
    forall i | 0 <= i < |f'| ensures Ascends(b, f', h, i) && (Boundary(b, f', h, i) <==> Boundary(b, f, h, i)) {
      RowTextKept(b, f, f', flags, e, h, l, r, i);
      if i > 0 { RowTextKept(b, f, f', flags, e, h, l, r, i - 1); }
      assert Ascends(b, f, h, i);
    }
    forall i | 0 <= i < r + 1
      ensures Ascends(b, f', 2 * h, i) && (flags'[i] <==> Boundary(b, f', 2 * h, i))
    {
      if i > l {
        RowInBucket(b, f, f', flags, e, h, l, r, i);
      } else if i == l {
        DeeperBoundary(b, f', e, h, i);
      } else {
        assert Ascends(b, f, 2 * h, i) && (flags[i] <==> Boundary(b, f, 2 * h, i));
      }
    }
    assert r + 1 < |b| ==> Boundary(b, f, h, r + 1);
    assert forall i | r + 1 <= i < |f'| :: flags'[i] == flags[i];
  }

  /** A finished pass has doubled the depth. */
  lemma PassDone(b: seq<byte>, f: seq<int>, flags: seq<bool>, h: nat)
    requires HalfDone(b, f, flags, h, |b|)
    ensures Bucketed(b, f, flags, 2 * h)
  {
    assert forall i {:trigger flags[i]} | 0 <= i < |f| :: flags[i] <==> Boundary(b, f, 2 * h, i);
  }

  lemma PassBegins(b: seq<byte>, f: seq<int>, flags: seq<bool>, h: nat)
    requires Bucketed(b, f, flags, h) && |b| < |flags|
    ensures HalfDone(b, f, flags, h, 0)
  {
    assert forall i {:trigger Boundary(b, f, h, i)} | 0 <= i < |f| :: flags[i] <==> Boundary(b, f, h, i);
  }

  /** When the depth covers the block, or every row is a bucket of its own, the rows are in order. */
  lemma DepthSuffices(b: seq<byte>, f: seq<int>, flags: seq<bool>, h: nat)
    requires Bucketed(b, f, flags, h)
    requires h > |b| || forall i | 0 <= i < |b| :: flags[i]
    ensures RowOrder(b, f)
  {
    BucketedSorted(b, f, flags, h);
    if h >= |b| {
      SortedBeyond(b, f, h);
    } else {
      forall x, y | 0 <= x < y < |f| ensures !Less(Text(b, f[y], |b|), Text(b, f[x], |b|)) {
        HeadCompares(b, f, flags, h, x, y);
        assert Head(flags, x) == x && Head(flags, y) == y;
        TextSplit(b, f[x], h, |b| - h);
        TextSplit(b, f[y], h, |b| - h);
        LessAppend(Text(b, f[y], h), Text(b, f[y] + h, |b| - h), Text(b, f[x], h), Text(b, f[x] + h, |b| - h));
        LessTotal(Text(b, f[x], h), Text(b, f[y], h));
      }
    }
  }
}
