// Three-way partitioning in place, as both quicksorts do it: equal keys gather at the two ends and
// are swapped into the middle afterwards. The key of entry v is e[v + d].
module ThreeWay {
  import opened Permutations

  ghost function Count(f: seq<int>, v: int): nat { multiset(f)[v] }

  /** f' holds the entries of f in some order. */
  ghost predicate Rearranged(f: seq<int>, f': seq<int>) {
    |f| == |f'| && forall v {:trigger Count(f', v)} :: Count(f', v) == Count(f, v)
  }

  lemma RearrangedMultiset(f: seq<int>, f': seq<int>)
    requires Rearranged(f, f')
    ensures multiset(f) == multiset(f')
  {
    forall v ensures multiset(f)[v] == multiset(f')[v] {
      assert Count(f', v) == Count(f, v);
    }
  }

  /** f' rearranges f inside lo..hi only. */
  ghost predicate Within(f: seq<int>, f': seq<int>, lo: int, hi: int) {
    Rearranged(f, f') && forall k {:trigger f'[k]} | 0 <= k < |f| && !(lo <= k <= hi) :: f'[k] == f[k]
  }

  lemma WithinTransitive(f: seq<int>, g: seq<int>, h: seq<int>, lo: int, hi: int)
    requires Within(f, g, lo, hi) && Within(g, h, lo, hi)
    ensures Within(f, h, lo, hi)
  {
    assert forall v {:trigger Count(h, v)} :: Count(h, v) == Count(g, v) == Count(f, v);
    assert forall k | 0 <= k < |f| && !(lo <= k <= hi) :: h[k] == g[k] == f[k];
  }

  lemma WithinSlice(f: seq<int>, f': seq<int>, lo: nat, hi: int)
    requires Within(f, f', lo, hi) && lo <= hi + 1 <= |f|
    ensures multiset(f[lo..hi + 1]) == multiset(f'[lo..hi + 1])
  {
    RearrangedMultiset(f, f');
    assert f == f[..lo] + f[lo..hi + 1] + f[hi + 1..];
    assert f' == f'[..lo] + f'[lo..hi + 1] + f'[hi + 1..];
    assert f[..lo] == f'[..lo] && f[hi + 1..] == f'[hi + 1..];
    MultisetCancel(multiset(f[..lo]), multiset(f[lo..hi + 1]), multiset(f'[lo..hi + 1]), multiset(f[hi + 1..]));
  }

  /** Inside the range every new entry was there before. */
  lemma WithinOrigin(f: seq<int>, f': seq<int>, lo: nat, hi: int, k: int) returns (o: int)
    requires Within(f, f', lo, hi) && lo <= k <= hi < |f|
    ensures lo <= o <= hi && f[o] == f'[k]
  {
    WithinSlice(f, f', lo, hi);
    var old_, new_ := f[lo..hi + 1], f'[lo..hi + 1];
    assert new_[k - lo] in multiset(new_);
    assert f'[k] in old_;
    var j :| 0 <= j < |old_| && old_[j] == f'[k];
    o := lo + j;
  }

  lemma MultisetCancel(a: multiset<int>, x: multiset<int>, y: multiset<int>, b: multiset<int>)
    requires a + x + b == a + y + b
    ensures x == y
  {
    forall v ensures x[v] == y[v] {
      assert (a + x + b)[v] == a[v] + x[v] + b[v];
      assert (a + y + b)[v] == a[v] + y[v] + b[v];
    }
  }

  function Swap(f: seq<int>, i: nat, j: nat): (g: seq<int>)
    requires i < |f| && j < |f|
    ensures |g| == |f|
    ensures forall k {:trigger g[k]} | 0 <= k < |f| :: g[k] == if k == i then f[j] else if k == j then f[i] else f[k]
  {
    f[i := f[j]][j := f[i]]
  }

  lemma SwapWithin(f: seq<int>, i: nat, j: nat, lo: int, hi: int)
    requires lo <= i <= hi < |f| && lo <= j <= hi
    ensures Within(f, Swap(f, i, j), lo, hi)
  {
    assert multiset(Swap(f, i, j)) == multiset(f);
  }

  /** Filling the hole at p from q makes q the hole. */
  lemma HoleMoves(a: seq<int>, p: nat, q: nat, tmp: int)
    requires p < |a| && q < |a| && p != q
    ensures a[p := a[q]][q := tmp] == Swap(a[p := tmp], p, q)
  {
  }

  lemma WithinWider(f: seq<int>, f': seq<int>, a: int, b: int, lo: int, hi: int)
    requires Within(f, f', a, b) && lo <= a && b <= hi
    ensures Within(f, f', lo, hi)
  {
  }

  method SwapEntries(a: array<int>, i: nat, j: nat)
    requires i < a.Length && j < a.Length
    modifies a
    ensures a[..] == Swap(old(a[..]), i, j)
  {
    a[i], a[j] := a[j], a[i];
  }

  /** Entries from lo to hi - 1 keyed below, at or above med. */
  ghost predicate Lesser(f: seq<int>, e: seq<int>, d: nat, lo: int, hi: int, med: int)
    requires Keyed(f, e, d)
  {
    forall k {:trigger f[k]} | 0 <= k < |f| && lo <= k < hi :: e[f[k] + d] < med
  }

  ghost predicate Equals(f: seq<int>, e: seq<int>, d: nat, lo: int, hi: int, med: int)
    requires Keyed(f, e, d)
  {
    forall k {:trigger f[k]} | 0 <= k < |f| && lo <= k < hi :: e[f[k] + d] == med
  }

  ghost predicate Greater(f: seq<int>, e: seq<int>, d: nat, lo: int, hi: int, med: int)
    requires Keyed(f, e, d)
  {
    forall k {:trigger f[k]} | 0 <= k < |f| && lo <= k < hi :: e[f[k] + d] > med
  }

  ghost predicate Keyed(f: seq<int>, e: seq<int>, d: nat) {
    forall k {:trigger f[k]} | 0 <= k < |f| :: 0 <= f[k] && f[k] + d < |e|
  }

  lemma KeyedWithin(f: seq<int>, f': seq<int>, e: seq<int>, d: nat, lo: int, hi: int)
    requires Keyed(f, e, d) && Within(f, f', lo, hi)
    ensures Keyed(f', e, d)
  {
    RearrangedMultiset(f, f');
    forall k | 0 <= k < |f'| ensures 0 <= f'[k] && f'[k] + d < |e| {
      assert f'[k] in multiset(f');
      assert f'[k] in f;
    }
  }

  /** The scan in progress: equal, less, unknown, more, equal. */
  ghost predicate Scanned(f: seq<int>, e: seq<int>, d: nat, med: int,
                          lo: int, ltLo: int, unLo: int, unHi: int, gtHi: int, hi: int) {
    Keyed(f, e, d) && 0 <= lo <= ltLo <= unLo <= unHi + 1 && unHi <= gtHi <= hi < |f| &&
    Equals(f, e, d, lo, ltLo, med) && Lesser(f, e, d, ltLo, unLo, med) &&
    Greater(f, e, d, unHi + 1, gtHi + 1, med) && Equals(f, e, d, gtHi + 1, hi + 1, med)
  }

  lemma ScanEqualLow(f: seq<int>, e: seq<int>, d: nat, med: int,
                     lo: int, ltLo: int, unLo: int, unHi: int, gtHi: int, hi: int)
    requires Scanned(f, e, d, med, lo, ltLo, unLo, unHi, gtHi, hi) && unLo <= unHi && e[f[unLo] + d] == med
    ensures Scanned(Swap(f, unLo, ltLo), e, d, med, lo, ltLo + 1, unLo + 1, unHi, gtHi, hi)
    ensures Within(f, Swap(f, unLo, ltLo), lo, hi)
  {
    SwapWithin(f, unLo, ltLo, lo, hi);
  }

  lemma ScanEqualHigh(f: seq<int>, e: seq<int>, d: nat, med: int,
                      lo: int, ltLo: int, unLo: int, unHi: int, gtHi: int, hi: int)
    requires Scanned(f, e, d, med, lo, ltLo, unLo, unHi, gtHi, hi) && unLo <= unHi && e[f[unHi] + d] == med
    ensures Scanned(Swap(f, unHi, gtHi), e, d, med, lo, ltLo, unLo, unHi - 1, gtHi - 1, hi)
    ensures unLo < unHi ==> Swap(f, unHi, gtHi)[unLo] == f[unLo]
    ensures Within(f, Swap(f, unHi, gtHi), lo, hi)
  {
    SwapWithin(f, unHi, gtHi, lo, hi);
  }

  lemma ScanMore(f: seq<int>, e: seq<int>, d: nat, med: int,
                 lo: int, ltLo: int, unLo: int, unHi: int, gtHi: int, hi: int)
    requires Scanned(f, e, d, med, lo, ltLo, unLo, unHi, gtHi, hi) && unLo <= unHi && e[f[unHi] + d] > med
    ensures Scanned(f, e, d, med, lo, ltLo, unLo, unHi - 1, gtHi, hi)
  {
  }

  lemma ScanCross(f: seq<int>, e: seq<int>, d: nat, med: int,
                  lo: int, ltLo: int, unLo: int, unHi: int, gtHi: int, hi: int)
    requires Scanned(f, e, d, med, lo, ltLo, unLo, unHi, gtHi, hi) && unLo <= unHi
    requires e[f[unLo] + d] > med && e[f[unHi] + d] < med
    ensures Scanned(Swap(f, unLo, unHi), e, d, med, lo, ltLo, unLo + 1, unHi - 1, gtHi, hi)
    ensures Within(f, Swap(f, unLo, unHi), lo, hi)
  {
    assert unLo < unHi;
    SwapWithin(f, unLo, unHi, lo, hi);
  }

  /** Moves unLo up to an entry above med. */
  method ScanUp(a: array<int>, ec: array<int>, d: nat, med: int,
                lo: nat, ltLo0: nat, unLo0: nat, unHi: int, gtHi: int, hi: int)
      returns (ltLo: nat, unLo: nat)
    requires a != ec && Scanned(a[..], ec[..], d, med, lo, ltLo0, unLo0, unHi, gtHi, hi)
    modifies a
    ensures Within(old(a[..]), a[..], lo, hi)
    ensures Scanned(a[..], ec[..], d, med, lo, ltLo, unLo, unHi, gtHi, hi)
    ensures unLo0 <= unLo && (unLo <= unHi ==> ec[a[unLo] + d] > med)
  {
    ghost var f, e := a[..], ec[..];
    ltLo, unLo := ltLo0, unLo0;
    while true
      invariant Within(f, a[..], lo, hi) && ec[..] == e
      invariant Scanned(a[..], e, d, med, lo, ltLo, unLo, unHi, gtHi, hi) && unLo0 <= unLo
      decreases unHi - unLo
    {
      if unLo > unHi { break; }
      var n := ec[a[unLo] + d] - med;
      if n == 0 {
        ScanEqualLow(a[..], e, d, med, lo, ltLo, unLo, unHi, gtHi, hi);
        WithinTransitive(f, a[..], Swap(a[..], unLo, ltLo), lo, hi);
        SwapEntries(a, unLo, ltLo);
        ltLo, unLo := ltLo + 1, unLo + 1;
        continue;
      }
      if n > 0 { break; }
      unLo := unLo + 1;
    }
  }

  /** Moves unHi down to an entry below med, while unLo waits on one above it. */
  method ScanDown(a: array<int>, ec: array<int>, d: nat, med: int,
                  lo: nat, ltLo: nat, unLo: nat, unHi0: int, gtHi0: int, hi: int)
      returns (unHi: int, gtHi: int)
    requires a != ec && Scanned(a[..], ec[..], d, med, lo, ltLo, unLo, unHi0, gtHi0, hi)
    requires unLo <= unHi0 ==> ec[a[unLo] + d] > med
    modifies a
    ensures Within(old(a[..]), a[..], lo, hi)
    ensures Scanned(a[..], ec[..], d, med, lo, ltLo, unLo, unHi, gtHi, hi)
    ensures unHi <= unHi0 && (unLo <= unHi ==> ec[a[unLo] + d] > med && ec[a[unHi] + d] < med)
  {
    ghost var f, e := a[..], ec[..];
    unHi, gtHi := unHi0, gtHi0;
    while true
      invariant Within(f, a[..], lo, hi) && ec[..] == e
      invariant Scanned(a[..], e, d, med, lo, ltLo, unLo, unHi, gtHi, hi) && unHi <= unHi0
      invariant unLo <= unHi ==> e[a[unLo] + d] > med
      decreases unHi - unLo
    {
      if unLo > unHi { break; }
      var n := ec[a[unHi] + d] - med;
      if n == 0 {
        ScanEqualHigh(a[..], e, d, med, lo, ltLo, unLo, unHi, gtHi, hi);
        WithinTransitive(f, a[..], Swap(a[..], unHi, gtHi), lo, hi);
        SwapEntries(a, unHi, gtHi);
        gtHi, unHi := gtHi - 1, unHi - 1;
        continue;
      }
      if n < 0 { break; }
      ScanMore(a[..], e, d, med, lo, ltLo, unLo, unHi, gtHi, hi);
      unHi := unHi - 1;
    }
  }

  /** Where entry k comes from when the stretches of n entries at p1 and p2 change places. */
  function Across(k: int, p1: int, p2: int, n: int): int {
    if p1 <= k < p1 + n then k - p1 + p2 else if p2 <= k < p2 + n then k - p2 + p1 else k
  }

  /** f with the stretches of n entries at p1 and p2 exchanged. */
  ghost function Exchange(f: seq<int>, p1: int, p2: int, n: int): (g: seq<int>)
    requires 0 <= p1 && 0 <= n && p1 + n <= p2 && p2 + n <= |f|
    ensures |g| == |f| && forall k {:trigger g[k]} | 0 <= k < |f| :: g[k] == f[Across(k, p1, p2, n)]
  {
    seq(|f|, k requires 0 <= k < |f| => f[Across(k, p1, p2, n)])
  }

  lemma ExchangeStep(f: seq<int>, g: seq<int>, p1: nat, p2: nat, i: nat, n: nat, lo: int, hi: int)
    requires i < n && lo <= p1 && p1 + n <= p2 && p2 + n <= hi + 1 <= |f| == |g|
    requires g == Exchange(f, p1, p2, i) && Within(f, g, lo, hi)
    ensures Swap(g, p1 + i, p2 + i) == Exchange(f, p1, p2, i + 1) && Within(f, Swap(g, p1 + i, p2 + i), lo, hi)
  {
    hide Within, Exchange, Swap;
    ExchangeOne(f, p1, p2, i, n);
    SwapWithin(g, p1 + i, p2 + i, lo, hi);
    WithinTransitive(f, g, Swap(g, p1 + i, p2 + i), lo, hi);
  }

  lemma ExchangeOne(f: seq<int>, p1: nat, p2: nat, i: nat, n: nat)
    requires i < n && p1 + n <= p2 && p2 + n <= |f|
    ensures Swap(Exchange(f, p1, p2, i), p1 + i, p2 + i) == Exchange(f, p1, p2, i + 1)
  {
  }

  lemma WithinSame(f: seq<int>, lo: int, hi: int)
    ensures Within(f, f, lo, hi)
  {
  }

  lemma ExchangeNone(f: seq<int>, p1: nat, p2: nat)
    requires p1 <= p2 <= |f|
    ensures Exchange(f, p1, p2, 0) == f
  {
  }

  /** fvswap and mvswap: exchange two stretches of n entries. */
  method SwapStretches(a: array<int>, p1: nat, p2: nat, n: nat, ghost lo: int, ghost hi: int)
    requires lo <= p1 && p1 + n <= p2 && p2 + n <= hi + 1 <= a.Length
    modifies a
    ensures Within(old(a[..]), a[..], lo, hi) && a[..] == Exchange(old(a[..]), p1, p2, n)
  {
    hide Within, Rearranged, Exchange;
    ghost var f := a[..];
    WithinSame(f, lo, hi);
    ExchangeNone(f, p1, p2);
    var i := 0;
    while i < n
      invariant 0 <= i <= n && Within(f, a[..], lo, hi)
      invariant a[..] == Exchange(f, p1, p2, i)
    {
      ghost var g := a[..];
      ExchangeStep(f, g, p1, p2, i, n, lo, hi);
      SwapEntries(a, p1 + i, p2 + i);
      assert a[..] == Swap(g, p1 + i, p2 + i);
      i := i + 1;
    }
  }

  /** f is split about med: below up to n, equal, then above from m. */
  ghost predicate Parted(f: seq<int>, e: seq<int>, d: nat, med: int, lo: int, n: int, m: int, hi: int) {
    Keyed(f, e, d) && 0 <= lo && lo - 1 <= n && n + 1 < m <= hi + 1 <= |f| &&
    Lesser(f, e, d, lo, n + 1, med) && Equals(f, e, d, n + 1, m, med) && Greater(f, e, d, m, hi + 1, med)
  }

  /** The equal entries at the low end change places with the top of the lesser ones. */
  lemma GatherLow(f: seq<int>, f': seq<int>, e: seq<int>, d: nat, med: int,
                  lo: int, ltLo: int, unLo: int, gtHi: int, hi: int, n: int)
    requires Scanned(f, e, d, med, lo, ltLo, unLo, unLo - 1, gtHi, hi) && Keyed(f', e, d) && |f'| == |f|
    requires n == if ltLo - lo < unLo - ltLo then ltLo - lo else unLo - ltLo
    requires f' == Exchange(f, lo, unLo - n, n)
    ensures Lesser(f', e, d, lo, lo + unLo - ltLo, med) && Equals(f', e, d, lo + unLo - ltLo, unLo, med)
    ensures Greater(f', e, d, unLo, gtHi + 1, med) && Equals(f', e, d, gtHi + 1, hi + 1, med)
  {
  }

  /** The equal entries at the high end change places with the bottom of the greater ones. */
  lemma GatherHigh(f: seq<int>, f': seq<int>, e: seq<int>, d: nat, med: int,
                   lo: int, n: int, unLo: int, gtHi: int, hi: int, c: int)
    requires Keyed(f, e, d) && Keyed(f', e, d) && 0 <= lo <= n + 1 <= unLo <= gtHi + 1 <= hi + 1 <= |f| == |f'|
    requires Lesser(f, e, d, lo, n + 1, med) && Equals(f, e, d, n + 1, unLo, med)
    requires Greater(f, e, d, unLo, gtHi + 1, med) && Equals(f, e, d, gtHi + 1, hi + 1, med)
    requires c == if hi - gtHi < gtHi + 1 - unLo then hi - gtHi else gtHi + 1 - unLo
    requires f' == Exchange(f, unLo, hi - c + 1, c) && (n + 1 < unLo || gtHi < hi)
    ensures Parted(f', e, d, med, lo, n, hi - (gtHi + 1 - unLo) + 1, hi)
  {
  }

  ghost predicate Occurs(f: seq<int>, e: seq<int>, d: nat, lo: int, hi: int, med: int)
    requires Keyed(f, e, d)
  {
    exists k {:trigger f[k]} :: 0 <= lo <= k <= hi < |f| && e[f[k] + d] == med
  }

  lemma OccursWithin(f: seq<int>, f': seq<int>, e: seq<int>, d: nat, lo: nat, hi: int, med: int)
    requires Keyed(f, e, d) && Keyed(f', e, d) && Within(f, f', lo, hi) && Occurs(f, e, d, lo, hi, med)
    ensures Occurs(f', e, d, lo, hi, med)
  {
    var k :| 0 <= lo <= k <= hi < |f| && e[f[k] + d] == med;
    var o := WithinOrigin(f', f, lo, hi, k);
  }

  /** Separates lo..hi about med, leaving the equal entries at the two ends. */
  method Scan(a: array<int>, ec: array<int>, d: nat, lo: nat, hi: int, med: int)
      returns (ltLo: int, unLo: int, unHi: int, gtHi: int)
    requires a != ec && lo <= hi < a.Length && Keyed(a[..], ec[..], d)
    requires Occurs(a[..], ec[..], d, lo, hi, med)
    modifies a
    ensures Within(old(a[..]), a[..], lo, hi) && unHi == unLo - 1
    ensures Scanned(a[..], ec[..], d, med, lo, ltLo, unLo, unLo - 1, gtHi, hi) && (lo < ltLo || gtHi < hi)
  {
    hide Within, Rearranged, Equals, Lesser, Greater, Keyed, Occurs;
    ghost var f, e := a[..], ec[..];
    unLo, ltLo, unHi, gtHi := lo, lo, hi, hi;
    WithinSame(f, lo, hi);
    ScanStart(f, e, d, med, lo, hi);
    while true
      invariant Within(f, a[..], lo, hi) && Scanned(a[..], e, d, med, lo, ltLo, unLo, unHi, gtHi, hi) && ec[..] == e
      decreases unHi - unLo
    {
      ghost var g0 := a[..];
      ltLo, unLo := ScanUp(a, ec, d, med, lo, ltLo, unLo, unHi, gtHi, hi);
      ghost var g1 := a[..];
      unHi, gtHi := ScanDown(a, ec, d, med, lo, ltLo, unLo, unHi, gtHi, hi);
      WithinTransitive(f, g0, g1, lo, hi);
      WithinTransitive(f, g1, a[..], lo, hi);
      if unLo > unHi { break; }
      ScanInside(a[..], e, d, med, lo, ltLo, unLo, unHi, gtHi, hi);
      ScanCross(a[..], e, d, med, lo, ltLo, unLo, unHi, gtHi, hi);
      WithinTransitive(f, a[..], Swap(a[..], unLo, unHi), lo, hi);
      SwapEntries(a, unLo, unHi);
      unLo, unHi := unLo + 1, unHi - 1;
    }
    ScanEnd(f, a[..], e, d, med, lo, ltLo, unLo, gtHi, hi);
  }

  lemma ScanInside(f: seq<int>, e: seq<int>, d: nat, med: int, lo: int, ltLo: int, unLo: int, unHi: int, gtHi: int, hi: int)
    requires Scanned(f, e, d, med, lo, ltLo, unLo, unHi, gtHi, hi) && unLo <= unHi
    ensures Keyed(f, e, d) && 0 <= lo <= unLo <= unHi <= hi < |f|
  {
  }

  lemma ScanStart(f: seq<int>, e: seq<int>, d: nat, med: int, lo: nat, hi: int)
    requires Keyed(f, e, d) && lo <= hi < |f|
    ensures Scanned(f, e, d, med, lo, lo, lo, hi, hi, hi)
  {
  }

  /** Some entry was equal, so one of the ends is not empty. */
  lemma ScanEnd(f: seq<int>, f': seq<int>, e: seq<int>, d: nat, med: int, lo: nat, ltLo: int, unLo: int, gtHi: int, hi: int)
    requires Keyed(f, e, d) && Occurs(f, e, d, lo, hi, med) && Within(f, f', lo, hi)
    requires Scanned(f', e, d, med, lo, ltLo, unLo, unLo - 1, gtHi, hi)
    ensures lo < ltLo || gtHi < hi
  {
    OccursWithin(f, f', e, d, lo, hi, med);
  }

  lemma GatherBoth(f1: seq<int>, f2: seq<int>, f3: seq<int>, e: seq<int>, d: nat, med: int,
                   lo: int, ltLo: int, unLo: int, gtHi: int, hi: int, n: int, m: int)
    requires Scanned(f1, e, d, med, lo, ltLo, unLo, unLo - 1, gtHi, hi) && (lo < ltLo || gtHi < hi)
    requires Within(f1, f2, lo, hi) && Within(f2, f3, lo, hi)
    requires n == if ltLo - lo < unLo - ltLo then ltLo - lo else unLo - ltLo
    requires m == if hi - gtHi < gtHi + 1 - unLo then hi - gtHi else gtHi + 1 - unLo
    requires f2 == Exchange(f1, lo, unLo - n, n) && f3 == Exchange(f2, unLo, hi - m + 1, m)
    ensures Within(f1, f3, lo, hi)
    ensures Parted(f3, e, d, med, lo, lo + unLo - ltLo - 1, hi - (gtHi + 1 - unLo) + 1, hi)
  {
    KeyedWithin(f1, f2, e, d, lo, hi);
    KeyedWithin(f2, f3, e, d, lo, hi);
    GatherLow(f1, f2, e, d, med, lo, ltLo, unLo, gtHi, hi, n);
    GatherHigh(f2, f3, e, d, med, lo, lo + unLo - ltLo - 1, unLo, gtHi, hi, m);
    WithinTransitive(f1, f2, f3, lo, hi);
  }

  /** Swaps the equal entries from the two ends into the middle. */
  method Gather(a: array<int>, ghost e: seq<int>, ghost d: nat, ghost med: int,
                lo: int, ltLo: int, unLo: int, gtHi: int, hi: int)
    requires Scanned(a[..], e, d, med, lo, ltLo, unLo, unLo - 1, gtHi, hi) && (lo < ltLo || gtHi < hi)
    modifies a
    ensures Within(old(a[..]), a[..], lo, hi)
    ensures Parted(a[..], e, d, med, lo, lo + unLo - ltLo - 1, hi - (gtHi + 1 - unLo) + 1, hi)
  {
    hide Within, Rearranged, Parted, Equals, Lesser, Greater, Keyed, Exchange;
    ghost var f1 := a[..];
    var n := if ltLo - lo < unLo - ltLo then ltLo - lo else unLo - ltLo;
    SwapStretches(a, lo, unLo - n, n, lo, hi);
    ghost var f2 := a[..];
    var m := if hi - gtHi < gtHi + 1 - unLo then hi - gtHi else gtHi + 1 - unLo;
    SwapStretches(a, unLo, hi - m + 1, m, lo, hi);
    ghost var f3 := a[..];
    GatherBoth(f1, f2, f3, e, d, med, lo, ltLo, unLo, gtHi, hi, n, m);
  }

  /** Splits lo..hi about med, the key of some entry there. */
  method Partition(a: array<int>, ec: array<int>, d: nat, lo: nat, hi: int, med: int)
      returns (allEqual: bool, n: int, m: int)
    requires a != ec && lo <= hi < a.Length && Keyed(a[..], ec[..], d)
    requires Occurs(a[..], ec[..], d, lo, hi, med)
    modifies a
    ensures Within(old(a[..]), a[..], lo, hi) && Parted(a[..], ec[..], d, med, lo, n, m, hi)
    ensures allEqual ==> n == lo - 1 && m == hi + 1
  {
    ghost var f, e := a[..], ec[..];
    var ltLo, unLo, unHi, gtHi := Scan(a, ec, d, lo, hi, med);
    ghost var f1 := a[..];
    if gtHi < ltLo {
      return true, lo - 1, hi + 1;
    }
    Gather(a, e, d, med, lo, ltLo, unLo, gtHi, hi);
    WithinTransitive(f, f1, a[..], lo, hi);
    allEqual := false;
    n := lo + unLo - ltLo - 1;
    m := hi - (gtHi - unHi) + 1;
  }
}
