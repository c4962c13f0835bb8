// Finite permutations of 0..n-1 held in sequences, and the counting facts the sorters and the
// inverse transform rest on.
module Permutations {

  type byte = x: int | 0 <= x < 256

  ghost predicate InRange(p: seq<int>, n: nat) {
    forall k | 0 <= k < |p| :: 0 <= p[k] < n
  }

  ghost predicate Distinct<T>(p: seq<T>) {
    forall i, j | 0 <= i < j < |p| :: p[i] != p[j]
  }

  /** p lists every number below |p| exactly once. */
  ghost predicate IsPermutation(p: seq<int>) {
    InRange(p, |p|) && Distinct(p)
  }

  ghost function Elements<T>(p: seq<T>): set<T> {
    set x | x in p
  }

  /** The numbers below n. */
  ghost function Below(n: nat): (r: set<int>)
    ensures |r| == n
    ensures forall x :: x in r <==> 0 <= x < n
  {
    if n == 0 then {} else Below(n - 1) + {n - 1}
  }

  lemma {:induction false} DistinctSize<T>(p: seq<T>)
    requires Distinct(p)
    ensures |Elements(p)| == |p|
  {
    if p != [] {
      var last := |p| - 1;
      DistinctSize(p[..last]);
      assert Elements(p) == Elements(p[..last]) + {p[last]};
    }
  }

  lemma SubsetSize<T>(a: set<T>, b: set<T>)
    requires a <= b
    ensures |a| <= |b|
    ensures |a| == |b| ==> a == b
  {
    assert b == a + (b - a);
  }

  /** Pigeonhole: distinct numbers below n are at most n, and n of them leave nothing out. */
  lemma Pigeonhole(p: seq<int>, n: nat)
    requires Distinct(p) && InRange(p, n)
    ensures |p| <= n
    ensures |p| == n ==> forall x | 0 <= x < n :: x in p
  {
    DistinctSize(p);
    SubsetSize(Elements(p), Below(n));
    if |p| == n {
      forall x | 0 <= x < n ensures x in p {
        assert x in Below(n);
      }
    }
  }

  /** Where x stands in the permutation p. */
  ghost function IndexOf(p: seq<int>, x: int): (k: nat)
    requires IsPermutation(p) && 0 <= x < |p|
    ensures k < |p| && p[k] == x
  {
    Pigeonhole(p, |p|);
    assert x in p;
    var k :| 0 <= k < |p| && p[k] == x;
    k
  }

  /** A rearrangement of a permutation is a permutation. */
  lemma SameElementsPermutation(p: seq<int>, q: seq<int>)
    requires IsPermutation(p) && multiset(q) == multiset(p)
    ensures IsPermutation(q)
  {
    assert |q| == |multiset(q)| == |multiset(p)| == |p|;
    forall k | 0 <= k < |q| ensures 0 <= q[k] < |q| {
      assert q[k] in multiset(q);
      assert q[k] in p;
    }
    MultisetDistinct(p);
    forall i, j | 0 <= i < j < |q| ensures q[i] != q[j] {
      RepeatCounts(q, i, j);
    }
  }

  lemma RepeatCounts<T>(q: seq<T>, i: nat, j: nat)
    requires i < j < |q|
    ensures q[i] == q[j] ==> multiset(q)[q[i]] >= 2
  {
    assert q == q[..j] + q[j..];
    assert q[..j][i] == q[i] && q[j..][0] == q[j];
    assert q[i] in q[..j] && q[j] in q[j..];
  }

  lemma {:induction false} MultisetDistinct<T>(p: seq<T>)
    requires Distinct(p)
    ensures forall x :: multiset(p)[x] <= 1
  {
    if p != [] {
      var last := |p| - 1;
      MultisetDistinct(p[..last]);
      assert p == p[..last] + [p[last]];
      assert p[last] !in p[..last];
    }
  }

  /** The entries of b at the places f lists. */
  function Select<T>(b: seq<T>, f: seq<int>): (s: seq<T>)
    requires InRange(f, |b|)
    ensures |s| == |f|
  {
    seq(|f|, k requires 0 <= k < |f| => b[f[k]])
  }

  function Without<T>(s: seq<T>, k: nat): (r: seq<T>)
    requires k < |s|
  {
    s[..k] + s[k + 1..]
  }

  lemma WithoutOne<T>(s: seq<T>, k: nat)
    requires k < |s|
    ensures multiset(s) == multiset(Without(s, k)) + multiset{s[k]}
    ensures multiset(Without(s, k)) == multiset(s) - multiset{s[k]}
  {
    assert s == s[..k] + [s[k]] + s[k + 1..];
  }

  lemma SelectWithout<T>(b: seq<T>, f: seq<int>, k: nat)
    requires InRange(f, |b|) && k < |f|
    ensures InRange(Without(f, k), |b|)
    ensures multiset(Select(b, f)) == multiset(Select(b, Without(f, k))) + multiset{b[f[k]]}
  {
    WithoutOne(Select(b, f), k);
    assert Select(b, Without(f, k)) == Without(Select(b, f), k);
  }

  lemma {:induction false} SelectMultiset<T>(b: seq<T>, f: seq<int>, g: seq<int>)
    requires InRange(f, |b|) && InRange(g, |b|) && multiset(f) == multiset(g)
    ensures multiset(Select(b, f)) == multiset(Select(b, g))
    decreases |f|
  {
    assert |f| == |multiset(f)| == |multiset(g)| == |g|;
    if f != [] {
      assert f[0] in multiset(g);
      var k :| 0 <= k < |g| && g[k] == f[0];
      WithoutOne(f, 0);
      WithoutOne(g, k);
      SelectWithout(b, f, 0);
      SelectWithout(b, g, k);
      SelectMultiset(b, Without(f, 0), Without(g, k));
    } else {
      assert Select(b, f) == Select(b, g);
    }
  }

  /** Reading b in the order of a permutation only rearranges it. */
  lemma SelectPermutation<T>(b: seq<T>, f: seq<int>)
    requires IsPermutation(f) && |f| == |b|
    ensures multiset(Select(b, f)) == multiset(b)
  {
    var g := seq(|b|, k => k);
    forall x ensures multiset(f)[x] == multiset(g)[x] {
      MultisetDistinct(f);
      MultisetDistinct(g);
      Pigeonhole(f, |b|);
      if 0 <= x < |b| {
        assert x in f && g[x] == x;
      } else {
        assert x !in f && x !in g;
      }
    }
    SelectMultiset(b, f, g);
    assert Select(b, g) == b;
  }

  /** The list 0, 1, ..., n - 1. */
  function Iota(n: nat): (r: seq<int>)
    ensures |r| == n && IsPermutation(r)
  {
    seq(n, k => k)
  }

  lemma Assoc<T>(a: seq<T>, b: seq<T>, c: seq<T>)
    ensures (a + b) + c == a + (b + c)
  {
  }

  lemma Nothing<T>(a: seq<T>)
    ensures [] + a == a && a + [] == a
  {
  }
}
