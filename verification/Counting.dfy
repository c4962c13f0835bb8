// Bucket boundaries for counting sorts.
module Counting {

  /** How many entries of l are less than c. */
  function CountBelow(l: seq<int>, c: nat): nat {
    if c == 0 then 0 else CountBelow(l, c - 1) + multiset(l)[c - 1]
  }

  lemma {:induction false} CountBelowSnoc(l: seq<int>, x: nat, c: nat)
    ensures CountBelow(l + [x], c) == CountBelow(l, c) + (if x < c then 1 else 0)
  {
    if c > 0 {
      CountBelowSnoc(l, x, c - 1);
    }
  }

  lemma {:induction false} CountBelowMonotone(l: seq<int>, c: nat, d: nat)
    requires c <= d
    ensures CountBelow(l, c) <= CountBelow(l, d)
    decreases d
  {
    if c < d {
      CountBelowMonotone(l, c, d - 1);
    }
  }

  lemma {:induction false} CountBelowAll(l: seq<int>, c: nat)
    requires forall k | 0 <= k < |l| :: 0 <= l[k] < c
    ensures CountBelow(l, c) == |l|
  {
    if l == [] {
      CountBelowEmpty(c);
    } else {
      var last := |l| - 1;
      CountBelowAll(l[..last], c);
      CountBelowSnoc(l[..last], l[last], c);
      assert l == l[..last] + [l[last]];
    }
  }

  lemma {:induction false} CountBelowEmpty(c: nat)
    ensures CountBelow([], c) == 0
  {
    if c > 0 {
      CountBelowEmpty(c - 1);
    }
  }

  /** A prefix that stops before an x holds strictly fewer of them. */
  lemma CountInPrefix(l: seq<int>, i: nat)
    requires i < |l|
    ensures multiset(l[..i])[l[i]] < multiset(l)[l[i]]
    ensures multiset(l[..i + 1]) == multiset(l[..i]) + multiset{l[i]}
    ensures forall c :: multiset(l[..i])[c] <= multiset(l)[c]
  {
    assert l[..i + 1] == l[..i] + [l[i]];
    assert l == l[..i + 1] + l[i + 1..];
  }

  /** The bucket that holds slot x. */
  lemma {:induction false} BucketOf(l: seq<int>, c: nat, x: nat) returns (d: nat)
    requires x < CountBelow(l, c)
    ensures d < c && CountBelow(l, d) <= x < CountBelow(l, d + 1)
  {
    if x < CountBelow(l, c - 1) {
      d := BucketOf(l, c - 1, x);
    } else {
      d := c - 1;
    }
  }
}
