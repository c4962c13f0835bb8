// The radix step of both sorters: positions are dropped into their buckets from the top down, each
// bucket's pointer ending at the bucket's start.
module Radix {
  import opened Permutations
  import opened Counting

  ghost predicate Keys(l: seq<int>, top: nat) {
    forall k | 0 <= k < |l| :: 0 <= l[k] < top
  }

  /** Where bucket c's pointer stands once the first i keys have been dropped. */
  ghost function Pointer(l: seq<int>, i: nat, c: nat): int
    requires i <= |l|
  {
    CountBelow(l, c + 1) - multiset(l[..i])[c]
  }

  ghost predicate InBucket(l: seq<int>, c: nat, s: int) {
    CountBelow(l, c) <= s < CountBelow(l, c + 1)
  }

  /** Slot s of bucket c is taken by one of the first i keys. */
  ghost predicate Taken(l: seq<int>, i: nat, c: nat, s: int)
    requires i <= |l|
  {
    Pointer(l, i, c) <= s && InBucket(l, c, s)
  }

  ghost predicate Dropped(l: seq<int>, top: nat, i: nat, t: seq<int>)
    requires i <= |l|
  {
    |t| == |l| && Keys(l, top) &&
    (forall c, s | 0 <= c < top && Taken(l, i, c, s) :: 0 <= s < |l| && 0 <= t[s] < i && l[t[s]] == c) &&
    forall c, s, s' | 0 <= c < top && Taken(l, i, c, s) && Taken(l, i, c, s') && s < s' :: t[s] > t[s']
  }

  lemma PointerInBucket(l: seq<int>, top: nat, i: nat, c: nat)
    requires i <= |l| && Keys(l, top) && c < top
    ensures 0 <= CountBelow(l, c) <= Pointer(l, i, c) <= CountBelow(l, c + 1) <= |l|
  {
    assert l == l[..i] + l[i..];
    CountBelowMonotone(l, c + 1, top);
    CountBelowAll(l, top);
  }

  lemma PointerMoves(l: seq<int>, top: nat, i: nat, c: nat)
    requires i < |l| && Keys(l, top) && c < top
    ensures Pointer(l, i + 1, c) == Pointer(l, i, c) - (if c == l[i] then 1 else 0)
    ensures 0 <= CountBelow(l, c) <= Pointer(l, i + 1, c)
  {
    CountInPrefix(l, i);
    PointerInBucket(l, top, i + 1, c);
  }

  /** Buckets lie apart, so a slot of one is no slot of another. */
  lemma OtherSlot(l: seq<int>, top: nat, c: nat, d: nat, s: int)
    requires Keys(l, top) && c < top && d < top && InBucket(l, c, s)
    ensures InBucket(l, d, s) ==> c == d
  {
    if c < d {
      CountBelowMonotone(l, c + 1, d);
    } else if d < c {
      CountBelowMonotone(l, d + 1, c);
    }
  }

  lemma DropStep(l: seq<int>, top: nat, i: nat, t: seq<int>)
    requires i < |l| && Dropped(l, top, i, t)
    ensures var s := Pointer(l, i, l[i]) - 1; 0 <= s < |l| && Dropped(l, top, i + 1, t[s := i])
  {
    var d, m := l[i], i + 1;
    var s := Pointer(l, i, d) - 1;
    PointerMoves(l, top, i, d);
    PointerInBucket(l, top, i, d);
    var t' := t[s := i];
    forall c, r | 0 <= c < top && Taken(l, m, c, r)
      ensures (r == s && c == d) || (r != s && Taken(l, i, c, r))
    {
      PointerMoves(l, top, i, c);
      PointerInBucket(l, top, i, c);
      OtherSlot(l, top, d, c, s);
    }
    assert forall c, r | 0 <= c < top && Taken(l, m, c, r) :: 0 <= r < |l| && 0 <= t'[r] < m && l[t'[r]] == c;
    forall c, r, r' | 0 <= c < top && Taken(l, m, c, r) && Taken(l, m, c, r') && r < r'
      ensures t'[r] > t'[r']
    {
      PointerMoves(l, top, i, c);
      assert r' != s;
      assert Taken(l, i, c, r');
    }
  }

  /** t lists the positions of l bucket by bucket. */
  ghost predicate BucketListing(l: seq<int>, top: nat, t: seq<int>) {
    |t| == |l| && IsPermutation(t) && Keys(l, top) &&
    forall c, s {:trigger InBucket(l, c, s)} | 0 <= c < top && InBucket(l, c, s) :: 0 <= s < |l| && l[t[s]] == c
  }

  lemma DroppedAll(l: seq<int>, top: nat, t: seq<int>)
    requires Dropped(l, top, |l|, t)
    ensures BucketListing(l, top, t)
  {
    assert l[..|l|] == l;
    CountBelowAll(l, top);
    forall x | 0 <= x < |t| ensures 0 <= t[x] < |l| {
      var c := BucketOf(l, top, x);
      FullyTaken(l, c, x);
    }
    forall c, s | 0 <= c < top && InBucket(l, c, s) ensures 0 <= s < |l| && l[t[s]] == c {
      FullyTaken(l, c, s);
    }
    forall x, y | 0 <= x < y < |t| ensures t[x] != t[y] {
      var c := BucketOf(l, top, x);
      var d := BucketOf(l, top, y);
      FullyTaken(l, c, x);
      FullyTaken(l, d, y);
    }
  }

  lemma FullyTaken(l: seq<int>, c: nat, s: int)
    requires InBucket(l, c, s)
    ensures Taken(l, |l|, c, s)
  {
    PointersEnd(l, c);
  }

  lemma PointersEnd(l: seq<int>, c: nat)
    ensures Pointer(l, |l|, c) == CountBelow(l, c)
  {
    assert l[..|l|] == l;
  }

  // ----- the running counts the buckets start from

  /** cf[c] is the running count up to and including c. */
  ghost predicate Ends(cf: seq<int>, l: seq<int>, top: nat) {
    |cf| == top + 1 && forall c {:trigger cf[c]} | 0 <= c < top :: cf[c] == Pointer(l, 0, c)
  }

  ghost predicate Counts(cc: seq<int>, l: seq<int>, i: nat, top: nat)
    requires i <= |l|
  {
    |cc| >= top && forall c {:trigger cc[c]} | 0 <= c < top :: cc[c] == multiset(l[..i])[c]
  }

  lemma CountNext(cc: seq<int>, l: seq<int>, i: nat, top: nat)
    requires i < |l| && Keys(l, top) && Counts(cc, l, i, top)
    ensures Counts(cc[l[i] := cc[l[i]] + 1], l, i + 1, top)
  {
    CountInPrefix(l, i);
  }

  /** Frequencies become bucket ends. */
  method RunningCounts(ftab: array<int>, top: nat, ghost l: seq<int>)
    requires ftab.Length == top + 1 && top >= 1 && Counts(ftab[..], l, |l|, top)
    modifies ftab
    ensures Ends(ftab[..], l, top) && ftab[top] == old(ftab[top]) + CountBelow(l, top)
  {
    assert l[..|l|] == l && l[..0] == [];
    ghost var cc := ftab[..];
    assert CountBelow(l, 1) == CountBelow(l, 0) + multiset(l)[0];
    assert cc[0] == Pointer(l, 0, 0);
    for i := 1 to top + 1
      invariant forall c {:trigger ftab[c]} | i <= c <= top :: ftab[c] == cc[c]
      invariant forall c {:trigger ftab[c]} | 0 <= c < i && c < top :: ftab[c] == Pointer(l, 0, c)
      invariant i == top + 1 ==> ftab[top] == cc[top] + Pointer(l, 0, top - 1)
    {
      if i < top { assert cc[i] == multiset(l)[i] && ftab[i - 1] == Pointer(l, 0, i - 1); }
      ftab[i] := ftab[i] + ftab[i - 1];
    }
  }
}
