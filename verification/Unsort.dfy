// The decoder's two ways of undoing the block sort: tt holds the last column and the inverse vector
// in one word (fast); ll16/ll4 hold a 20-bit vector reversed in place along one cycle (small).
module Unsort {
  import opened Permutations
  import opened Rotations
  import opened Bits
  import opened Counting
  import opened InverseBwt

  /** Turns per-byte frequencies into bucket starts. */
  method MakeCftab(unzftab: array<int>, cftab: array<int>, ghost l: seq<byte>)
    requires unzftab.Length == 256 && cftab.Length == 257 && unzftab != cftab
    requires forall c | 0 <= c < 256 :: unzftab[c] == multiset(l)[c]
    modifies cftab
    ensures Cftab(cftab[..], l)
  {
    cftab[0] := 0;
    for i := 1 to 257
      invariant cftab[0] == 0
      invariant forall c | 1 <= c < i :: cftab[c] == unzftab[c - 1]
    {
      cftab[i] := unzftab[i - 1];
    }
    for i := 1 to 257
      invariant forall c {:trigger cftab[c]} | 0 <= c < i :: cftab[c] == CountBelow(l, c)
      invariant forall c | i <= c <= 256 :: cftab[c] == unzftab[c - 1]
    {
      cftab[i] := cftab[i] + cftab[i - 1];
    }
  }

  /** The first slot of byte c's bucket that the first i bytes of l leave free. */
  ghost function FreeSlot(l: seq<byte>, i: nat, c: nat): nat
    requires i <= |l|
  {
    CountBelow(l, c) + multiset(l[..i])[c]
  }

  /** Slot s of byte c's bucket has been filled by the first i bytes of l. */
  ghost predicate Filled(l: seq<byte>, i: nat, c: int, s: int)
    requires i <= |l| && 0 <= c < 256
  {
    CountBelow(l, c) <= s < FreeSlot(l, i, c)
  }

  ghost predicate Waiting(l: seq<byte>, i: nat, c: int, s: int)
    requires i <= |l| && 0 <= c < 256
  {
    FreeSlot(l, i, c) <= s < CountBelow(l, c + 1)
  }

  /** t lists, bucket by bucket and in order, the positions seen among the first i bytes. */
  ghost predicate PartialOrder(l: seq<byte>, i: nat, t: seq<int>)
    requires i <= |l|
  {
    |t| == |l| && InRange(t, |l|) &&
    (forall c, s | 0 <= c < 256 && Filled(l, i, c, s) :: s < |l| && t[s] < i && l[t[s]] == c) &&
    (forall c, s | 0 <= c < 256 && Waiting(l, i, c, s) && s < |l| :: t[s] == 0) &&
    forall c, s, s' | 0 <= c < 256 && Filled(l, i, c, s) && Filled(l, i, c, s') && s < s' :: t[s] < t[s']
  }

  /** The slot the next byte goes to. */
  ghost function NextSlot(l: seq<byte>, i: nat): (s: nat)
    requires i < |l|
    ensures s == FreeSlot(l, i, l[i]) && s < |l| && Waiting(l, i, l[i], s)
  {
    var c: int := l[i];
    CountInPrefix(l, i);
    CountBelowMonotone(l, c + 1, 256);
    CountBelowAll(l, 256);
    FreeSlot(l, i, c)
  }

  lemma PartialStep(l: seq<byte>, i: nat, t: seq<int>)
    requires i < |l| && PartialOrder(l, i, t)
    ensures PartialOrder(l, i + 1, t[NextSlot(l, i) := i])
  {
    var s, m := NextSlot(l, i), i + 1;
    CountInPrefix(l, i);
    var t' := t[s := i];
    forall c, r | 0 <= c < 256 && Filled(l, m, c, r)
      ensures (r == s && c == l[i]) || (r != s && Filled(l, i, c, r))
    {
      if c != l[i] {
        OtherBucket(l, i, c, r);
      }
    }
    forall c, r | 0 <= c < 256 && Waiting(l, m, c, r)
      ensures r != s && Waiting(l, i, c, r)
    {
      if c != l[i] {
        OtherBucket(l, i, c, r);
      }
    }
    assert forall c, r | 0 <= c < 256 && Filled(l, m, c, r) :: r < |l| && t'[r] < m && l[t'[r]] == c;
    forall c, r, r' | 0 <= c < 256 && Filled(l, m, c, r) && Filled(l, m, c, r') && r < r'
      ensures t'[r] < t'[r']
    {
      assert r != s && r' < |l|;
      assert Filled(l, i, c, r);
    }
    assert forall c, r | 0 <= c < 256 && Waiting(l, m, c, r) && r < |l| :: t'[r] == 0;
  }

  /** A word holding byte x below index i, as the decoder packs it. */
  function Packed(x: byte, i: nat): nat { x + 256 * i }

  function LowByte(w: nat): byte { w % 256 }

  function HighPart(w: nat): nat { w / 256 }

  lemma PackedParts(x: byte, i: nat)
    ensures Or(Packed(x, 0), i * 256) == Packed(x, i)
    ensures LowByte(Packed(x, i)) == x && HighPart(Packed(x, i)) == i
    ensures i < 0x100_0000 ==> Packed(x, i) < 0x1_0000_0000
  {
    assert Pow2(8) == 256;
    OrDisjoint(i, x, 8);
    ModUnique(Packed(x, i), i, x, 256);
  }

  lemma OtherBucket(l: seq<byte>, i: nat, c: int, r: int)
    requires i < |l| && 0 <= c < 256 && c != l[i]
    ensures Filled(l, i + 1, c, r) <==> Filled(l, i, c, r)
    ensures Waiting(l, i + 1, c, r) <==> Waiting(l, i, c, r)
    ensures Filled(l, i, c, r) || Waiting(l, i, c, r) ==> r != NextSlot(l, i)
  {
    var d: int := l[i];
    CountInPrefix(l, i);
    CountInWhole(l, i, c);
    if c < d {
      CountBelowMonotone(l, c + 1, d);
    } else {
      CountBelowMonotone(l, d + 1, c);
    }
  }

  lemma CountInWhole(l: seq<byte>, i: nat, c: int)
    requires i <= |l| && 0 <= c < 256
    ensures multiset(l[..i])[c] <= multiset(l)[c]
  {
    assert l == l[..i] + l[i..];
  }

  /** The first i positions of l, each in the slot a counting sort gives it; 0 in slots not yet given. */
  ghost function OrderAt(l: seq<byte>, i: nat): (t: seq<int>)
    requires i <= |l|
    ensures |t| == |l| && InRange(t, |l|)
  {
    if i == 0 then seq(|l|, _ => 0) else OrderAt(l, i - 1)[NextSlot(l, i - 1) := i - 1]
  }

  /** The counting sort's order of the positions of l. */
  ghost function SortOrder(l: seq<byte>): (t: seq<int>)
    ensures |t| == |l| && InRange(t, |l|)
  {
    OrderAt(l, |l|)
  }

  lemma {:induction false} OrderAtPartial(l: seq<byte>, i: nat)
    requires i <= |l|
    ensures PartialOrder(l, i, OrderAt(l, i))
  {
    if i == 0 {
      assert l[..0] == [];
    } else {
      OrderAtPartial(l, i - 1);
      PartialStep(l, i - 1, OrderAt(l, i - 1));
    }
  }

  /** The counting sort is stable. */
  lemma SortOrderStable(l: seq<byte>)
    ensures StableOrder(l, SortOrder(l)) && IsPermutation(SortOrder(l))
  {
    var t := SortOrder(l);
    OrderAtPartial(l, |l|);
    assert l[..|l|] == l;
    CountBelowAll(l, 256);
    forall x, y | 0 <= x < y < |l|
      ensures l[t[x]] < l[t[y]] || (l[t[x]] == l[t[y]] && t[x] < t[y])
    {
      var d := BucketOf(l, 256, x);
      var e := BucketOf(l, 256, y);
      assert Filled(l, |l|, d, x) && Filled(l, |l|, e, y);
      if e < d {
        CountBelowMonotone(l, e + 1, d);
      }
    }
  }

  /** A filled slot stays filled and is never handed out again. */
  lemma FilledStays(l: seq<byte>, i: nat, c: int, r: int)
    requires i < |l| && 0 <= c < 256 && Filled(l, i, c, r)
    ensures r != NextSlot(l, i) && Filled(l, i + 1, c, r)
  {
    if c == l[i] {
      CountInPrefix(l, i);
    } else {
      OtherBucket(l, i, c, r);
    }
  }

  lemma JustFilled(l: seq<byte>, i: nat)
    requires i < |l|
    ensures Filled(l, i + 1, l[i], NextSlot(l, i))
  {
    CountInPrefix(l, i);
  }

  lemma {:induction false} SlotKept(l: seq<byte>, k: nat, i: nat)
    requires k < i <= |l|
    ensures Filled(l, i, l[k], NextSlot(l, k)) && OrderAt(l, i)[NextSlot(l, k)] == k
    decreases i
  {
    if k == i - 1 {
      JustFilled(l, k);
    } else {
      SlotKept(l, k, i - 1);
      FilledStays(l, i - 1, l[k], NextSlot(l, k));
    }
  }

  /** Position k stands in slot NextSlot(l, k): the slots taken in turn are the inverse of the order. */
  lemma SlotsInvertOrder(l: seq<byte>, k: nat)
    requires k < |l|
    ensures SortOrder(l)[NextSlot(l, k)] == k
  {
    SlotKept(l, k, |l|);
  }

  /** The byte heading row x of the sorted matrix is the last-column byte at SortOrder(l)[x]. */
  lemma FirstColumn(l: seq<byte>, x: nat, c: nat)
    requires x < |l| && c < 256 && CountBelow(l, c) <= x < CountBelow(l, c + 1)
    ensures l[SortOrder(l)[x]] == c
  {
    OrderAtPartial(l, |l|);
    assert l[..|l|] == l;
    assert Filled(l, |l|, c, x);
  }

  /** Bucket starts as MakeCftab leaves them. */
  ghost predicate Cftab(cf: seq<int>, l: seq<byte>) {
    |cf| == 257 && forall c {:trigger cf[c]} | 0 <= c <= 256 :: cf[c] == CountBelow(l, c)
  }

  /** The bucket pointers once the first i bytes have taken their slots. */
  ghost function PointersAt(l: seq<byte>, i: nat): (cf: seq<int>)
    requires i <= |l|
    ensures |cf| == 257
  {
    seq(257, c requires 0 <= c < 257 => if c < 256 then FreeSlot(l, i, c) else |l|)
  }

  lemma PointersStart(cf: seq<int>, l: seq<byte>)
    requires Cftab(cf, l)
    ensures cf == PointersAt(l, 0)
  {
    assert l[..0] == [];
    CountBelowAll(l, 256);
  }

  lemma PointersStep(l: seq<byte>, i: nat)
    requires i < |l|
    ensures PointersAt(l, i)[l[i]] == NextSlot(l, i)
    ensures PointersAt(l, i)[l[i] := NextSlot(l, i) + 1] == PointersAt(l, i + 1)
  {
    CountInPrefix(l, i);
  }

  /** The words of tt once i positions have been or-ed in above the last column's bytes. */
  ghost function WordsAt(l: seq<byte>, i: nat): (w: seq<nat>)
    requires i <= |l|
    ensures |w| == |l|
  {
    seq(|l|, k requires 0 <= k < |l| => Packed(l[k], OrderAt(l, i)[k]))
  }

  lemma WordsStart(l: seq<byte>)
    ensures WordsAt(l, 0) == l
  {
  }

  lemma WordsStep(l: seq<byte>, i: nat)
    requires i < |l|
    ensures LowByte(WordsAt(l, i)[i]) == l[i]
    ensures var s := NextSlot(l, i);
      Or(WordsAt(l, i)[s], i * 256) == Packed(l[s], i) && WordsAt(l, i)[s := Packed(l[s], i)] == WordsAt(l, i + 1)
  {
    var s := NextSlot(l, i);
    OrderAtPartial(l, i);
    PackedParts(l[i], OrderAt(l, i)[i]);
    PackedParts(l[s], i);
  }

  /** w holds the bytes of l with the order t above them. */
  ghost predicate Threaded(w: seq<int>, l: seq<byte>, t: seq<int>) {
    |l| == |t| <= |w| && InRange(t, |l|) &&
    forall k {:trigger w[k]} | 0 <= k < |l| :: w[k] == Packed(l[k], t[k])
  }

  /** The fast inverse vector: byte k of the last column in the low 8 bits of tt[k], the order above it. */
  method BuildFast(tt: array<int>, cftab: array<int>, nblock: nat, ghost l: seq<byte>)
    requires |l| == nblock <= tt.Length && tt != cftab
    requires tt[..nblock] == l && Cftab(cftab[..], l)
    modifies tt, cftab
    ensures Threaded(tt[..], l, SortOrder(l))
  {
    hide WordsAt, PointersAt, Or, Packed, LowByte, NextSlot;
    PointersStart(cftab[..], l);
    WordsStart(l);
    for i := 0 to nblock
      invariant tt[..nblock] == WordsAt(l, i) && cftab[..] == PointersAt(l, i)
    {
      ghost var w, cf := tt[..nblock], cftab[..];
      PointersStep(l, i);
      WordsStep(l, i);
      var uc := LowByte(tt[i]);
      var s := cftab[uc];
      assert tt[s] == w[s];
      tt[s] := Or(tt[s], i * 256);
      cftab[uc] := cftab[uc] + 1;
      assert tt[..nblock] == w[s := Packed(l[s], i)];
      assert cftab[..] == cf[uc := cf[uc] + 1];
    }
    WordsDone(tt[..], l);
  }

  lemma WordsDone(w: seq<int>, l: seq<byte>)
    requires |l| <= |w| && w[..|l|] == WordsAt(l, |l|)
    ensures Threaded(w, l, SortOrder(l))
  {
    hide Packed;
    assert forall k {:trigger w[k]} | 0 <= k < |l| :: w[k] == w[..|l|][k];
  }
}
