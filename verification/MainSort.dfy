// mainSort: radix sort on two bytes, then big bucket by big bucket, smallest first: quicksort what is left of it, copy
// the order of its predecessors into the small buckets of other bytes, and cache the order in the quadrants.
module MainSort {
  import opened Permutations
  import opened Rotations
  import opened RotOrder
  import opened ThreeWay
  import opened MainCompare
  import opened MainSimpleSort
  import opened SmallBuckets
  import opened CopyScan
  import MainRadix
  import MainQSort
  import QuadrantCache
  import RunningOrder

  const N_RADIX := 2

  // ----- the state between two steps

  /** Every small bucket that begins with a finished byte is marked. */
  ghost predicate DoneMarked(ft: seq<int>, done: seq<bool>)
    requires |ft| == 65537 && |done| == 256
  {
    forall c {:trigger ft[c]} | 0 <= c < 65536 && done[c / 256] :: Marked(ft[c])
  }

  /** The listing, the table and the marks fit. */
  ghost predicate Sorting(b: seq<byte>, f: seq<int>, ft: seq<int>) {
    Listing(b, f) && Table(b, ft) && MarkedSorted(b, f, ft)
  }

  /** Whether every small bucket [ss, j] is marked, but perhaps [ss, ss]. */
  ghost predicate RowMarked(ft: seq<int>, ss: nat, upto: int)
    requires |ft| == 65537 && ss < 256
  {
    forall c {:trigger ft[c]} | ss * 256 <= c < ss * 256 + upto && c < (ss + 1) * 256 && c != ss * 256 + ss :: Marked(ft[c])
  }

  lemma Starts(b: seq<byte>, f: seq<int>, ft: seq<int>)
    requires Listing(b, f) && |b| <= 900_000 && |ft| == 65537 && forall c {:trigger ft[c]} | 0 <= c < 65537 :: ft[c] == Edge(b, c)
    ensures Sorting(b, f, ft) && forall c {:trigger ft[c]} | 0 <= c < 65536 :: !Marked(ft[c])
  {
    hide Edge, SmallSorted;
    forall c | 0 <= c < 65537 ensures 0 <= ft[c] < SETMASK && !Marked(ft[c]) {
      EdgeOrder(b, c, c);
    }
  }

  // ----- step 1

  lemma SmallAlike(b: seq<byte>, f: seq<int>, c: nat)
    requires Listing(b, f) && c < 65536
    ensures Alike(f, b, Edge(b, c), Edge(b, c + 1) - 1, N_RADIX) && Positions(f, |b|)
  {
    hide Edge;
    forall x, y | 0 <= Edge(b, c) <= x < Edge(b, c + 1) <= |f| && Edge(b, c) <= y < Edge(b, c + 1)
      ensures Text(b, f[x], 2) == Text(b, f[y], 2)
    {
      RowKey(b, f, c, x);
      RowKey(b, f, c, y);
      assert Text(b, f[x], 2) == [Rot(b, f[x], 0), Rot(b, f[x], 1)];
      assert Text(b, f[y], 2) == [Rot(b, f[y], 0), Rot(b, f[y], 1)];
    }
    forall k | 0 <= k < |f| ensures 0 <= f[k] < |b| {
      KeyAt(b, f, k);
    }
  }

  /** Sorting one small bucket leaves a listing, and the other buckets as they are. */
  lemma SortOne(b: seq<byte>, f: seq<int>, f': seq<int>, c: nat)
    requires Listing(b, f) && c < 65536 && Within(f, f', Edge(b, c), Edge(b, c + 1) - 1)
    ensures Listing(b, f')
    ensures forall d {:trigger SmallSorted(b, f', d)} | 0 <= d < 65536 && d != c && SmallSorted(b, f, d) :: SmallSorted(b, f', d)
  {
    hide Edge, Within, RotSorted;
    EdgeOrder(b, c, c + 1);
    var lo, hi := Edge(b, c), Edge(b, c + 1) - 1;
    WithinPermutation(f, f', lo, hi);
    forall d, s {:trigger InSmall(b, d, s)} | 0 <= d < 65536 && InSmall(b, d, s)
      ensures 0 <= s < |f| && 0 <= f'[s] < |b| && PairKey(b, f'[s]) == d && (d != c ==> f'[s] == f[s])
    {
      RowKey(b, f, d, s);
      if d == c {
        var o := WithinOrigin(f, f', lo, hi, s);
        RowKey(b, f, c, o);
      } else {
        if lo <= s <= hi { SmallsApart(b, c, d, s); }
        WithinOutside(f, f', lo, hi, s);
      }
    }
    ListingFrom(b, f');
    forall d | 0 <= d < 65536 && d != c && SmallSorted(b, f, d) ensures SmallSorted(b, f', d) {
      SortedKept(b, f, f', d);
    }
  }

  lemma WithinPermutation(f: seq<int>, f': seq<int>, lo: int, hi: int)
    requires IsPermutation(f) && Within(f, f', lo, hi)
    ensures IsPermutation(f') && |f'| == |f|
  {
    RearrangedMultiset(f, f');
    SameElementsPermutation(f, f');
  }

  lemma WithinOutside(f: seq<int>, f': seq<int>, lo: int, hi: int, s: int)
    requires Within(f, f', lo, hi) && 0 <= s < |f| && !(lo <= s <= hi)
    ensures |f'| == |f| && f'[s] == f[s]
  {
  }

  lemma ListingFrom(b: seq<byte>, f: seq<int>)
    requires b != [] && |f| == |b| && IsPermutation(f)
    requires forall c, s {:trigger InSmall(b, c, s)} | 0 <= c < 65536 && InSmall(b, c, s) :: 0 <= s < |f| && PairKey(b, f[s]) == c
    ensures Listing(b, f)
  {
    forall c, s | 0 <= c < 65536 && Radix.InBucket(PairKeys(b), c, s) ensures 0 <= s < |f| && PairKeys(b)[f[s]] == c {
      assert InSmall(b, c, s);
    }
  }

  lemma SortedKept(b: seq<byte>, f: seq<int>, f': seq<int>, d: nat)
    requires b != [] && d < 65536 && SmallSorted(b, f, d) && |f'| == |f|
    requires forall s {:trigger f'[s]} | 0 <= s < |f| && InSmall(b, d, s) :: f'[s] == f[s]
    ensures SmallSorted(b, f', d)
  {
    hide Edge, Leq;
  }

  lemma TableAt(b: seq<byte>, ft: seq<int>, c: nat)
    requires Table(b, ft) && c < 65536
    ensures |ft| == 65537 && Clear(ft[c]) == Edge(b, c) && Clear(ft[c + 1]) == Edge(b, c + 1)
    ensures 0 <= Edge(b, c) <= Edge(b, c + 1) <= |b|
  {
    EdgeOrder(b, c, c + 1);
    var d := c + 1;
    assert Clear(ft[d]) == Edge(b, d);
  }

  lemma TableMark(b: seq<byte>, ft: seq<int>, c: nat)
    requires Table(b, ft) && c < 65536
    ensures Table(b, ft[c := Mark(ft[c])]) && Marked(ft[c := Mark(ft[c])][c])
  {
    hide Edge;
    MarkKeeps(ft[c]);
  }

  lemma Marking(b: seq<byte>, f: seq<int>, f': seq<int>, ft: seq<int>, c: nat)
    requires b != [] && |ft| == 65537 && c < 65536 && MarkedSorted(b, f, ft) && SmallSorted(b, f', c)
    requires forall d {:trigger SmallSorted(b, f', d)} | 0 <= d < 65536 && d != c && SmallSorted(b, f, d) :: SmallSorted(b, f', d)
    ensures MarkedSorted(b, f', ft[c := Mark(ft[c])])
  {
    hide SmallSorted, Marked, Mark;
    var ft' := ft[c := Mark(ft[c])];
    forall d | 0 <= d < 65536 && Marked(ft'[d]) ensures SmallSorted(b, f', d) {
      if d != c { assert ft'[d] == ft[d]; }
    }
  }

  /** A bucket of at most one entry. */
  lemma SingleSorted(b: seq<byte>, f: seq<int>, c: nat)
    requires b != [] && Edge(b, c + 1) - 1 <= Edge(b, c)
    ensures SmallSorted(b, f, c)
  {
  }

  /** Sort small bucket sb unless it is marked, and mark it. */
  method SortSmall(ptr: array<int>, block: array<int>, quadrant: array<int>, ftab: array<int>, nblock: nat, sb: nat,
                   budget0: int, ghost b: seq<byte>) returns (budget: int)
    requires ptr !in {block, quadrant, ftab} && ftab !in {block, quadrant} && |b| == nblock <= 900_000 && sb < 65536
    requires budget0 >= 0
    requires Extended(b, block[..]) && Quadrants(b, quadrant[..]) && Sorting(b, ptr[..], ftab[..])
    modifies ptr, ftab
    ensures budget <= budget0 && ftab.Length == 65537 && (budget >= 0 ==> Sorting(b, ptr[..], ftab[..]))
    ensures budget >= 0 ==> ftab[..] == old(ftab[..])[sb := Mark(old(ftab[sb]))]
  {
    hide Extended, Quadrants, Listing, Table, MarkedSorted, SmallSorted, Edge, Within, Alike, Marked, Clear, Mark, Positions;
    budget := budget0;
    ghost var f, ft := ptr[..], ftab[..];
    TableAt(b, ft, sb);
    ListingLength(b, f);
    if !Marked(ftab[sb]) {
      var lo, hi := Clear(ftab[sb]), Clear(ftab[sb + 1]) - 1;
      if hi > lo {
        SmallAlike(b, f, sb);
        budget := MainQSort.QSort3(ptr, block, quadrant, nblock, lo, hi, N_RADIX, budget, b);
        if budget < 0 { return; }
        SortOne(b, f, ptr[..], sb);
        RangeSorted(b, ptr[..], sb, lo, hi);
      } else {
        SingleSorted(b, f, sb);
      }
    } else {
      MarkedOne(b, f, ft, sb);
    }
    Marking(b, f, ptr[..], ft, sb);
    TableMark(b, ft, sb);
    ftab[sb] := Mark(ftab[sb]);
    assert ftab[..] == ft[sb := Mark(ft[sb])];
  }

  lemma ListingLength(b: seq<byte>, f: seq<int>)
    requires Listing(b, f)
    ensures b != [] && |f| == |b|
  {
  }

  lemma RangeSorted(b: seq<byte>, f: seq<int>, c: nat, lo: int, hi: int)
    requires b != [] && RotSorted(f, b, lo, hi) && lo == Edge(b, c) && hi == Edge(b, c + 1) - 1
    ensures SmallSorted(b, f, c)
  {
  }

  lemma MarkedOne(b: seq<byte>, f: seq<int>, ft: seq<int>, c: nat)
    requires b != [] && |ft| == 65537 && MarkedSorted(b, f, ft) && c < 65536 && Marked(ft[c])
    ensures SmallSorted(b, f, c)
  {
  }

  /** Marks only spread. */
  ghost predicate MarksKept(ft: seq<int>, ft': seq<int>) {
    |ft| == |ft'| == 65537 && forall c {:trigger ft'[c]} | 0 <= c < 65536 && Marked(ft[c]) :: Marked(ft'[c])
  }

  lemma MarkOneMore(ft0: seq<int>, ft: seq<int>, c: nat)
    requires MarksKept(ft0, ft) && c < 65536
    ensures MarksKept(ft0, ft[c := Mark(ft[c])])
  {
    var ft' := ft[c := Mark(ft[c])];
    assert ft'[c] == Mark(ft[c]);
  }

  /** Step 1: sort the small buckets [ss, j] for all j but ss. */
  method SortOthers(ptr: array<int>, block: array<int>, quadrant: array<int>, ftab: array<int>, nblock: nat, ss: nat,
                    budget0: int, ghost b: seq<byte>) returns (budget: int)
    requires ptr !in {block, quadrant, ftab} && ftab !in {block, quadrant} && |b| == nblock <= 900_000 && ss < 256
    requires budget0 >= 0
    requires Extended(b, block[..]) && Quadrants(b, quadrant[..]) && Sorting(b, ptr[..], ftab[..])
    modifies ptr, ftab
    ensures budget <= budget0
    ensures ftab.Length == 65537 && (budget >= 0 ==> Sorting(b, ptr[..], ftab[..]))
    ensures budget >= 0 ==> MarksKept(old(ftab[..]), ftab[..]) && RowMarked(ftab[..], ss, 256)
  {
    hide Extended, Quadrants, Sorting, MarksKept, RowMarked, Mark, Marked;
    budget := budget0;
    ghost var ft0, bl, qu := ftab[..], block[..], quadrant[..];
    SortingLength(b, ptr[..], ft0);
    MarksStart(ft0, ss);
    for j := 0 to 256
      invariant block[..] == bl && quadrant[..] == qu && 0 <= budget <= budget0
      invariant Sorting(b, ptr[..], ftab[..]) && ftab.Length == 65537
      invariant MarksKept(ft0, ftab[..]) && RowMarked(ftab[..], ss, j)
    {
      ghost var ft := ftab[..];
      if j != ss {
        var sb := ss * 256 + j;
        budget := SortSmall(ptr, block, quadrant, ftab, nblock, sb, budget, b);
        if budget < 0 { return; }
        MarkOneMore(ft0, ft, sb);
      }
      RowNext(ft, ftab[..], ss, j);
    }
  }

  lemma SortingLength(b: seq<byte>, f: seq<int>, ft: seq<int>)
    requires Sorting(b, f, ft)
    ensures |ft| == 65537 && |f| == |b| && b != []
  {
  }

  lemma MarksStart(ft: seq<int>, ss: nat)
    requires |ft| == 65537 && ss < 256
    ensures MarksKept(ft, ft) && RowMarked(ft, ss, 0)
  {
  }

  lemma RowNext(ft: seq<int>, ft': seq<int>, ss: nat, j: nat)
    requires |ft| == 65537 && ss < 256 && j < 256 && RowMarked(ft, ss, j)
    requires if j != ss then ft' == ft[ss * 256 + j := Mark(ft[ss * 256 + j])] else ft' == ft
    ensures |ft'| == 65537 && RowMarked(ft', ss, j + 1)
  {
    var d := ss * 256 + j;
    forall c {:trigger ft'[c]} | ss * 256 <= c < ss * 256 + j + 1 && c != ss * 256 + ss ensures Marked(ft'[c]) {
      if c != d { assert ft'[c] == ft[c]; }
      MarkMarks(ft[d]);
    }
  }

  // ----- step 2

  /** Once [ss, j] is sorted for all other j, the copy step can begin. */
  lemma ReadyToCopy(b: seq<byte>, f: seq<int>, ft: seq<int>, ss: nat)
    requires b != [] && |ft| == 65537 && ss < 256 && Sorting(b, f, ft) && RowMarked(ft, ss, 256)
    ensures OthersSorted(b, ss, f)
  {
    hide SmallSorted, Marked, Listing, Table;
    forall c {:trigger SmallSorted(b, f, c)} | 0 <= c < 65536 && c / 256 == ss && c % 256 != ss ensures SmallSorted(b, f, c) {
      assert Marked(ft[c]);
    }
  }

  /** What the loops of the copy step need to know about their places. */
  lemma CopyPlaces(b: seq<byte>, ss: nat, done: seq<bool>, f0: seq<int>, f: seq<int>, cs: seq<int>, ce: seq<int>,
                   jl: int, jr: int)
    requires Copying(b, ss, done, f0, f, cs, ce, jl, jr)
    ensures b != [] && ss < 256 && |done| == |cs| == |ce| == 256 && |f| == |b|
    ensures 0 <= jl <= cs[ss] <= ce[ss] + 1 <= jr + 1 <= |b|
    ensures jl < cs[ss] ==> 0 <= f[jl] < |b|
    ensures jr > ce[ss] ==> 0 <= f[jr] < |b|
  {
    hide Edge, Leq, Fills, Kept, Placed, Listing;
    assert jl < cs[ss] ==> SureAt(b, ss, cs[ss], ce[ss], jl);
    assert jr > ce[ss] ==> SureAt(b, ss, cs[ss], ce[ss], jr);
  }

  lemma BlockByte(b: seq<byte>, block: seq<int>, k: int)
    requires Extended(b, block) && 0 <= k < |b|
    ensures |block| >= |b| && block[k] == Rot(b, k, 0)
  {
  }

  /** Where the unfilled stretches of the small buckets [j, ss] begin and end. */
  method CopyEdges(ftab: array<int>, ss: nat, ghost b: seq<byte>) returns (copyStart: array<int>, copyEnd: array<int>)
    requires ss < 256 && Table(b, ftab[..])
    ensures fresh(copyStart) && fresh(copyEnd) && copyStart != copyEnd && copyStart.Length == copyEnd.Length == 256
    ensures forall t {:trigger copyStart[t]} {:trigger copyEnd[t]} | 0 <= t < 256 ::
      copyStart[t] == Front(b, ss, t) && copyEnd[t] == Rear(b, ss, t) - 1
  {
    hide Edge, Clear;
    copyStart, copyEnd := new int[256], new int[256];
    for j := 0 to 256
      invariant forall t {:trigger copyStart[t]} {:trigger copyEnd[t]} | 0 <= t < j ::
        copyStart[t] == Front(b, ss, t) && copyEnd[t] == Rear(b, ss, t) - 1
    {
      TableAt(b, ftab[..], j * 256 + ss);
      copyStart[j] := Clear(ftab[j * 256 + ss]);
      copyEnd[j] := Clear(ftab[j * 256 + ss + 1]) - 1;
    }
  }

  /** Step 2: scan big bucket [ss] from both ends; assertion 1007 always holds. */
  method CopyStep(ptr: array<int>, block: array<int>, ftab: array<int>, bigDone: array<bool>, nblock: nat, ss: nat,
                  ghost b: seq<byte>)
    requires ptr !in {block, ftab} && |b| == nblock > 0 && ss < 256 && bigDone.Length == 256 && !bigDone[ss]
    requires Extended(b, block[..]) && Listing(b, ptr[..]) && Table(b, ftab[..]) && OthersSorted(b, ss, ptr[..])
    modifies ptr
    ensures Copied(b, ss, bigDone[..], old(ptr[..]), ptr[..])
  {
    hide Extended, Listing, Table, OthersSorted, Copying, Copied, Edge, Clear, Rot;
    ghost var f0, done := ptr[..], bigDone[..];
    var copyStart, copyEnd := CopyEdges(ftab, ss, b);
    CopyBegins(b, ss, done, f0, copyStart[..], copyEnd[..]);
    TableAt(b, ftab[..], ss * 256);
    TableTop(b, ftab[..], ss);
    ghost var last := Big(b, ss + 1) - 1;
    var j := Clear(ftab[ss * 256]);
    CopyPlaces(b, ss, done, f0, ptr[..], copyStart[..], copyEnd[..], j, last);
    while j < copyStart[ss]
      invariant Copying(b, ss, done, f0, ptr[..], copyStart[..], copyEnd[..], j, last)
      decreases nblock - j
    {
      ghost var f, cs, ce := ptr[..], copyStart[..], copyEnd[..];
      CopyPlaces(b, ss, done, f0, f, cs, ce, j, last);
      var k := ptr[j] - 1;
      if k < 0 { k := k + nblock; }
      assert k == Before(f[j], |b|);
      BlockByte(b, block[..], k);
      var c1 := block[k];
      if !bigDone[c1] {
        LeftFill(b, ss, done, f0, f, cs, ce, j, last, c1);
        ptr[copyStart[c1]] := k;
        copyStart[c1] := copyStart[c1] + 1;
        assert ptr[..] == f[cs[c1] := k] && copyStart[..] == cs[c1 := cs[c1] + 1];
      } else {
        LeftSkip(b, ss, done, f0, f, cs, ce, j, last, c1);
      }
      j := j + 1;
    }
    CopyPlaces(b, ss, done, f0, ptr[..], copyStart[..], copyEnd[..], j, last);
    ghost var first := j;
    j := Clear(ftab[(ss + 1) * 256]) - 1;
    while j > copyEnd[ss]
      invariant Copying(b, ss, done, f0, ptr[..], copyStart[..], copyEnd[..], first, j) && first == copyStart[ss] && -1 <= j
      decreases j
    {
      ghost var f, cs, ce := ptr[..], copyStart[..], copyEnd[..];
      CopyPlaces(b, ss, done, f0, f, cs, ce, first, j);
      var k := ptr[j] - 1;
      if k < 0 { k := k + nblock; }
      assert k == Before(f[j], |b|);
      BlockByte(b, block[..], k);
      var c1 := block[k];
      if !bigDone[c1] {
        RightFill(b, ss, done, f0, f, cs, ce, first, j, c1);
        ptr[copyEnd[c1]] := k;
        copyEnd[c1] := copyEnd[c1] - 1;
        assert ptr[..] == f[ce[c1] := k] && copyEnd[..] == ce[c1 := ce[c1] - 1];
      } else {
        RightSkip(b, ss, done, f0, f, cs, ce, first, j, c1);
      }
      j := j - 1;
    }
    CopyPlaces(b, ss, done, f0, ptr[..], copyStart[..], copyEnd[..], first, j);
    CopyEnds(b, ss, done, f0, ptr[..], copyStart[..], copyEnd[..]);
    assert copyStart[ss] - 1 == copyEnd[ss] || (copyStart[ss] == 0 && copyEnd[ss] == nblock - 1);
  }

  lemma TableTop(b: seq<byte>, ft: seq<int>, ss: nat)
    requires Table(b, ft) && ss < 256
    ensures |ft| == 65537 && Clear(ft[(ss + 1) * 256]) == Big(b, ss + 1) && Clear(ft[ss * 256]) == Big(b, ss)
  {
    var c, d := ss * 256, (ss + 1) * 256;
    assert Clear(ft[c]) == Edge(b, c) && Clear(ft[d]) == Edge(b, d);
  }

  /** The entries of column ss are marked, up to row j. */
  ghost predicate ColumnMarked(ft0: seq<int>, ft: seq<int>, ss: nat, j: nat) {
    |ft0| == |ft| == 65537 &&
    forall c {:trigger ft[c]} | 0 <= c < 65537 :: ft[c] == if c % 256 == ss && c < j * 256 then Mark(ft0[c]) else ft0[c]
  }

  method MarkColumn(ftab: array<int>, ss: nat)
    requires ftab.Length == 65537 && ss < 256
    modifies ftab
    ensures ColumnMarked(old(ftab[..]), ftab[..], ss, 256)
  {
    hide Mark;
    ghost var ft0 := ftab[..];
    for j := 0 to 256
      invariant ColumnMarked(ft0, ftab[..], ss, j)
    {
      ghost var ft := ftab[..];
      ColumnNext(ft0, ft, ss, j);
      ftab[j * 256 + ss] := Mark(ftab[j * 256 + ss]);
      assert ftab[..] == ft[j * 256 + ss := Mark(ft[j * 256 + ss])];
    }
  }

  lemma ColumnNext(ft0: seq<int>, ft: seq<int>, ss: nat, j: nat)
    requires ss < 256 && j < 256 && ColumnMarked(ft0, ft, ss, j)
    ensures ColumnMarked(ft0, ft[j * 256 + ss := Mark(ft[j * 256 + ss])], ss, j + 1)
  {
    hide Mark;
    var d := j * 256 + ss;
    var ft' := ft[d := Mark(ft[d])];
    forall c | 0 <= c < 65537 ensures ft'[c] == if c % 256 == ss && c < (j + 1) * 256 then Mark(ft0[c]) else ft0[c] {
      if c % 256 == ss && j * 256 <= c < (j + 1) * 256 { assert c == d; }
    }
  }

  /** A bucket the copy step left alone. */
  lemma CopyKept(b: seq<byte>, ss: nat, done: seq<bool>, f0: seq<int>, f: seq<int>, c: nat)
    requires b != [] && ss < 256 && Copied(b, ss, done, f0, f) && c < 65536 && !Refilled(ss, done, c)
    requires SmallSorted(b, f0, c)
    ensures SmallSorted(b, f, c)
  {
    hide Edge, SmallSorted, Refilled;
    forall s {:trigger f[s]} | 0 <= s < |f| && InSmall(b, c, s) ensures f[s] == f0[s] {
      SlotKept(b, ss, done, f0, f, c, s);
    }
    SortedKept(b, f0, f, c);
  }

  /** After the copy step column ss may be marked, and byte ss is finished. */
  lemma ColumnSorted(b: seq<byte>, ss: nat, done: seq<bool>, f0: seq<int>, f: seq<int>, ft0: seq<int>, ft: seq<int>)
    requires b != [] && ss < 256 && |done| == 256 && |ft0| == 65537 && Sorting(b, f0, ft0) && DoneMarked(ft0, done)
    requires RowMarked(ft0, ss, 256) && Copied(b, ss, done, f0, f) && ColumnMarked(ft0, ft, ss, 256)
    ensures Sorting(b, f, ft) && DoneMarked(ft, done[ss := true])
  {
    hide Edge, SmallSorted, Listing, Mark, Marked, Clear, Kept;
    forall c {:trigger ft[c]} | 0 <= c < 65536 && Marked(ft[c]) ensures SmallSorted(b, f, c) {
      if Refilled(ss, done, c) {
        assert c == c / 256 * 256 + ss;
        assert !done[c / 256];
      } else {
        assert Marked(ft0[c]);
        CopyKept(b, ss, done, f0, f, c);
      }
    }
    forall c {:trigger ft[c]} | 0 <= c < 65537 ensures 0 <= ft[c] < 2 * SETMASK && Clear(ft[c]) == Edge(b, c) {
      MarkKeeps(ft0[c]);
    }
    forall c {:trigger ft[c]} | 0 <= c < 65536 && done[ss := true][c / 256] ensures Marked(ft[c]) {
      MarkMarks(ft0[c]);
      if c / 256 == ss && c % 256 != ss { assert Marked(ft0[c]); }
    }
  }

  // ----- the end of a round, and of the sort

  /** A stretch of the listing whose small buckets are sorted is sorted. */
  lemma SpanSorted(b: seq<byte>, f: seq<int>, lo: int, hi: int)
    requires Listing(b, f) && 0 <= lo <= hi <= |f|
    requires forall p {:trigger f[p]} | lo <= p < hi :: SmallSorted(b, f, PairKey(b, f[p]))
    ensures RotSorted(f, b, lo, hi - 1)
  {
    hide Edge, Leq, PairKey, SmallSorted;
    forall p, q | lo <= p < q <= hi - 1 ensures Leq(b, f[p], f[q]) {
      PairOrdered(b, f, p, q);
    }
  }

  lemma PairOrdered(b: seq<byte>, f: seq<int>, p: nat, q: nat)
    requires Listing(b, f) && p < q < |f| && SmallSorted(b, f, PairKey(b, f[p]))
    ensures Leq(b, f[p], f[q])
  {
    hide Edge, Leq;
    KeysAscend(b, f, p, q);
    KeyAt(b, f, p);
    KeyAt(b, f, q);
    if PairKey(b, f[p]) < PairKey(b, f[q]) {
      KeyLess(b, f[p], f[q]);
    } else {
      EdgeOrder(b, PairKey(b, f[p]), PairKey(b, f[p]) + 1);
    }
  }

  lemma BigSorted(b: seq<byte>, f: seq<int>, ft: seq<int>, done: seq<bool>, ss: nat)
    requires |ft| == 65537 && |done| == 256 && ss < 256 && done[ss] && Sorting(b, f, ft) && DoneMarked(ft, done)
    ensures b != [] && 0 <= Big(b, ss) <= Big(b, ss + 1) <= |f| && RotSorted(f, b, Big(b, ss), Big(b, ss + 1) - 1)
  {
    hide Edge, SmallSorted, Marked, RotSorted;
    Layout(b, ss, ss);
    forall p {:trigger f[p]} | Big(b, ss) <= p < Big(b, ss + 1) ensures SmallSorted(b, f, PairKey(b, f[p])) {
      QuadrantCache.FirstByteOf(b, f, ss, p);
      var c := PairKey(b, f[p]);
      assert Marked(ft[c]);
    }
    SpanSorted(b, f, Big(b, ss), Big(b, ss + 1));
  }

  lemma AllSorted(b: seq<byte>, f: seq<int>, ft: seq<int>, done: seq<bool>)
    requires |ft| == 65537 && |done| == 256 && (forall t {:trigger done[t]} | 0 <= t < 256 :: done[t])
    requires Sorting(b, f, ft) && DoneMarked(ft, done)
    ensures RowOrder(b, f)
  {
    hide Edge, SmallSorted, Marked;
    forall p {:trigger f[p]} | 0 <= p < |f| ensures SmallSorted(b, f, PairKey(b, f[p])) {
      KeyAt(b, f, p);
      var c := PairKey(b, f[p]);
      assert done[c / 256];
      assert Marked(ft[c]);
    }
    SpanSorted(b, f, 0, |f|);
    forall x, y | 0 <= x < y < |f| ensures Leq(b, f[x], f[y]) {
    }
  }

  /** One big bucket: sort it, copy its order to its predecessors, and cache it unless it is the last. */
  method FinishBig(ptr: array<int>, block: array<int>, quadrant: array<int>, ftab: array<int>, bigDone: array<bool>,
                   nblock: nat,
                   ss: nat, last: bool, budget0: int, ghost b: seq<byte>) returns (budget: int)
    requires ptr !in {block, quadrant, ftab} && ftab !in {block, quadrant} && block != quadrant && |b| == nblock <= 900_000
    requires ss < 256 && budget0 >= 0 && bigDone.Length == 256 && !bigDone[ss] && ftab.Length == 65537
    requires Extended(b, block[..]) && Quadrants(b, quadrant[..]) && Sorting(b, ptr[..], ftab[..])
    requires DoneMarked(ftab[..], bigDone[..])
    modifies ptr, quadrant, ftab, bigDone
    ensures budget <= budget0
    ensures budget >= 0 ==> Quadrants(b, quadrant[..]) && Sorting(b, ptr[..], ftab[..]) && DoneMarked(ftab[..], bigDone[..])
    ensures budget >= 0 ==> bigDone[..] == old(bigDone[..])[ss := true]
  {
    hide Extended, Quadrants, Listing, Table, MarkedSorted, DoneMarked, RowMarked, OthersSorted, Copied,
      ColumnMarked, Edge, RotSorted, Clear;
    hide MarksKept;
    ghost var done, ft := bigDone[..], ftab[..];
    SortingLength(b, ptr[..], ftab[..]);
    budget := SortOthers(ptr, block, quadrant, ftab, nblock, ss, budget0, b);
    if budget < 0 { return; }
    StillMarked(ft, ftab[..], done);
    ReadyToCopy(b, ptr[..], ftab[..], ss);
    ghost var f1, ft1 := ptr[..], ftab[..];
    assert bigDone[..] == done;
    CopyStep(ptr, block, ftab, bigDone, nblock, ss, b);
    assert ftab[..] == ft1;
    MarkColumn(ftab, ss);
    assert bigDone[..] == done;
    ColumnSorted(b, ss, done, f1, ptr[..], ft1, ftab[..]);
    bigDone[ss] := true;
    assert bigDone[..] == done[ss := true];
    if !last {
      BigSorted(b, ptr[..], ftab[..], bigDone[..], ss);
      TableTop(b, ftab[..], ss);
      var bbStart := Clear(ftab[ss * 256]);
      var bbSize := Clear(ftab[(ss + 1) * 256]) - bbStart;
      QuadrantCache.CacheOrder(ptr, quadrant, bbStart, bbSize, nblock, ss, b);
    }
  }

  lemma StillMarked(ft: seq<int>, ft': seq<int>, done: seq<bool>)
    requires |ft| == |ft'| == 65537 && |done| == 256 && MarksKept(ft, ft') && DoneMarked(ft, done)
    ensures DoneMarked(ft', done)
  {
  }

  /** mainSort: unless the budget runs out, ptr ends as a sorted listing of all rotations; the block is as it was. */
  method Sort(ptr: array<int>, block: array<int>, quadrant: array<int>, ftab: array<int>, nblock: nat, budget0: int,
              ghost b: seq<byte>)
      returns (budget: int)
    requires ptr !in {block, quadrant, ftab} && ftab !in {block, quadrant} && block != quadrant && ftab.Length == 65537
    requires N_OVERSHOOT < nblock <= 900_000 && block.Length == quadrant.Length == nblock + N_OVERSHOOT
    requires ptr.Length == nblock
    requires block[..nblock] == b && budget0 >= 0
    modifies ptr, block, quadrant, ftab
    ensures block[..nblock] == b && budget <= budget0
    ensures budget >= 0 ==> RowOrder(b, ptr[..])
  {
    hide Extended, Quadrants, Sorting, Listing, DoneMarked, RunningOrder.Ascending, Marked, Edge;
    MainRadix.ListPairs(block, quadrant, ptr, ftab, nblock, b);
    Starts(b, ptr[..], ftab[..]);
    ghost var f0, bl, qu, ft := ptr[..], block[..], quadrant[..], ftab[..];
    var runningOrder := RunningOrder.Order(ftab);
    var bigDone := new bool[256](_ => false);
    ghost var order := runningOrder[..];
    NoneDone(ft, bigDone[..]);
    budget := budget0;
    assert ptr[..] == f0 && block[..] == bl && quadrant[..] == qu && ftab[..] == ft;
    for i := 0 to 256
      invariant 0 <= budget <= budget0 && runningOrder[..] == order && block[..] == bl
      invariant Quadrants(b, quadrant[..]) && Sorting(b, ptr[..], ftab[..]) && DoneMarked(ftab[..], bigDone[..])
      invariant forall t {:trigger bigDone[t]} | 0 <= t < 256 :: bigDone[t] <==> t in order[..i]
    {
      var ss := runningOrder[i];
      NotYet(order, i);
      assert !bigDone[ss];
      budget := FinishBig(ptr, block, quadrant, ftab, bigDone, nblock, ss, i == 255, budget, b);
      if budget < 0 { return; }
    }
    forall t {:trigger bigDone[..][t]} | 0 <= t < 256 ensures bigDone[..][t] {
      OrderComplete(order, t);
    }
    AllSorted(b, ptr[..], ftab[..], bigDone[..]);
  }

  lemma NoneDone(ft: seq<int>, done: seq<bool>)
    requires |ft| == 65537 && |done| == 256 && forall t {:trigger done[t]} | 0 <= t < 256 :: !done[t]
    ensures DoneMarked(ft, done)
  {
  }

  lemma NotYet(order: seq<int>, i: nat)
    requires RunningOrder.AllBytes(order) && i < 256
    ensures 0 <= order[i] < 256 && order[i] !in order[..i] && order[..i + 1] == order[..i] + [order[i]]
  {
  }

  lemma OrderComplete(order: seq<int>, t: nat)
    requires RunningOrder.AllBytes(order) && t < 256
    ensures order[..256] == order && t in order
  {
    Pigeonhole(order, 256);
  }
}
