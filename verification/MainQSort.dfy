// mainQSort3: a three-way quicksort on the byte at depth d, with an explicit stack of ranges.
module MainQSort {
  import opened Permutations
  import opened Rotations
  import opened RotOrder
  import opened MainCompare
  import opened ThreeWay
  import opened QSortStack
  import opened MainSimpleSort

  ghost function LeqOrder(b: seq<byte>): Order
    requires b != []
  {
    (v: int, w: int) => Leq(b, v, w)
  }

  // ----- what the stack says

  ghost predicate AlikeOn(f: seq<int>, b: seq<byte>, stack: seq<Range>)
    requires b != []
  {
    forall i {:trigger stack[i]} | 0 <= i < |stack| :: Alike(f, b, stack[i].lo, stack[i].hi, stack[i].d)
  }

  /** The stack's ranges lie apart inside lo..hi, are not deeper than 15 bytes, and shrink from the bottom up. */
  ghost predicate Piled(stack: seq<Range>, lo: int, hi: int) {
    lo <= hi + 1 && Inside(stack, lo, hi) && Disjoint(stack) && Shallow(stack) && Shrinking(stack, hi - lo + 1) &&
    DepthOk(stack)
  }

  /** What the stack does not mention is in order, and what it mentions begins alike. */
  ghost predicate Sorting(f0: seq<int>, f: seq<int>, b: seq<byte>, lo: int, hi: int, stack: seq<Range>)
    requires b != []
  {
    0 <= lo <= hi + 1 <= |f| && Within(f0, f, lo, hi) && Positions(f, |b|) && Resolved(f, LeqOrder(b), lo, hi, stack) &&
    AlikeOn(f, b, stack)
  }

  /** The pieces a range falls into: in order unless together in a piece, and each piece alike to its depth. */
  ghost predicate Pieces(f: seq<int>, b: seq<byte>, top: Range, more: seq<Range>)
    requires b != []
  {
    AlikeOn(f, b, more) &&
    forall x, y {:trigger f[x], f[y]} | 0 <= top.lo <= x < y <= top.hi < |f| :: Leq(b, f[x], f[y]) || Together(more, x, y)
  }

  lemma SortingStep(f0: seq<int>, f: seq<int>, f': seq<int>, b: seq<byte>, lo: int, hi: int, stack: seq<Range>,
                    more: seq<Range>)
    requires b != [] && stack != [] && Piled(stack, lo, hi) && Sorting(f0, f, b, lo, hi, stack)
    requires Within(f, f', stack[|stack| - 1].lo, stack[|stack| - 1].hi) && Pieces(f', b, stack[|stack| - 1], more)
    ensures Sorting(f0, f', b, lo, hi, stack[..|stack| - 1] + more)
  {
    var top, rest := stack[|stack| - 1], stack[..|stack| - 1];
    forall x, y {:trigger f'[x], f'[y]} | top.lo <= x < y <= top.hi ensures LeqOrder(b)(f'[x], f'[y]) || Together(more, x, y) {
    }
    Settle(f, f', LeqOrder(b), lo, hi, stack, more);
    WithinWider(f, f', top.lo, top.hi, lo, hi);
    WithinTransitive(f0, f, f', lo, hi);
    PositionsWithin(f, f', |b|, top.lo, top.hi);
    forall i | 0 <= i < |rest + more| ensures Alike(f', b, (rest + more)[i].lo, (rest + more)[i].hi, (rest + more)[i].d) {
      if i < |rest| {
        RestAlike(f, f', b, stack, i);
      } else {
        assert more[i - |rest|] == (rest + more)[i];
      }
    }
  }

  lemma RestAlike(f: seq<int>, f': seq<int>, b: seq<byte>, stack: seq<Range>, i: nat)
    requires b != [] && i < |stack| - 1 && Disjoint(stack) && AlikeOn(f, b, stack)
    requires Within(f, f', stack[|stack| - 1].lo, stack[|stack| - 1].hi)
    ensures Alike(f', b, stack[i].lo, stack[i].hi, stack[i].d)
  {
    var r, top := stack[i], stack[|stack| - 1];
    assert Alike(f, b, r.lo, r.hi, r.d);
    assert r.hi < top.lo || top.hi < r.lo;
    forall x, y | 0 <= r.lo <= x <= r.hi < |f'| && r.lo <= y <= r.hi ensures Text(b, f'[x], r.d) == Text(b, f'[y], r.d) {
      assert f'[x] == f[x] && f'[y] == f[y];
    }
  }

  // ----- the ways a range is dealt with

  lemma SortedPieces(f: seq<int>, b: seq<byte>, top: Range)
    requires b != [] && RotSorted(f, b, top.lo, top.hi)
    ensures Pieces(f, b, top, [])
  {
  }

  lemma DeeperAlike(f: seq<int>, b: seq<byte>, block: seq<int>, med: int, lo: int, hi: int, d: nat)
    requires Extended(b, block) && Positions(f, |b|) && d <= 15 && Alike(f, b, lo, hi, d) && Keyed(f, block, d)
    requires 0 <= lo && hi < |f| && Equals(f, block, d, lo, hi + 1, med)
    ensures Alike(f, b, lo, hi, d + 1)
  {
    forall x, y | lo <= x <= hi && lo <= y <= hi ensures Text(b, f[x], d + 1) == Text(b, f[y], d + 1) {
      TextSnoc(b, f[x], d);
      TextSnoc(b, f[y], d);
      KeyIsByte(b, block, f[x], d);
      KeyIsByte(b, block, f[y], d);
      assert block[f[x] + d] == med == block[f[y] + d];
    }
  }

  lemma KeyIsByte(b: seq<byte>, block: seq<int>, x: int, d: nat)
    requires Extended(b, block) && 0 <= x < |b| && d <= 15
    ensures block[x + d] == Rot(b, x, d)
  {
  }

  lemma SubAlike(f: seq<int>, b: seq<byte>, lo: int, hi: int, lo': int, hi': int, d: nat)
    requires b != [] && Alike(f, b, lo, hi, d) && 0 <= lo <= lo' && hi' <= hi < |f|
    ensures Alike(f, b, lo', hi', d)
  {
  }

  lemma EqualPieces(f: seq<int>, b: seq<byte>, block: seq<int>, med: int, lo: int, hi: int, d: nat)
    requires Extended(b, block) && Positions(f, |b|) && d <= 15 && Alike(f, b, lo, hi, d)
    requires Parted(f, block, d, med, lo, lo - 1, hi + 1, hi)
    ensures Pieces(f, b, Range(lo, hi, d), [Range(lo, hi, d + 1)])
  {
    DeeperAlike(f, b, block, med, lo, hi, d);
    var more := [Range(lo, hi, d + 1)];
    forall x, y | 0 <= lo <= x < y <= hi < |f| ensures Together(more, x, y) {
      assert Holds(more[0], x) && Holds(more[0], y);
    }
  }

  lemma PartedAlike(f: seq<int>, b: seq<byte>, block: seq<int>, med: int, lo: int, n: int, m: int, hi: int, d: nat)
    requires Extended(b, block) && Positions(f, |b|) && d <= 15 && Alike(f, b, lo, hi, d)
    requires Parted(f, block, d, med, lo, n, m, hi)
    ensures Alike(f, b, lo, n, d) && Alike(f, b, m, hi, d) && Alike(f, b, n + 1, m - 1, d + 1)
  {
    SubAlike(f, b, lo, hi, lo, n, d);
    SubAlike(f, b, lo, hi, m, hi, d);
    SubAlike(f, b, lo, hi, n + 1, m - 1, d);
    DeeperAlike(f, b, block, med, n + 1, m - 1, d);
  }

  ghost predicate Has(more: seq<Range>, r: Range) {
    exists i :: 0 <= i < |more| && more[i] == r
  }

  lemma HasTogether(more: seq<Range>, r: Range, x: int, y: int)
    requires Has(more, r) && Holds(r, x) && Holds(r, y)
    ensures Together(more, x, y)
  {
    var i :| 0 <= i < |more| && more[i] == r;
    assert Holds(more[i], x) && Holds(more[i], y);
  }

  /** Lesser, equal and greater entries are in order across the three parts. */
  lemma PartedPieces(f: seq<int>, b: seq<byte>, block: seq<int>, med: int, lo: int, n: int, m: int, hi: int, d: nat,
                     more: seq<Range>)
    requires Extended(b, block) && Positions(f, |b|) && d <= 15 && Alike(f, b, lo, hi, d)
    requires Parted(f, block, d, med, lo, n, m, hi)
    requires Has(more, Range(lo, n, d)) && Has(more, Range(m, hi, d)) && Has(more, Range(n + 1, m - 1, d + 1))
    requires forall i {:trigger more[i]} | 0 <= i < |more| :: more[i] in {Range(lo, n, d), Range(m, hi, d), Range(n + 1, m - 1, d + 1)}
    ensures Pieces(f, b, Range(lo, hi, d), more)
  {
    PartedAlike(f, b, block, med, lo, n, m, hi, d);
    forall x, y | 0 <= lo <= x < y <= hi < |f| ensures Leq(b, f[x], f[y]) || Together(more, x, y) {
      if y <= n {
        HasTogether(more, Range(lo, n, d), x, y);
      } else if m <= x {
        HasTogether(more, Range(m, hi, d), x, y);
      } else if n < x && y < m {
        HasTogether(more, Range(n + 1, m - 1, d + 1), x, y);
      } else {
        KeyIsByte(b, block, f[x], d);
        KeyIsByte(b, block, f[y], d);
        assert block[f[x] + d] < block[f[y] + d];
        LeqByte(b, f[x], f[y], d);
      }
    }
  }

  // ----- one round

  /** The middle one of three. */
  function Mmed3(a: int, b: int, c: int): (m: int)
    ensures m in {a, b, c}
  {
    var a1, b1 := if a > b then b else a, if a > b then a else b;
    if b1 > c then (if a1 > c then a1 else c) else b1
  }

  function NextSize(r: Range): int { r.hi - r.lo }

  /** more holds the three ranges, r0 at k0, r1 at k1 and r2 at k2. */
  ghost predicate ThreeOf(more: seq<Range>, r0: Range, r1: Range, r2: Range, k0: nat, k1: nat, k2: nat) {
    |more| == 3 && k0 < 3 && k1 < 3 && k2 < 3 && k0 != k1 && k0 != k2 && k1 != k2 &&
    more[k0] == r0 && more[k1] == r1 && more[k2] == r2
  }

  /** Three ranges in order of size, the largest first. */
  method SortThree(r0: Range, r1: Range, r2: Range) returns (more: seq<Range>, ghost k0: nat, ghost k1: nat, ghost k2: nat)
    ensures ThreeOf(more, r0, r1, r2, k0, k1, k2)
    ensures NextSize(more[0]) >= NextSize(more[1]) >= NextSize(more[2])
  {
    more, k0, k1, k2 := [r0, r1, r2], 0, 1, 2;
    if NextSize(more[0]) < NextSize(more[1]) { more, k0, k1 := [more[1], more[0], more[2]], 1, 0; }
    if NextSize(more[1]) < NextSize(more[2]) {
      more := [more[0], more[2], more[1]];
      k0, k1, k2 := Exchanged(k0, 1, 2), Exchanged(k1, 1, 2), Exchanged(k2, 1, 2);
    }
    if NextSize(more[0]) < NextSize(more[1]) {
      more := [more[1], more[0], more[2]];
      k0, k1, k2 := Exchanged(k0, 0, 1), Exchanged(k1, 0, 1), Exchanged(k2, 0, 1);
    }
  }

  ghost function Exchanged(k: nat, i: nat, j: nat): nat { if k == i then j else if k == j then i else k }

  /** What replaces a range: nothing once it is sorted, the same range a byte deeper, or three smaller ones. */
  ghost predicate Replaces(top: Range, more: seq<Range>) {
    more == [] || (top.d <= 14 && more == [top.(d := top.d + 1)] && Size(top) >= 21) ||
    (top.d <= 14 && |more| == 3 && Size(top) >= 21 && Inside(more, top.lo, top.hi) && Disjoint(more) &&
     Size(more[0]) >= Size(more[1]) >= Size(more[2]) >= 0 && Size(more[0]) + Size(more[1]) + Size(more[2]) == Size(top) &&
     exists k :: 0 <= k < 3 && Size(more[k]) >= 1 && DeeperAt(top, more, k))
  }

  ghost predicate DeeperAt(top: Range, more: seq<Range>, k: nat)
    requires |more| == 3 && k < 3
  {
    forall i {:trigger more[i]} | 0 <= i < 3 :: more[i].d == if i == k then top.d + 1 else top.d
  }

  /** The three parts of a range lie apart and inside it, and make it up. */
  lemma ThreeParts(lo: int, n: int, m: int, hi: int, d: nat, more: seq<Range>, k0: nat, k1: nat, k2: nat)
    requires lo - 1 <= n && n + 1 < m <= hi + 1
    requires ThreeOf(more, Range(lo, n, d), Range(m, hi, d), Range(n + 1, m - 1, d + 1), k0, k1, k2)
    ensures Inside(more, lo, hi) && Disjoint(more)
  {
  }

  lemma ThreeSizes(lo: int, n: int, m: int, hi: int, d: nat, more: seq<Range>, k0: nat, k1: nat, k2: nat)
    requires lo - 1 <= n && n + 1 < m <= hi + 1
    requires ThreeOf(more, Range(lo, n, d), Range(m, hi, d), Range(n + 1, m - 1, d + 1), k0, k1, k2)
    ensures Size(more[0]) + Size(more[1]) + Size(more[2]) == hi - lo + 1 && Size(more[k2]) >= 1
    ensures Size(more[0]) >= 0 && Size(more[1]) >= 0 && Size(more[2]) >= 0
    ensures DeeperAt(Range(lo, hi, d), more, k2)
  {
  }

  lemma ThreeHas(more: seq<Range>, r0: Range, r1: Range, r2: Range, k0: nat, k1: nat, k2: nat)
    requires ThreeOf(more, r0, r1, r2, k0, k1, k2)
    ensures Has(more, r0) && Has(more, r1) && Has(more, r2)
    ensures forall i {:trigger more[i]} | 0 <= i < |more| :: more[i] in {r0, r1, r2}
  {
  }

  lemma SplitReplaces(lo: int, n: int, m: int, hi: int, d: nat, more: seq<Range>, k0: nat, k1: nat, k2: nat)
    requires lo - 1 <= n && n + 1 < m <= hi + 1 && hi - lo >= 20 && d <= 14
    requires ThreeOf(more, Range(lo, n, d), Range(m, hi, d), Range(n + 1, m - 1, d + 1), k0, k1, k2)
    requires NextSize(more[0]) >= NextSize(more[1]) >= NextSize(more[2])
    ensures Replaces(Range(lo, hi, d), more)
  {
    hide Inside, Disjoint, DeeperAt;
    ThreeParts(lo, n, m, hi, d, more, k0, k1, k2);
    ThreeSizes(lo, n, m, hi, d, more, k0, k1, k2);
  }

  /** Sort the range if it is short or deep, else split it on the byte at depth d. */
  method Round(ptr: array<int>, block: array<int>, quadrant: array<int>, nblock: nat, lo: nat, hi: int, d: nat, budget0: int,
               ghost b: seq<byte>) returns (budget: int, more: seq<Range>)
    requires ptr != block && ptr != quadrant && |b| == nblock && Extended(b, block[..]) && Quadrants(b, quadrant[..])
    requires lo <= hi + 1 <= ptr.Length <= 900_000 && d <= 15 && Positions(ptr[..], nblock) && Alike(ptr[..], b, lo, hi, d)
    modifies ptr
    ensures Within(old(ptr[..]), ptr[..], lo, hi) && budget <= budget0
    ensures budget >= 0 || more != [] ==> Pieces(ptr[..], b, Range(lo, hi, d), more) && Replaces(Range(lo, hi, d), more)
  {
    budget, more := budget0, [];
    ghost var f, bl := ptr[..], block[..];
    if hi - lo < 20 || d > 14 {
      budget := SimpleSort(ptr, block, quadrant, nblock, lo, hi, d, budget, b);
      if budget >= 0 { SortedPieces(ptr[..], b, Range(lo, hi, d)); }
      return;
    }
    hide Extended, Quadrants, Alike, Within, Pieces, Replaces;
    KeyedAt(f, b, bl, d);
    var med := Mmed3(block[ptr[lo] + d], block[ptr[hi] + d], block[ptr[(lo + hi) / 2] + d]);
    assert f[lo] + d < |bl| && f[hi] + d < |bl| && f[(lo + hi) / 2] + d < |bl|;
    var allEqual, n, m := Partition(ptr, block, d, lo, hi, med);
    PositionsWithin(f, ptr[..], nblock, lo, hi);
    AlikeWithin(f, ptr[..], b, lo, hi, d);
    if allEqual {
      EqualPieces(ptr[..], b, bl, med, lo, hi, d);
      more := [Range(lo, hi, d + 1)];
      DeeperReplaces(lo, hi, d);
      return;
    }
    ghost var k0, k1, k2;
    more, k0, k1, k2 := SortThree(Range(lo, n, d), Range(m, hi, d), Range(n + 1, m - 1, d + 1));
    SplitReplaces(lo, n, m, hi, d, more, k0, k1, k2);
    ThreeHas(more, Range(lo, n, d), Range(m, hi, d), Range(n + 1, m - 1, d + 1), k0, k1, k2);
    PartedPieces(ptr[..], b, bl, med, lo, n, m, hi, d, more);
  }

  lemma KeyedAt(f: seq<int>, b: seq<byte>, block: seq<int>, d: nat)
    requires Positions(f, |b|) && Extended(b, block) && d <= 15
    ensures Keyed(f, block, d)
  {
  }

  lemma DeeperReplaces(lo: int, hi: int, d: nat)
    requires hi - lo >= 20 && d <= 14
    ensures Replaces(Range(lo, hi, d), [Range(lo, hi, d + 1)])
  {
  }

  // ----- the stack

  ghost predicate DepthOk(stack: seq<Range>) {
    forall i {:trigger stack[i]} | 0 <= i < |stack| :: stack[i].d <= 15
  }

  lemma DepthReplace(stack: seq<Range>, more: seq<Range>)
    requires stack != [] && DepthOk(stack) && DepthOk(more)
    ensures DepthOk(stack[..|stack| - 1] + more)
  {
  }

  lemma DeeperPiled(stack: seq<Range>, lo: int, hi: int, deeper: Range)
    requires stack != [] && Piled(stack, lo, hi) && stack[|stack| - 1].d <= 14 && Size(stack[|stack| - 1]) >= 21
    requires deeper == stack[|stack| - 1].(d := stack[|stack| - 1].d + 1)
    ensures Piled(stack[..|stack| - 1] + [deeper], lo, hi) && Weight(stack[..|stack| - 1] + [deeper]) < Weight(stack)
  {
    hide Inside, Disjoint, Shallow, Shrinking, DepthOk, Weight;
    PopParts(stack);
    SingleInside(deeper);
    DisjointReplace(stack, [deeper]);
    InsideReplace(stack, [deeper], lo, hi);
    ShrinkingPop(stack, hi - lo + 1);
    ShrinkingPush(stack[..|stack| - 1], deeper, hi - lo + 1);
    WeightPush(stack[..|stack| - 1], deeper);
    DepthReplace(stack, [deeper]);
  }

  lemma SingleInside(r: Range)
    requires Size(r) >= 0 && r.d <= 15
    ensures Inside([r], r.lo, r.hi) && Disjoint([r]) && DepthOk([r])
  {
  }

  lemma SplitPiled(stack: seq<Range>, lo: int, hi: int, more: seq<Range>)
    requires stack != [] && Piled(stack, lo, hi) && Replaces(stack[|stack| - 1], more) && |more| == 3
    ensures Piled(stack[..|stack| - 1] + more, lo, hi)
  {
    hide Inside, Disjoint, Shallow, Shrinking, Weight;
    var top, rest, i, n := stack[|stack| - 1], stack[..|stack| - 1], |stack| - 1, hi - lo + 1;
    DisjointReplace(stack, more);
    InsideReplace(stack, more, lo, hi);
    ShrinkingPop(stack, n);
    ShrunkSmaller(Size(top), Size(more[0]), i, n);
    ShrunkSmaller(Size(top), Size(more[1]), i, n);
    ShrunkSmaller(Size(top), Size(more[2]), i, n);
    ShrinkingPush(rest, more[0], n);
    ShrinkingPush(rest + [more[0]], more[1], n);
    ShrinkingPush(rest + [more[0]] + [more[1]], more[2], n);
    assert rest + more == rest + [more[0]] + [more[1]] + [more[2]];
    SplitWeight(stack, more);
    DepthReplace(stack, more);
  }

  lemma SplitWeight(stack: seq<Range>, more: seq<Range>)
    requires stack != [] && Shallow(stack) && Replaces(stack[|stack| - 1], more) && |more| == 3
    ensures Shallow(stack[..|stack| - 1] + more) && Weight(stack[..|stack| - 1] + more) < Weight(stack)
  {
    hide Inside, Disjoint, Shallow, Weight, RangeWeight;
    var top, rest := stack[|stack| - 1], stack[..|stack| - 1];
    PopParts(stack);
    var k :| 0 <= k < 3 && Size(more[k]) >= 1 && DeeperAt(top, more, k);
    assert forall i {:trigger more[i]} | 0 <= i < 3 :: 0 <= Size(more[i]) && more[i].d <= 16;
    PushThree(rest, more);
    ThreeLighter(top, more, k);
  }

  lemma PushThree(rest: seq<Range>, more: seq<Range>)
    requires Shallow(rest) && |more| == 3 && forall i {:trigger more[i]} | 0 <= i < 3 :: 0 <= Size(more[i]) && more[i].d <= 16
    ensures Shallow(rest + more)
    ensures Weight(rest + more) == Weight(rest) + RangeWeight(more[0]) + RangeWeight(more[1]) + RangeWeight(more[2])
  {
    hide Shallow, Weight, RangeWeight;
    WeightPush(rest, more[0]);
    WeightPush(rest + [more[0]], more[1]);
    WeightPush(rest + [more[0]] + [more[1]], more[2]);
    assert rest + more == rest + [more[0]] + [more[1]] + [more[2]];
  }

  lemma ThreeLighter(top: Range, more: seq<Range>, k: nat)
    requires |more| == 3 && k < 3 && Size(more[k]) >= 1 && DeeperAt(top, more, k) && top.d <= 14
    requires Size(more[0]) >= 0 && Size(more[1]) >= 0 && Size(more[2]) >= 0
    requires Size(more[0]) + Size(more[1]) + Size(more[2]) == Size(top)
    ensures RangeWeight(more[0]) + RangeWeight(more[1]) + RangeWeight(more[2]) < RangeWeight(top)
  {
    hide RangeWeight;
    if k == 0 {
      WeightSplit(top, more[1], more[2], more[0]);
    } else if k == 1 {
      WeightSplit(top, more[0], more[2], more[1]);
    } else {
      WeightSplit(top, more[0], more[1], more[2]);
    }
  }

  lemma DonePiled(stack: seq<Range>, lo: int, hi: int)
    requires stack != [] && Piled(stack, lo, hi)
    ensures Piled(stack[..|stack| - 1], lo, hi) && Weight(stack[..|stack| - 1]) < Weight(stack)
    ensures stack[..|stack| - 1] + [] == stack[..|stack| - 1]
  {
    hide Inside, Disjoint, Shallow, Shrinking, DepthOk, Weight, RangeWeight;
    assert stack[..|stack| - 1] + [] == stack[..|stack| - 1];
    PopParts(stack);
    WeightPositive(stack[|stack| - 1]);
    NothingInside(stack[|stack| - 1]);
    DisjointReplace(stack, []);
    InsideReplace(stack, [], lo, hi);
    ShrinkingPop(stack, hi - lo + 1);
    DepthReplace(stack, []);
  }

  lemma WeightPositive(r: Range)
    requires 0 <= Size(r) && r.d <= 16
    ensures RangeWeight(r) >= 1
  {
  }

  lemma NothingInside(r: Range)
    ensures Inside([], r.lo, r.hi) && Disjoint([]) && DepthOk([])
  {
  }

  /** Whatever replaces the top range, the stack stays in shape, gets lighter, and stays far from its limit. */
  lemma ReplacePiled(stack: seq<Range>, lo: int, hi: int, more: seq<Range>)
    requires stack != [] && Piled(stack, lo, hi) && Replaces(stack[|stack| - 1], more) && hi - lo + 1 <= 900_000
    ensures Piled(stack[..|stack| - 1] + more, lo, hi) && Weight(stack[..|stack| - 1] + more) < Weight(stack)
    ensures more != [] ==> |stack| <= 30
  {
    if more == [] {
      DonePiled(stack, lo, hi);
    } else {
      ShrinkingPop(stack, hi - lo + 1);
      DepthBound(Size(stack[|stack| - 1]), |stack| - 1, hi - lo + 1);
      if |more| == 1 {
        DeeperPiled(stack, lo, hi, more[0]);
        assert more == [more[0]];
      } else {
        SplitPiled(stack, lo, hi, more);
        SplitWeight(stack, more);
      }
    }
  }

  lemma StartSorting(f: seq<int>, b: seq<byte>, lo: nat, hi: int, d: nat)
    requires b != [] && lo <= hi < |f| && d <= 15 && Positions(f, |b|) && Alike(f, b, lo, hi, d)
    ensures Piled([Range(lo, hi, d)], lo, hi) && Sorting(f, f, b, lo, hi, [Range(lo, hi, d)])
  {
    var stack := [Range(lo, hi, d)];
    forall x, y | lo <= x < y <= hi ensures Together(stack, x, y) {
      assert Holds(stack[0], x) && Holds(stack[0], y);
    }
  }

  lemma SortingDone(f0: seq<int>, f: seq<int>, b: seq<byte>, lo: int, hi: int)
    requires b != [] && Sorting(f0, f, b, lo, hi, [])
    ensures RotSorted(f, b, lo, hi) && Within(f0, f, lo, hi)
  {
    forall x, y | 0 <= lo <= x < y <= hi < |f| ensures Leq(b, f[x], f[y]) {
      assert LeqOrder(b)(f[x], f[y]) || Together([], x, y);
    }
  }

  lemma TopAlike(f0: seq<int>, f: seq<int>, b: seq<byte>, lo: int, hi: int, stack: seq<Range>)
    requires b != [] && stack != [] && Sorting(f0, f, b, lo, hi, stack) && Piled(stack, lo, hi)
    ensures Alike(f, b, stack[|stack| - 1].lo, stack[|stack| - 1].hi, stack[|stack| - 1].d) && Positions(f, |b|)
    ensures stack[|stack| - 1].d <= 15 && 0 <= lo <= stack[|stack| - 1].lo <= stack[|stack| - 1].hi + 1 <= hi + 1 <= |f|
  {
  }

  /** mainQSort3: sorts ptr[loSt..hiSt] unless the budget runs out; its stack of 100 ranges never fills (assertion 1001). */
  method QSort3(ptr: array<int>, block: array<int>, quadrant: array<int>, nblock: nat, loSt: nat, hiSt: int, dSt: nat,
                budget0: int, ghost b: seq<byte>) returns (budget: int)
    requires ptr != block && ptr != quadrant && |b| == nblock && Extended(b, block[..]) && Quadrants(b, quadrant[..])
    requires loSt <= hiSt < ptr.Length <= 900_000 && dSt <= 15
    requires Positions(ptr[..], nblock) && Alike(ptr[..], b, loSt, hiSt, dSt)
    modifies ptr
    ensures Within(old(ptr[..]), ptr[..], loSt, hiSt) && budget <= budget0
    ensures budget >= 0 ==> RotSorted(ptr[..], b, loSt, hiSt)
  {
    hide Quadrants, Sorting, Inside, Disjoint, Shrinking, DepthOk, Replaces, Pieces, Within, Weight;
    budget := budget0;
    ghost var f0, bl, qu := ptr[..], block[..], quadrant[..];
    var stack := new Range[100](_ => Range(0, 0, 0));
    var sp := 1;
    stack[0] := Range(loSt, hiSt, dSt);
    ghost var st := [Range(loSt, hiSt, dSt)];
    StartSorting(f0, b, loSt, hiSt, dSt);
    while sp > 0
      invariant 0 <= sp <= 33 && stack[..sp] == st && block[..] == bl && quadrant[..] == qu && budget <= budget0
      invariant Piled(st, loSt, hiSt) && Sorting(f0, ptr[..], b, loSt, hiSt, st)
      decreases Weight(st)
    {
      assert sp < 98;
      ghost var f, rest := ptr[..], st[..sp - 1];
      TopAlike(f0, f, b, loSt, hiSt, st);
      sp := sp - 1;
      var r := stack[sp];
      assert st[sp] == r && stack[..sp] == rest;
      var more;
      budget, more := Round(ptr, block, quadrant, nblock, r.lo, r.hi, r.d, budget, b);
      if budget < 0 && more == [] {
        Abandoned(f0, f, ptr[..], b, loSt, hiSt, st);
        return;
      }
      assert rest == st[..|st| - 1];
      ghost var g := ptr[..];
      SortingStep(f0, f, g, b, loSt, hiSt, st, more);
      ReplacePiled(st, loSt, hiSt, more);
      ReplaceShort(r, more);
      st := rest + more;
      ghost var sp0 := sp;
      var i := 0;
      while i < |more|
        invariant 0 <= i <= |more| && sp == sp0 + i && stack[..sp] == rest + more[..i]
        invariant ptr[..] == g
        modifies stack
      {
        stack[sp] := more[i];
        sp := sp + 1;
        i := i + 1;
      }
      assert more[..|more|] == more;
    }
    SortingDone(f0, ptr[..], b, loSt, hiSt);
  }

  lemma ReplaceShort(top: Range, more: seq<Range>)
    requires Replaces(top, more)
    ensures |more| <= 3
  {
  }

  lemma Abandoned(f0: seq<int>, f: seq<int>, f': seq<int>, b: seq<byte>, lo: int, hi: int, stack: seq<Range>)
    requires b != [] && stack != [] && Sorting(f0, f, b, lo, hi, stack) && Piled(stack, lo, hi)
    requires Within(f, f', stack[|stack| - 1].lo, stack[|stack| - 1].hi)
    ensures Within(f0, f', lo, hi)
  {
    WithinWider(f, f', stack[|stack| - 1].lo, stack[|stack| - 1].hi, lo, hi);
    WithinTransitive(f0, f, f', lo, hi);
  }
}
