// fallbackSimpleSort and fallbackQSort3: sort a stretch of fmap by equivalence class.
module FallbackQSort {
  import opened Permutations
  import opened ThreeWay
  import opened QSortStack

  /** Entries lo..hi are in non-descending order of class. */
  ghost predicate ByClass(f: seq<int>, e: seq<int>, lo: int, hi: int)
    requires Keyed(f, e, 0)
  {
    forall x, y {:trigger f[x], f[y]} | 0 <= lo <= x < y <= hi < |f| :: e[f[x]] <= e[f[y]]
  }

  /** Mid-insertion: entry p is in the right place with respect to those before it, and the others are sorted. */
  ghost predicate Inserting(g: seq<int>, e: seq<int>, i: int, hi: int, p: int)
    requires Keyed(g, e, 0)
  {
    0 <= i <= p <= hi < |g| &&
    (forall x, y {:trigger g[x], g[y]} | i <= x < y <= hi && x != p && y != p :: e[g[x]] <= e[g[y]]) &&
    forall x {:trigger g[x]} | i <= x < p :: e[g[x]] <= e[g[p]]
  }

  lemma InsertMoves(g: seq<int>, e: seq<int>, i: int, hi: int, p: int)
    requires Keyed(g, e, 0) && Inserting(g, e, i, hi, p) && p < hi && e[g[p]] > e[g[p + 1]]
    ensures Keyed(Swap(g, p, p + 1), e, 0) && Inserting(Swap(g, p, p + 1), e, i, hi, p + 1)
  {
    var g' := Swap(g, p, p + 1);
    forall x | i <= x < p + 1 ensures e[g'[x]] <= e[g'[p + 1]] {
      if x == p { assert g'[x] == g[p + 1]; }
    }
    forall x, y | i <= x < y <= hi && x != p + 1 && y != p + 1 ensures e[g'[x]] <= e[g'[y]] {
      if x == p {
        assert g'[x] == g[p + 1] && g'[y] == g[y];
      } else if y == p {
        assert g'[y] == g[p + 1] && g'[x] == g[x];
      } else {
        assert g'[x] == g[x] && g'[y] == g[y];
      }
    }
  }

  lemma InsertEnds(g: seq<int>, e: seq<int>, i: int, hi: int, p: int)
    requires Keyed(g, e, 0) && Inserting(g, e, i, hi, p) && (p == hi || e[g[p]] <= e[g[p + 1]])
    ensures ByClass(g, e, i, hi)
  {
    forall x, y | i <= x < y <= hi ensures e[g[x]] <= e[g[y]] {
      if x == p && y > p + 1 {
        assert e[g[p + 1]] <= e[g[y]];
      }
    }
  }

  /** What one insertion in steps of h keeps; g is the array with tmp put in the hole at p. */
  ghost predicate Mid(f: seq<int>, g: seq<int>, e: seq<int>, h: nat, i: int, lo: int, hi: int, p: int) {
    0 <= lo <= i <= p <= hi < |g| && Within(f, g, lo, hi) && Keyed(f, e, 0) && Keyed(g, e, 0) &&
    (h == 1 && ByClass(f, e, i + 1, hi) ==> Inserting(g, e, i, hi, p))
  }

  lemma MidStep(f: seq<int>, g: seq<int>, e: seq<int>, h: nat, i: int, lo: int, hi: int, p: int)
    requires Mid(f, g, e, h, i, lo, hi, p) && 1 <= h && p + h <= hi && e[g[p]] > e[g[p + h]]
    ensures Mid(f, Swap(g, p, p + h), e, h, i, lo, hi, p + h)
  {
    if h == 1 && ByClass(f, e, i + 1, hi) {
      InsertMoves(g, e, i, hi, p);
    }
    SwapWithin(g, p, p + h, lo, hi);
    WithinTransitive(f, g, Swap(g, p, p + h), lo, hi);
    KeyedWithin(f, Swap(g, p, p + h), e, 0, lo, hi);
  }

  lemma MidStart(f: seq<int>, e: seq<int>, h: nat, i: int, lo: int, hi: int)
    requires Keyed(f, e, 0) && 0 <= lo <= i <= hi < |f|
    ensures Mid(f, f, e, h, i, lo, hi, i)
  {
  }

  lemma MidEnd(f: seq<int>, g: seq<int>, e: seq<int>, h: nat, i: int, lo: int, hi: int, p: int)
    requires Mid(f, g, e, h, i, lo, hi, p) && (p + h > hi || e[g[p]] <= e[g[p + h]])
    ensures h == 1 && ByClass(f, e, i + 1, hi) ==> ByClass(g, e, i, hi)
  {
    if h == 1 && ByClass(f, e, i + 1, hi) {
      InsertEnds(g, e, i, hi, p);
    }
  }

  /** One insertion of either pass: entry i moves up in steps of h while larger than what it meets. */
  method Insert(fmap: array<int>, eclass: array<int>, h: nat, i: nat, lo: nat, hi: int)
    requires fmap != eclass && 1 <= h && lo <= i && i + h <= hi < fmap.Length && Keyed(fmap[..], eclass[..], 0)
    modifies fmap
    ensures Within(old(fmap[..]), fmap[..], lo, hi) && Keyed(fmap[..], eclass[..], 0)
    ensures h == 1 && old(ByClass(fmap[..], eclass[..], i + 1, hi)) ==> ByClass(fmap[..], eclass[..], i, hi)
  {
    hide Within, Inserting, ByClass;
    ghost var f, e := fmap[..], eclass[..];
    var tmp := fmap[i];
    var ecTmp := eclass[tmp];
    var j := i + h;
    ghost var g, cur := f, f;
    MidStart(f, e, h, i, lo, hi);
    while true
      invariant i <= j - h <= hi && eclass[..] == e && cur == fmap[..] && |cur| == |f| && g == cur[j - h := tmp]
      invariant Mid(f, g, e, h, i, lo, hi, j - h)
      decreases hi - j
    {
      if j > hi { break; }
      assert g[j] == cur[j] == fmap[j];
      if ecTmp <= eclass[fmap[j]] { break; }
      MidStep(f, g, e, h, i, lo, hi, j - h);
      HoleMoves(cur, j - h, j, tmp);
      g, cur := Swap(g, j - h, j), cur[j - h := cur[j]];
      fmap[j - h] := fmap[j];
      j := j + h;
    }
    MidEnd(f, g, e, h, i, lo, hi, j - h);
    fmap[j - h] := tmp;
    assert fmap[..] == g;
  }

  method SimpleSort(fmap: array<int>, eclass: array<int>, lo: nat, hi: int)
    requires fmap != eclass && hi < fmap.Length && Keyed(fmap[..], eclass[..], 0)
    modifies fmap
    ensures Within(old(fmap[..]), fmap[..], lo, hi) && Keyed(fmap[..], eclass[..], 0)
    ensures ByClass(fmap[..], eclass[..], lo, hi)
  {
    ghost var f := fmap[..];
    if lo == hi { return; }
    if hi - lo > 3 {
      var i := hi - 4;
      while i >= lo
        invariant lo - 1 <= i <= hi - 4 && Within(f, fmap[..], lo, hi) && Keyed(fmap[..], eclass[..], 0)
      {
        ghost var g := fmap[..];
        Insert(fmap, eclass, 4, i, lo, hi);
        WithinTransitive(f, g, fmap[..], lo, hi);
        i := i - 1;
      }
    }
    var i := hi - 1;
    while i >= lo
      invariant i <= hi - 1 && Within(f, fmap[..], lo, hi) && Keyed(fmap[..], eclass[..], 0)
      invariant lo <= hi ==> lo - 1 <= i
      invariant ByClass(fmap[..], eclass[..], i + 1, hi)
    {
      ghost var g := fmap[..];
      Insert(fmap, eclass, 1, i, lo, hi);
      WithinTransitive(f, g, fmap[..], lo, hi);
      i := i - 1;
    }
  }

  /** In order of class. */
  ghost function ClassOrder(e: seq<int>): Order {
    (v: int, w: int) => 0 <= v < |e| && 0 <= w < |e| && e[v] <= e[w]
  }

  lemma ResolvedSorted(f: seq<int>, e: seq<int>, lo: int, hi: int)
    requires Keyed(f, e, 0) && Resolved(f, ClassOrder(e), lo, hi, [])
    ensures ByClass(f, e, lo, hi)
  {
    forall x, y | 0 <= lo <= x < y <= hi < |f| ensures e[f[x]] <= e[f[y]] {
      assert ClassOrder(e)(f[x], f[y]) || Together([], x, y);
    }
  }

  lemma PartedInOrder(f: seq<int>, e: seq<int>, med: int, lo: int, n: int, m: int, hi: int, more: seq<Range>)
    requires Parted(f, e, 0, med, lo, n, m, hi)
    requires Range(lo, n, 0) in more && Range(m, hi, 0) in more
    ensures forall x, y {:trigger f[x], f[y]} | lo <= x < y <= hi ::
              ClassOrder(e)(f[x], f[y]) || Together(more, x, y)
  {
    forall x, y | lo <= x < y <= hi ensures ClassOrder(e)(f[x], f[y]) || Together(more, x, y) {
      if y <= n {
        var i :| 0 <= i < |more| && more[i] == Range(lo, n, 0);
        assert Holds(more[i], x) && Holds(more[i], y);
      } else if m <= x {
        var i :| 0 <= i < |more| && more[i] == Range(m, hi, 0);
        assert Holds(more[i], x) && Holds(more[i], y);
      } else if x <= n {
        assert e[f[x] + 0] < med <= e[f[y] + 0];
      } else {
        assert e[f[x] + 0] == med <= e[f[y] + 0];
      }
    }
  }

  /** The fallback sort compares whole classes, never bytes further on. */
  ghost predicate Flat(stack: seq<Range>) {
    forall i | 0 <= i < |stack| :: stack[i].d == 0
  }

  /** The stack's ranges lie apart inside lo..hi and shrink from the bottom up. */
  ghost predicate Stacked(stack: seq<Range>, lo: int, hi: int) {
    lo <= hi + 1 && Inside(stack, lo, hi) && Disjoint(stack) && Flat(stack) && Shallow(stack) &&
    Shrinking(stack, hi - lo + 1)
  }

  /** Everything the stack does not mention is in order. */
  ghost predicate Arranged(f0: seq<int>, f: seq<int>, e: seq<int>, lo: int, hi: int, stack: seq<Range>) {
    0 <= lo <= hi + 1 <= |f| && Within(f0, f, lo, hi) && Keyed(f, e, 0) && Resolved(f, ClassOrder(e), lo, hi, stack)
  }

  /** Entries that are not together in a piece are in order. */
  ghost predicate Apart(f: seq<int>, e: seq<int>, lo: int, hi: int, more: seq<Range>)
    requires 0 <= lo && hi < |f|
  {
    forall x, y {:trigger f[x], f[y]} | lo <= x < y <= hi :: ClassOrder(e)(f[x], f[y]) || Together(more, x, y)
  }

  lemma SortedApart(f: seq<int>, e: seq<int>, lo: int, hi: int)
    requires 0 <= lo && hi < |f| && Keyed(f, e, 0) && ByClass(f, e, lo, hi)
    ensures Apart(f, e, lo, hi, [])
  {
  }

  /** What a round needs to know of the popped range. */
  lemma TopFacts(f0: seq<int>, f: seq<int>, e: seq<int>, lo: int, hi: int, stack: seq<Range>)
    requires stack != [] && Stacked(stack, lo, hi) && Arranged(f0, f, e, lo, hi, stack)
    ensures 0 <= lo <= stack[|stack| - 1].lo <= stack[|stack| - 1].hi + 1 <= hi + 1 <= |f| && Keyed(f, e, 0)
    ensures stack[|stack| - 1].d == 0
  {
  }

  /** Rearranging the popped range alone keeps the rest arranged. */
  lemma Arrange(f0: seq<int>, f: seq<int>, f': seq<int>, e: seq<int>, lo: int, hi: int, stack: seq<Range>, more: seq<Range>)
    requires stack != [] && Stacked(stack, lo, hi) && Arranged(f0, f, e, lo, hi, stack)
    requires Within(f, f', stack[|stack| - 1].lo, stack[|stack| - 1].hi) && Keyed(f', e, 0)
    requires 0 <= stack[|stack| - 1].lo && stack[|stack| - 1].hi < |f'|
    requires Apart(f', e, stack[|stack| - 1].lo, stack[|stack| - 1].hi, more)
    ensures Arranged(f0, f', e, lo, hi, stack[..|stack| - 1] + more)
  {
    var top := stack[|stack| - 1];
    Settle(f, f', ClassOrder(e), lo, hi, stack, more);
    WithinWider(f, f', top.lo, top.hi, lo, hi);
    WithinTransitive(f0, f, f', lo, hi);
  }

  /** A popped range that has been put in order leaves the rest of the stack. */
  lemma RangeDone(f0: seq<int>, f: seq<int>, f': seq<int>, e: seq<int>, lo: int, hi: int, stack: seq<Range>)
    requires stack != [] && Stacked(stack, lo, hi) && Arranged(f0, f, e, lo, hi, stack)
    requires Within(f, f', stack[|stack| - 1].lo, stack[|stack| - 1].hi) && Keyed(f', e, 0)
    requires ByClass(f', e, stack[|stack| - 1].lo, stack[|stack| - 1].hi)
    ensures Stacked(stack[..|stack| - 1], lo, hi) && Arranged(f0, f', e, lo, hi, stack[..|stack| - 1])
    ensures Weight(stack[..|stack| - 1]) < Weight(stack)
  {
    assert stack[..|stack| - 1] + [] == stack[..|stack| - 1];
    SortedApart(f', e, stack[|stack| - 1].lo, stack[|stack| - 1].hi);
    Arrange(f0, f, f', e, lo, hi, stack, []);
    DisjointReplace(stack, []);
  }

  lemma LighterPair(top: Range, a: Range, b: Range)
    requires a.d == b.d == top.d == 0 && 0 <= Size(b) && 0 <= Size(a) && Size(a) + Size(b) < Size(top)
    ensures RangeWeight(a) + RangeWeight(b) < RangeWeight(top)
  {
  }

  /** The two outer parts of a split range replace it on the stack, the larger below the smaller. */
  lemma SplitStack(stack: seq<Range>, a: Range, b: Range, lo: int, hi: int)
    requires stack != [] && Stacked(stack, lo, hi) && a.d == b.d == 0
    requires Inside([a, b], stack[|stack| - 1].lo, stack[|stack| - 1].hi) && Disjoint([a, b])
    requires 0 <= Size(b) <= Size(a) && Size(a) + Size(b) < Size(stack[|stack| - 1])
    ensures Stacked(stack[..|stack| - 1] + [a, b], lo, hi)
    ensures Weight(stack[..|stack| - 1] + [a, b]) < Weight(stack)
    ensures Size(stack[|stack| - 1]) >= 11 && hi - lo + 1 <= 900_000 ==> |stack| <= 30
  {
    hide Inside, Disjoint, Shallow, Shrinking, Shrunk, Weight, RangeWeight;
    var top, rest, i, n := stack[|stack| - 1], stack[..|stack| - 1], |stack| - 1, hi - lo + 1;
    PopParts(stack);
    DisjointReplace(stack, [a, b]);
    InsideReplace(stack, [a, b], lo, hi);
    ShrinkingPop(stack, n);
    ShrunkSmaller(Size(top), Size(a), i, n);
    ShrunkSmaller(Size(top), Size(b), i, n);
    ShrinkingPush(rest, a, n);
    ShrinkingPush(rest + [a], b, n);
    WeightPush(rest, a);
    WeightPush(rest + [a], b);
    assert rest + [a, b] == (rest + [a]) + [b];
    LighterPair(top, a, b);
    if Size(top) >= 11 && n <= 900_000 { DepthBound(Size(top), i, n); }
  }

  /** One round on a popped range: sort it if it is short or all of one class, else split it. */
  method Round(fmap: array<int>, eclass: array<int>, lo: nat, hi: int, r0: nat)
      returns (r: nat, split: bool, a: Range, b: Range)
    requires fmap != eclass && lo <= hi + 1 <= fmap.Length && Keyed(fmap[..], eclass[..], 0)
    modifies fmap
    ensures Within(old(fmap[..]), fmap[..], lo, hi) && Keyed(fmap[..], eclass[..], 0)
    ensures !split ==> ByClass(fmap[..], eclass[..], lo, hi)
    ensures split ==> hi - lo >= 10 && a.d == b.d == 0 && Inside([a, b], lo, hi) && Disjoint([a, b])
    ensures split ==> 0 <= Size(b) <= Size(a) && Size(a) + Size(b) < hi - lo + 1
    ensures split ==> Apart(fmap[..], eclass[..], lo, hi, [a, b])
  {
    r, split, a, b := r0, false, Range(0, 0, 0), Range(0, 0, 0);
    ghost var f, e := fmap[..], eclass[..];
    if hi - lo < 10 {
      SimpleSort(fmap, eclass, lo, hi);
      return;
    }
    r := (r * 7621 + 1) % 32768;
    var r3 := r % 3;
    var p := if r3 == 0 then lo else if r3 == 1 then (lo + hi) / 2 else hi;
    var med := eclass[fmap[p]];
    assert Occurs(f, e, 0, lo, hi, med) by { assert e[f[p] + 0] == med; }
    var allEqual, n, m := Partition(fmap, eclass, 0, lo, hi, med);
    if allEqual {
      AllEqualSorted(fmap[..], e, med, lo, hi);
      return;
    }
    split, a, b := true, Range(lo, n, 0), Range(m, hi, 0);
    if n - lo <= hi - m {
      a, b := b, a;
    }
    PartedInOrder(fmap[..], e, med, lo, n, m, hi, [a, b]);
  }

  /** fallbackQSort3: sorts fmap[loSt..hiSt] by class; its stack of 100 ranges never fills (assertion 1004). */
  method QSort3(fmap: array<int>, eclass: array<int>, loSt: nat, hiSt: int)
    requires fmap != eclass && loSt <= hiSt < fmap.Length <= 900_000 && Keyed(fmap[..], eclass[..], 0)
    modifies fmap
    ensures Within(old(fmap[..]), fmap[..], loSt, hiSt) && Keyed(fmap[..], eclass[..], 0)
    ensures ByClass(fmap[..], eclass[..], loSt, hiSt)
  {
    hide Within, Inside, Disjoint, Shallow, Shrinking, Arranged, ByClass, Keyed, Apart, Weight, Resolved;
    ghost var f0, e := fmap[..], eclass[..];
    var r := 0;
    var stack := new Range[100](_ => Range(0, 0, 0));
    var sp := 1;
    stack[0] := Range(loSt, hiSt, 0);
    StartArranged(f0, e, loSt, hiSt);
    ghost var st := [Range(loSt, hiSt, 0)];
    while sp > 0
      invariant 0 <= sp <= 31 && eclass[..] == e && stack[..sp] == st
      invariant Stacked(st, loSt, hiSt) && Arranged(f0, fmap[..], e, loSt, hiSt, st)
      decreases Weight(st)
    {
      assert sp < 99;
      ghost var f, rest := fmap[..], st[..sp - 1];
      TopFacts(f0, f, e, loSt, hiSt, st);
      sp := sp - 1;
      var lo, hi := stack[sp].lo, stack[sp].hi;
      assert st[sp] == stack[sp] && stack[..sp] == rest;
      var split, a, b;
      r, split, a, b := Round(fmap, eclass, lo, hi, r);
      if !split {
        RangeDone(f0, f, fmap[..], e, loSt, hiSt, st);
        st := rest;
        continue;
      }
      Arrange(f0, f, fmap[..], e, loSt, hiSt, st, [a, b]);
      SplitStack(st, a, b, loSt, hiSt);
      stack[sp] := a;
      sp := sp + 1;
      stack[sp] := b;
      sp := sp + 1;
      st := rest + [a, b];
    }
    ArrangedSorted(f0, fmap[..], e, loSt, hiSt);
  }

  lemma ArrangedSorted(f0: seq<int>, f: seq<int>, e: seq<int>, lo: int, hi: int)
    requires Arranged(f0, f, e, lo, hi, [])
    ensures Within(f0, f, lo, hi) && Keyed(f, e, 0) && ByClass(f, e, lo, hi)
  {
    hide Within, Keyed;
    ResolvedSorted(f, e, lo, hi);
  }

  lemma StartArranged(f: seq<int>, e: seq<int>, lo: nat, hi: int)
    requires lo <= hi < |f| && Keyed(f, e, 0)
    ensures Stacked([Range(lo, hi, 0)], lo, hi) && Arranged(f, f, e, lo, hi, [Range(lo, hi, 0)])
  {
    var stack := [Range(lo, hi, 0)];
    forall x, y | lo <= x < y <= hi ensures Together(stack, x, y) {
      assert Holds(stack[0], x) && Holds(stack[0], y);
    }
  }

  lemma AllEqualSorted(f: seq<int>, e: seq<int>, med: int, lo: int, hi: int)
    requires Parted(f, e, 0, med, lo, lo - 1, hi + 1, hi)
    ensures ByClass(f, e, lo, hi)
  {
    forall x, y | 0 <= lo <= x < y <= hi < |f| ensures e[f[x]] <= e[f[y]] {
      assert e[f[x] + 0] == med == e[f[y] + 0];
    }
  }
}
