// The explicit stack of both quicksorts: which pairs of entries are still unordered, why sorting the
// ranges on the stack finishes the job, how deep the stack can grow, and why the loop ends.
module QSortStack {
  import opened Permutations
  import opened ThreeWay
  import opened Bits

  /** A stretch lo..hi of the array that still has to be sorted from key offset d on. */
  datatype Range = Range(lo: int, hi: int, d: nat)

  ghost predicate Holds(r: Range, x: int) { r.lo <= x <= r.hi }

  ghost predicate Disjoint(stack: seq<Range>) {
    forall i, j | 0 <= i < j < |stack| :: stack[i].hi < stack[j].lo || stack[j].hi < stack[i].lo
  }

  ghost predicate Together(stack: seq<Range>, x: int, y: int) {
    exists i :: 0 <= i < |stack| && Holds(stack[i], x) && Holds(stack[i], y)
  }

  ghost predicate Inside(stack: seq<Range>, lo: int, hi: int) {
    forall i | 0 <= i < |stack| :: lo <= stack[i].lo && stack[i].hi <= hi && stack[i].lo <= stack[i].hi + 1
  }

  function Size(r: Range): int { r.hi - r.lo + 1 }

  lemma TogetherDrop(stack: seq<Range>, x: int, y: int)
    requires stack != [] && Together(stack, x, y)
    ensures Together(stack[..|stack| - 1], x, y) || (Holds(stack[|stack| - 1], x) && Holds(stack[|stack| - 1], y))
  {
    var rest := stack[..|stack| - 1];
    var i :| 0 <= i < |stack| && Holds(stack[i], x) && Holds(stack[i], y);
    if i < |rest| {
      assert rest[i] == stack[i];
    }
  }

  lemma TogetherGrow(rest: seq<Range>, more: seq<Range>, x: int, y: int)
    requires Together(rest, x, y) || Together(more, x, y)
    ensures Together(rest + more, x, y)
  {
    if Together(rest, x, y) {
      var i :| 0 <= i < |rest| && Holds(rest[i], x) && Holds(rest[i], y);
      assert (rest + more)[i] == rest[i];
    } else {
      var i :| 0 <= i < |more| && Holds(more[i], x) && Holds(more[i], y);
      assert (rest + more)[|rest| + i] == more[i];
    }
  }

  /** A range disjoint from the top of the stack does not hold one point inside the top and one outside. */
  lemma NotAcross(stack: seq<Range>, x: int, y: int)
    requires stack != [] && Disjoint(stack)
    requires Holds(stack[|stack| - 1], x) != Holds(stack[|stack| - 1], y)
    ensures !Together(stack, x, y)
  {
    var top := |stack| - 1;
    forall i | 0 <= i < |stack| ensures !(Holds(stack[i], x) && Holds(stack[i], y)) {
      if i < top {
        assert stack[i].hi < stack[top].lo || stack[top].hi < stack[i].lo;
      }
    }
  }

  /** Replacing the top of the stack by ranges inside it keeps the ranges apart. */
  lemma DisjointReplace(stack: seq<Range>, more: seq<Range>)
    requires stack != [] && Disjoint(stack) && Disjoint(more)
    requires var top := stack[|stack| - 1]; Inside(more, top.lo, top.hi)
    ensures Disjoint(stack[..|stack| - 1] + more)
  {
    var all, t := stack[..|stack| - 1] + more, |stack| - 1;
    forall i, j | 0 <= i < j < |all| ensures all[i].hi < all[j].lo || all[j].hi < all[i].lo {
      if i < t <= j {
        assert stack[i].hi < stack[t].lo || stack[t].hi < stack[i].lo;
        assert all[j] == more[j - t];
      } else if t <= i {
        assert all[i] == more[i - t] && all[j] == more[j - t];
      }
    }
  }

  type Order = (int, int) -> bool

  /** Every pair of entries in lo..hi is in order or still together in one range of the stack. */
  ghost predicate Resolved(f: seq<int>, order: Order, lo: int, hi: int, stack: seq<Range>) {
    0 <= lo && hi < |f| &&
    forall x, y {:trigger f[x], f[y]} | lo <= x < y <= hi :: order(f[x], f[y]) || Together(stack, x, y)
  }

  /** Rearranging only the top range settles whatever is in order inside it, and unsettles nothing outside. */
  lemma Settle(f: seq<int>, f': seq<int>, order: Order, lo: int, hi: int, stack: seq<Range>, more: seq<Range>)
    requires stack != [] && Disjoint(stack) && Inside(stack, lo, hi) && Resolved(f, order, lo, hi, stack)
    requires Within(f, f', stack[|stack| - 1].lo, stack[|stack| - 1].hi)
    requires forall x, y {:trigger f'[x], f'[y]} | stack[|stack| - 1].lo <= x < y <= stack[|stack| - 1].hi ::
               order(f'[x], f'[y]) || Together(more, x, y)
    ensures Resolved(f', order, lo, hi, stack[..|stack| - 1] + more)
  {
    var top, rest := stack[|stack| - 1], stack[..|stack| - 1];
    forall x, y | lo <= x < y <= hi ensures order(f'[x], f'[y]) || Together(rest + more, x, y) {
      if Holds(top, x) && Holds(top, y) {
        if !order(f'[x], f'[y]) { TogetherGrow(rest, more, x, y); }
      } else if Holds(top, x) {
        var o := WithinOrigin(f, f', top.lo, top.hi, x);
        NotAcross(stack, o, y);
        assert f'[y] == f[y];
      } else if Holds(top, y) {
        var o := WithinOrigin(f, f', top.lo, top.hi, y);
        NotAcross(stack, x, o);
        assert f'[x] == f[x];
      } else {
        assert f'[x] == f[x] && f'[y] == f[y];
        if !order(f[x], f[y]) {
          TogetherDrop(stack, x, y);
          TogetherGrow(rest, more, x, y);
        }
      }
    }
  }

  lemma InsideReplace(stack: seq<Range>, more: seq<Range>, lo: int, hi: int)
    requires stack != [] && Inside(stack, lo, hi) && Inside(more, stack[|stack| - 1].lo, stack[|stack| - 1].hi)
    ensures Inside(stack[..|stack| - 1] + more, lo, hi)
  {
    var rest := stack[..|stack| - 1];
    forall i | 0 <= i < |rest + more|
      ensures var r := (rest + more)[i]; lo <= r.lo && r.hi <= hi && r.lo <= r.hi + 1
    {
      assert i < |rest| ==> rest[i] == stack[i];
      assert i >= |rest| ==> (rest + more)[i] == more[i - |rest|];
    }
  }

  ghost predicate Shallow(stack: seq<Range>) {
    forall i | 0 <= i < |stack| :: 0 <= Size(stack[i]) && stack[i].d <= 16
  }

  /** Work still on the stack; it falls with every round of either quicksort. */
  function Weight(stack: seq<Range>): nat
    requires Shallow(stack)
  {
    if stack == [] then 0
    else Weight(stack[..|stack| - 1]) + RangeWeight(stack[|stack| - 1])
  }

  function RangeWeight(r: Range): nat
    requires 0 <= Size(r) && r.d <= 16
  {
    1 + 3 * Size(r) * (16 - r.d)
  }

  lemma PopParts(stack: seq<Range>)
    requires stack != [] && Shallow(stack)
    ensures Shallow(stack[..|stack| - 1]) && 0 <= Size(stack[|stack| - 1]) && stack[|stack| - 1].d <= 16
    ensures Weight(stack) == Weight(stack[..|stack| - 1]) + RangeWeight(stack[|stack| - 1])
  {
  }

  lemma WeightPush(stack: seq<Range>, r: Range)
    requires Shallow(stack) && 0 <= Size(r) && r.d <= 16
    ensures Shallow(stack + [r]) && Weight(stack + [r]) == Weight(stack) + RangeWeight(r)
  {
    assert (stack + [r])[..|stack|] == stack;
  }

  /** Two ranges that together lack an entry, and a third holding the rest one byte deeper, weigh less. */
  lemma WeightSplit(r: Range, a: Range, b: Range, c: Range)
    requires 0 <= Size(a) && 0 <= Size(b) && 1 <= Size(c) && Size(a) + Size(b) + Size(c) == Size(r)
    requires a.d == b.d == r.d && c.d == r.d + 1 && r.d <= 15
    ensures RangeWeight(a) + RangeWeight(b) + RangeWeight(c) < RangeWeight(r)
  {
    var k := 16 - r.d;
    assert Size(r) * k == Size(a) * k + Size(b) * k + Size(c) * k;
    assert Size(c) * (k - 1) == Size(c) * k - Size(c);
  }

  function Pow(b: nat, k: nat): (p: nat)
    ensures b > 0 ==> p > 0
  {
    if k == 0 then 1 else b * Pow(b, k - 1)
  }

  /** size * (3/2)^i <= n, without fractions: the i-th range from the bottom is that much smaller. */
  ghost predicate Shrunk(size: int, i: nat, n: nat) {
    size * Pow(3, i) <= n * Pow(2, i)
  }

  ghost predicate Shrinking(stack: seq<Range>, n: nat) {
    forall i {:trigger stack[i]} | 0 <= i < |stack| :: Shrunk(Size(stack[i]), i, n)
  }

  lemma ShrinkingPush(stack: seq<Range>, r: Range, n: nat)
    requires Shrinking(stack, n) && Shrunk(Size(r), |stack|, n)
    ensures Shrinking(stack + [r], n)
  {
  }

  lemma ShrinkingPop(stack: seq<Range>, n: nat)
    requires stack != [] && Shrinking(stack, n)
    ensures Shrinking(stack[..|stack| - 1], n) && Shrunk(Size(stack[|stack| - 1]), |stack| - 1, n)
  {
  }

  lemma ShrunkSame(size: nat, part: nat, i: nat, n: nat)
    requires Shrunk(size, i, n) && part <= size
    ensures Shrunk(part, i, n)
  {
    hide Pow;
    MulOrder(part, size, Pow(3, i));
  }

  lemma ShrunkHalf(size: nat, part: nat, i: nat, n: nat)
    requires Shrunk(size, i, n) && 2 * part <= size
    ensures Shrunk(part, i + 1, n)
  {
    PowNext(i);
    hide Pow;
    HalfOf(size, part, Pow(3, i), n, Pow(2, i));
  }

  lemma PowNext(i: nat)
    ensures Pow(3, i + 1) == 3 * Pow(3, i) && Pow(2, i + 1) == 2 * Pow(2, i)
  {
  }

  lemma HalfOf(size: nat, part: nat, p: nat, n: nat, q: nat)
    requires size * p <= n * q && 2 * part <= size
    ensures part * (3 * p) <= n * (2 * q)
  {
    MulOrder(2 * part, size, p);
    assert 2 * part * p == 2 * (part * p);
    assert part * (3 * p) == 3 * (part * p) && n * (2 * q) == 2 * (n * q);
    assert part * p >= 0;
  }

  lemma ShrunkThird(size: nat, part: nat, i: nat, n: nat)
    requires Shrunk(size, i, n) && 3 * part <= size
    ensures Shrunk(part, i + 2, n)
  {
    PowNext(i);
    PowNext(i + 1);
    hide Pow;
    ThirdOf(size, part, Pow(3, i), n, Pow(2, i));
  }

  lemma ThirdOf(size: nat, part: nat, p: nat, n: nat, q: nat)
    requires size * p <= n * q && 3 * part <= size
    ensures part * (3 * (3 * p)) <= n * (2 * (2 * q))
  {
    MulOrder(3 * part, size, p);
    assert 3 * part * p == 3 * (part * p);
    assert part * (3 * (3 * p)) == 9 * (part * p) && n * (2 * (2 * q)) == 4 * (n * q);
    assert part * p >= 0;
  }

  lemma ShrunkSmaller(size: nat, part: nat, i: nat, n: nat)
    requires Shrunk(size, i, n)
    ensures part <= size ==> Shrunk(part, i, n)
    ensures 2 * part <= size ==> Shrunk(part, i + 1, n)
    ensures 3 * part <= size ==> Shrunk(part, i + 2, n)
  {
    hide Shrunk;
    if part <= size { ShrunkSame(size, part, i, n); }
    if 2 * part <= size { ShrunkHalf(size, part, i, n); }
    if 3 * part <= size { ShrunkThird(size, part, i, n); }
  }

  lemma MulOrder(x: int, y: int, p: nat)
    requires x <= y
    ensures x * p <= y * p
  {
  }

  lemma {:induction false} PowAdd(b: nat, i: nat, j: nat)
    ensures Pow(b, i + j) == Pow(b, i) * Pow(b, j)
  {
    if i > 0 {
      PowAdd(b, i - 1, j);
      MulAssoc(b, Pow(b, i - 1), Pow(b, j));
    }
  }

  lemma {:induction false} PowRatio(i: nat)
    requires i >= 30
    ensures Pow(3, i) > 90_000 * Pow(2, i)
  {
    if i == 30 {
      assert Pow(3, 10) == 59049 && Pow(2, 10) == 1024;
      PowAdd(3, 10, 10);
      PowAdd(3, 20, 10);
      PowAdd(2, 10, 10);
      PowAdd(2, 20, 10);
    } else {
      PowRatio(i - 1);
    }
  }

  /** A range of more than ten entries lies less than 30 ranges up, for blocks of at most 900000 bytes. */
  lemma DepthBound(size: int, i: nat, n: nat)
    requires size >= 11 && n <= 900_000 && Shrunk(size, i, n)
    ensures i < 30
  {
    if i >= 30 {
      PowRatio(i);
      var p, q := Pow(3, i), Pow(2, i);
      MulOrder(n, 900_000, q);
      MulOrder(11, size, p);
    }
  }
}
