// The forest that merging builds: two children to every inner node, weights that grow with height at
// least like Fibonacci numbers, and code lengths that fill the code space exactly.
module HuffmanTree {
  import opened Bits

  const MAX_ALPHA_SIZE := 258

  // ----- sums over sequences

  function Sum(x: seq<int>): int {
    if x == [] then 0 else Sum(x[..|x| - 1]) + x[|x| - 1]
  }

  lemma {:induction false} SumUpdate(x: seq<int>, i: nat, y: int)
    requires i < |x|
    ensures Sum(x[i := y]) == Sum(x) - x[i] + y
  {
    var last := |x| - 1;
    if i < last {
      SumUpdate(x[..last], i, y);
      assert x[i := y][..last] == x[..last][i := y];
    } else {
      assert x[i := y][..last] == x[..last];
    }
  }

  lemma SumSnoc(x: seq<int>, y: int)
    ensures Sum(x + [y]) == Sum(x) + y
  {
    assert (x + [y])[..|x|] == x;
  }

  lemma {:induction false} SumZero(x: seq<int>)
    requires forall i | 0 <= i < |x| :: x[i] == 0
    ensures Sum(x) == 0
  {
    if x != [] { SumZero(x[..|x| - 1]); }
  }

  lemma {:induction false} SumAtLeast(x: seq<int>, i: nat)
    requires i < |x| && forall k | 0 <= k < |x| :: x[k] >= 0
    ensures Sum(x) >= x[i]
  {
    var last := |x| - 1;
    SumNatural(x[..last]);
    if i < last { SumAtLeast(x[..last], i); }
  }

  lemma {:induction false} SumNatural(x: seq<int>)
    requires forall k | 0 <= k < |x| :: x[k] >= 0
    ensures Sum(x) >= 0
  {
    if x != [] { SumNatural(x[..|x| - 1]); }
  }

  lemma {:induction false} SumCompare(x: seq<int>, y: seq<int>)
    requires |x| == |y| && forall k | 0 <= k < |x| :: x[k] <= y[k]
    ensures Sum(x) <= Sum(y)
    ensures x != y ==> Sum(x) < Sum(y)
  {
    if x != [] {
      var last := |x| - 1;
      SumCompare(x[..last], y[..last]);
      assert x == x[..last] + [x[last]] && y == y[..last] + [y[last]];
    }
  }

  // ----- the forest

  /** Nodes run from 1; p is the parent or -1, wt the weight, ht the height, ka and kb the children of inner nodes. */
  datatype Forest = Forest(p: seq<int>, wt: seq<int>, ht: seq<int>, ka: seq<int>, kb: seq<int>)

  ghost predicate Root(f: Forest, v: int)
  {
    1 <= v < |f.p| && f.p[v] == -1
  }

  ghost predicate Upward(p: seq<int>) {
    forall v {:trigger p[v]} | 1 <= v < |p| :: p[v] == -1 || v < p[v] < |p|
  }

  /** Leaves are 1..a; every other node has exactly the two children ka and kb. */
  ghost predicate Shape(f: Forest, a: nat) {
    1 <= a < |f.p| == |f.wt| == |f.ht| == |f.ka| == |f.kb| && Upward(f.p) &&
    (forall v {:trigger f.p[v]} | 1 <= v < |f.p| && f.p[v] != -1 :: a < f.p[v] && (v == f.ka[f.p[v]] || v == f.kb[f.p[v]])) &&
    forall u {:trigger Inner(f, u)} | a < u < |f.p| :: Inner(f, u)
  }

  ghost predicate Inner(f: Forest, u: int)
    requires 0 <= u < |f.p| == |f.ka| == |f.kb|
  {
    1 <= f.ka[u] < u && 1 <= f.kb[u] < u && f.ka[u] != f.kb[u] && f.p[f.ka[u]] == u && f.p[f.kb[u]] == u
  }

  ghost predicate Weighed(f: Forest, a: nat)
    requires Shape(f, a)
  {
    (forall v {:trigger f.wt[v]} | 1 <= v <= a :: f.wt[v] >= 1 && f.ht[v] == 0) &&
    forall u {:trigger Joined(f, u)} | a < u < |f.p| :: Joined(f, u)
  }

  ghost predicate Joined(f: Forest, u: int)
    requires 0 <= u < |f.p| == |f.ka| == |f.kb| == |f.wt| == |f.ht|
  {
    0 <= f.ka[u] < |f.p| && 0 <= f.kb[u] < |f.p| &&
    f.wt[u] == f.wt[f.ka[u]] + f.wt[f.kb[u]] && f.ht[u] == 1 + Max(f.ht[f.ka[u]], f.ht[f.kb[u]])
  }

  function Max(x: int, y: int): int { if x > y then x else y }

  function Grow(d: nat): nat {
    if d < 2 then d + 1 else Grow(d - 1) + Grow(d - 2)
  }

  /** No node that has been merged outweighs one that has not, and a tree of height d weighs at least Grow(d). */
  ghost predicate Balanced(f: Forest, a: nat)
    requires Shape(f, a)
  {
    (forall v {:trigger f.ht[v]} | 1 <= v < |f.p| :: 0 <= f.ht[v] && Grow(f.ht[v]) <= f.wt[v]) &&
    forall v, u {:trigger f.p[v], Root(f, u)} | 1 <= v < |f.p| && f.p[v] != -1 && Root(f, u) :: f.wt[v] <= f.wt[u]
  }

  ghost function RootWeights(f: Forest): seq<int>
    requires |f.p| == |f.wt|
  {
    seq(|f.p|, v requires 0 <= v < |f.p| => if Root(f, v) then f.wt[v] else 0)
  }

  ghost predicate Valid(f: Forest, a: nat, total: int) {
    Shape(f, a) && Weighed(f, a) && Balanced(f, a) && Sum(RootWeights(f)) == total
  }

  /** A new node joins the roots x and y. */
  ghost function Merge(f: Forest, x: int, y: int): Forest
    requires |f.p| == |f.wt| == |f.ht| && Root(f, x) && Root(f, y)
  {
    var u := |f.p|;
    Forest(f.p[x := u][y := u] + [-1], f.wt + [f.wt[x] + f.wt[y]], f.ht + [1 + Max(f.ht[x], f.ht[y])],
           f.ka + [x], f.kb + [y])
  }

  lemma RootIs(f: Forest, v: int)
    requires Root(f, v)
    ensures 1 <= v < |f.p| && f.p[v] == -1
  {
  }

  lemma MergeRoot(f: Forest, x: int, y: int)
    requires |f.p| == |f.wt| == |f.ht| && Root(f, x) && Root(f, y) && x != y
    ensures forall v {:trigger Root(Merge(f, x, y), v)} :: Root(Merge(f, x, y), v) <==> v == |f.p| || (Root(f, v) && v != x && v != y)
  {
  }

  lemma MergeShape(f: Forest, a: nat, x: int, y: int)
    requires Shape(f, a) && Weighed(f, a) && Root(f, x) && Root(f, y) && x != y
    ensures Shape(Merge(f, x, y), a) && Weighed(Merge(f, x, y), a)
    ensures forall v {:trigger Root(Merge(f, x, y), v)} :: Root(Merge(f, x, y), v) <==> v == |f.p| || (Root(f, v) && v != x && v != y)
  {
    hide Root;
    MergeRoot(f, x, y);
    var g, u := Merge(f, x, y), |f.p|;
    assert 1 <= x < u && 1 <= y < u && f.p[x] == -1 && f.p[y] == -1 by { RootIs(f, x); RootIs(f, y); }
    forall w | a < w < |g.p| ensures Inner(g, w) && Joined(g, w) {
      if w < u { assert Inner(f, w) && Joined(f, w); }
    }
    forall v | 1 <= v <= a ensures g.wt[v] >= 1 && g.ht[v] == 0 {
      assert f.wt[v] >= 1;
    }
  }

  /** Merging two least roots keeps the forest balanced. */
  lemma MergeBalanced(f: Forest, a: nat, x: int, y: int)
    requires Shape(f, a) && Weighed(f, a) && Balanced(f, a) && Root(f, x) && Root(f, y) && x != y
    requires f.wt[x] <= f.wt[y] && forall u {:trigger Root(f, u)} | Root(f, u) && u != x :: f.wt[y] <= f.wt[u]
    ensures Shape(Merge(f, x, y), a) && Balanced(Merge(f, x, y), a)
  {
    MergeShape(f, a, x, y);
    var g, u := Merge(f, x, y), |f.p|;
    assert f.wt[x] >= 0 && f.wt[y] >= 0 by { assert f.ht[x] >= 0 && f.ht[y] >= 0; }
    NewNodeGrows(f, a, x, y);
    forall v, r | 1 <= v < |g.p| && g.p[v] != -1 && Root(g, r) ensures g.wt[v] <= g.wt[r] {
      assert v == x || v == y || f.p[v] != -1;
      if r < u {
        assert Root(f, r);
      } else {
        assert Root(f, x) && Root(f, y);
      }
    }
    forall v | 1 <= v < |g.p| ensures 0 <= g.ht[v] && Grow(g.ht[v]) <= g.wt[v] {
      if v < u { assert 0 <= f.ht[v] && Grow(f.ht[v]) <= f.wt[v]; }
    }
  }

  /** The new node's weight: its taller child, plus a child no lighter than the taller child's taller child. */
  lemma NewNodeGrows(f: Forest, a: nat, x: int, y: int)
    requires Shape(f, a) && Weighed(f, a) && Balanced(f, a) && Root(f, x) && Root(f, y) && x != y
    ensures 0 <= f.ht[x] && 0 <= f.ht[y] && Grow(1 + Max(f.ht[x], f.ht[y])) <= f.wt[x] + f.wt[y]
  {
    hide Upward;
    assert 0 <= f.ht[x] && Grow(f.ht[x]) <= f.wt[x];
    assert 0 <= f.ht[y] && Grow(f.ht[y]) <= f.wt[y];
    var tall, other := if f.ht[x] >= f.ht[y] then x else y, if f.ht[x] >= f.ht[y] then y else x;
    assert Grow(f.ht[other]) >= 1 by { GrowPositive(f.ht[other]); }
    if f.ht[tall] > 0 {
      assert tall > a by { assert f.wt[tall] >= 0; }
      assert Inner(f, tall) && Joined(f, tall);
      var kid := if f.ht[f.ka[tall]] >= f.ht[f.kb[tall]] then f.ka[tall] else f.kb[tall];
      assert f.ht[kid] == f.ht[tall] - 1 && Grow(f.ht[kid]) <= f.wt[kid];
      assert f.p[kid] != -1 && Root(f, other);
    }
  }

  lemma {:induction false} GrowPositive(d: nat)
    ensures Grow(d) >= 1
  {
    if d >= 2 { GrowPositive(d - 1); }
  }

  lemma MergeTotal(f: Forest, a: nat, x: int, y: int)
    requires Shape(f, a) && Root(f, x) && Root(f, y) && x != y
    ensures Sum(RootWeights(Merge(f, x, y))) == Sum(RootWeights(f))
  {
    var g, r := Merge(f, x, y), RootWeights(f);
    SumUpdate(r, x, 0);
    SumUpdate(r[x := 0], y, 0);
    SumSnoc(r[x := 0][y := 0], f.wt[x] + f.wt[y]);
    assert RootWeights(g) == r[x := 0][y := 0] + [f.wt[x] + f.wt[y]];
  }

  lemma MergeKeeps(f: Forest, a: nat, total: int, x: int, y: int)
    requires Valid(f, a, total) && Root(f, x) && Root(f, y) && x != y
    requires f.wt[x] <= f.wt[y] && forall u {:trigger Root(f, u)} | Root(f, u) && u != x :: f.wt[y] <= f.wt[u]
    ensures Valid(Merge(f, x, y), a, total)
  {
    MergeShape(f, a, x, y);
    MergeBalanced(f, a, x, y);
    MergeTotal(f, a, x, y);
  }

  /** No root outweighs the total. */
  lemma RootAtMost(f: Forest, a: nat, total: int, v: int)
    requires Valid(f, a, total) && Root(f, v)
    ensures f.wt[v] <= total
  {
    var r := RootWeights(f);
    forall k | 0 <= k < |r| ensures r[k] >= 0 {
      if Root(f, k) { assert 0 <= f.ht[k] && Grow(f.ht[k]) <= f.wt[k]; }
    }
    SumAtLeast(r, v);
  }

  /** Before any merge. */
  ghost function Leaves(wt: seq<int>): Forest
    requires |wt| >= 1
  {
    var n := |wt|;
    Forest(seq(n, i => if i == 0 then -2 else -1), wt, seq(n, _ => 0), seq(n, _ => 0), seq(n, _ => 0))
  }

  lemma LeavesValid(wt: seq<int>)
    requires |wt| >= 2 && wt[0] == 0 && forall v | 1 <= v < |wt| :: wt[v] >= 1
    ensures Valid(Leaves(wt), |wt| - 1, Sum(wt))
  {
    hide Sum, Shape, Weighed, Balanced, Leaves, RootWeights;
    LeavesShape(wt);
    LeavesRootWeights(wt);
  }

  lemma LeavesShape(wt: seq<int>)
    requires |wt| >= 2 && wt[0] == 0 && forall v | 1 <= v < |wt| :: wt[v] >= 1
    ensures var f, a := Leaves(wt), |wt| - 1; Shape(f, a) && Weighed(f, a) && Balanced(f, a)
  {
    hide Sum;
    var f := Leaves(wt);
    assert forall v | 1 <= v < |f.p| :: Grow(f.ht[v]) == 1 <= f.wt[v];
  }

  lemma LeavesRootWeights(wt: seq<int>)
    requires |wt| >= 2 && wt[0] == 0
    ensures var f := Leaves(wt); |f.p| == |f.wt| && RootWeights(f) == wt
  {
    hide Sum, Grow;
    var f := Leaves(wt);
    forall v | 0 <= v < |wt| ensures RootWeights(f)[v] == wt[v] {
      assert v >= 1 ==> Root(f, v);
    }
  }

  // ----- depths

  function Depth(p: seq<int>, v: int): nat
    requires Upward(p) && 1 <= v < |p|
    decreases |p| - v
  {
    if p[v] == -1 then 0 else 1 + Depth(p, p[v])
  }

  ghost predicate DepthAtMost(p: seq<int>, e: nat) {
    Upward(p) && forall v {:trigger Depth(p, v)} | 1 <= v < |p| :: Depth(p, v) <= e
  }

  /** One tree is left: node |p| - 1 is its root. */
  ghost predicate Complete(f: Forest, a: nat) {
    Shape(f, a) && forall v {:trigger Root(f, v)} :: Root(f, v) <==> v == |f.p| - 1
  }

  lemma {:induction false} DepthPlusHeight(f: Forest, a: nat, total: int, v: int)
    requires Valid(f, a, total) && Complete(f, a) && 1 <= v < |f.p|
    ensures Depth(f.p, v) + f.ht[v] <= f.ht[|f.p| - 1]
    decreases |f.p| - v
  {
    if f.p[v] != -1 {
      var u := f.p[v];
      DepthPlusHeight(f, a, total, u);
      assert Inner(f, u) && Joined(f, u);
    } else {
      assert Root(f, v);
    }
  }

  /** Leaves lie below the root as soon as there are two. */
  lemma LeafDepthPositive(f: Forest, a: nat, v: int)
    requires Complete(f, a) && 2 <= a && 1 <= v <= a && a < |f.p| - 1
    ensures Depth(f.p, v) >= 1
  {
    assert !Root(f, v);
  }

  // ----- the code space

  /** The share of the code space, in units of 2^-e, of a node on the frontier after node m. */
  ghost function Share(p: seq<int>, m: nat, e: nat, v: nat): int
    requires Upward(p) && v < |p|
  {
    if v >= 1 && (p[v] == -1 || p[v] > m) && Depth(p, v) <= e then Pow2(e - Depth(p, v)) else 0
  }

  ghost function Frontier(p: seq<int>, m: nat, e: nat): (x: seq<int>)
    requires Upward(p) && m < |p|
    ensures |x| == m + 1
  {
    seq(m + 1, v requires 0 <= v <= m => Share(p, m, e, v))
  }

  lemma KidsShare(f: Forest, a: nat, u: nat, e: nat)
    requires Shape(f, a) && a < u < |f.p| && DepthAtMost(f.p, e)
    ensures Inner(f, u) && Share(f.p, u, e, u) == Share(f.p, u - 1, e, f.ka[u]) + Share(f.p, u - 1, e, f.kb[u])
    ensures Share(f.p, u, e, f.ka[u]) == Share(f.p, u, e, f.kb[u]) == 0
  {
    assert Inner(f, u);
    var i, j, d := f.ka[u], f.kb[u], Depth(f.p, u);
    assert Depth(f.p, i) == d + 1 && Depth(f.p, j) == d + 1;
    assert Pow2(e - d) == 2 * Pow2(e - (d + 1));
  }

  lemma OthersShare(f: Forest, a: nat, u: nat, e: nat, v: nat)
    requires Shape(f, a) && a < u < |f.p| && v < u && v != f.ka[u] && v != f.kb[u]
    ensures Share(f.p, u, e, v) == Share(f.p, u - 1, e, v)
  {
    assert v >= 1 ==> f.p[v] != u;
  }

  /** Replacing a node by its two children keeps the sum of the shares. */
  lemma FrontierStep(f: Forest, a: nat, m: nat, e: nat)
    requires Shape(f, a) && a <= m && m + 1 < |f.p| && DepthAtMost(f.p, e)
    ensures Sum(Frontier(f.p, m, e)) == Sum(Frontier(f.p, m + 1, e))
  {
    var u, x := m + 1, Frontier(f.p, m, e);
    KidsShare(f, a, u, e);
    var i, j, s := f.ka[u], f.kb[u], Share(f.p, u, e, u);
    SumUpdate(x, i, 0);
    SumUpdate(x[i := 0], j, 0);
    SumSnoc(x[i := 0][j := 0], s);
    var y := Frontier(f.p, u, e);
    forall v | 0 <= v <= u ensures y[v] == (x[i := 0][j := 0] + [s])[v] {
      if v < u && v != i && v != j { OthersShare(f, a, u, e, v); }
    }
    assert y == x[i := 0][j := 0] + [s];
  }

  lemma {:induction false} FrontierConstant(f: Forest, a: nat, m: nat, e: nat)
    requires Complete(f, a) && a <= m < |f.p|
    requires DepthAtMost(f.p, e)
    ensures Sum(Frontier(f.p, m, e)) == Pow2(e)
    decreases |f.p| - m
  {
    if m + 1 < |f.p| {
      FrontierStep(f, a, m, e);
      FrontierConstant(f, a, m + 1, e);
    } else {
      var x := Frontier(f.p, m, e);
      forall v | 0 <= v < m ensures x[v] == 0 {
        assert v >= 1 ==> !Root(f, v);
      }
      assert Root(f, m);
      SumZero(x[..m]);
    }
  }

  /** What a code of length l takes of a code space of 2^e. */
  function Cell(l: int, e: nat): int {
    if 0 <= l <= e then Pow2(e - l) else 0
  }

  /** The part of a code space of 2^e that codes of these lengths take up. */
  function Kraft(len: seq<int>, e: nat): int {
    Sum(seq(|len|, i requires 0 <= i < |len| => Cell(len[i], e)))
  }

  lemma {:induction false} SumCons(x: int, s: seq<int>)
    ensures Sum([x] + s) == x + Sum(s)
  {
    if s == [] {
      assert [x][..0] == [];
    } else {
      SumCons(x, s[..|s| - 1]);
      assert ([x] + s)[..|s|] == [x] + s[..|s| - 1];
    }
  }

  /** The frontier after the leaves is the leaves. */
  lemma FrontierLeaves(p: seq<int>, a: nat, e: nat, len: seq<int>)
    requires Upward(p) && a < |p| && |len| == a
    requires forall i | 0 <= i < a :: len[i] == Depth(p, i + 1)
    requires forall v {:trigger p[v]} | 1 <= v <= a :: p[v] == -1 || p[v] > a
    ensures Frontier(p, a, e) == [0] + seq(|len|, i requires 0 <= i < |len| => Cell(len[i], e))
  {
    hide Depth, Pow2;
    forall v | 1 <= v <= a ensures Frontier(p, a, e)[v] == Cell(len[v - 1], e) {
      assert len[v - 1] == Depth(p, v - 1 + 1);
    }
  }

  /** Depths of the leaves of one tree fill the code space exactly. */
  lemma LeavesFill(f: Forest, a: nat, e: nat, len: seq<int>)
    requires Complete(f, a) && DepthAtMost(f.p, e) && |len| == a
    requires forall i | 0 <= i < a :: len[i] == Depth(f.p, i + 1)
    ensures Kraft(len, e) == Pow2(e)
  {
    hide Pow2, Depth, Cell, DepthAtMost, Complete, Frontier, Sum;
    CompleteSize(f, a);
    FrontierConstant(f, a, a, e);
    FrontierLeaves(f.p, a, e, len);
    SumCons(0, seq(|len|, i requires 0 <= i < |len| => Cell(len[i], e)));
  }

  lemma CompleteSize(f: Forest, a: nat)
    requires Complete(f, a)
    ensures a < |f.p| && Upward(f.p) && forall v {:trigger f.p[v]} | 1 <= v <= a :: f.p[v] == -1 || f.p[v] > a
  {
  }

  /** When no leaf is deeper than e, no node is. */
  lemma {:induction false} InnerDepth(f: Forest, a: nat, e: nat, v: int)
    requires Shape(f, a) && 1 <= v < |f.p|
    requires forall i {:trigger Depth(f.p, i)} | 1 <= i <= a :: Depth(f.p, i) <= e
    ensures Depth(f.p, v) <= e
    decreases v
  {
    if v > a {
      assert Inner(f, v);
      InnerDepth(f, a, e, f.ka[v]);
    }
  }
}
