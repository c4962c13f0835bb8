// BZ2_hbMakeCodeLengths: build a Huffman tree with a heap, read off the depths, and rescale the
// frequencies until no code is too long.
module HuffmanLengths {
  import opened Bits
  import opened Permutations
  import opened ThreeWay
  import opened HuffmanHeap
  import opened HuffmanTree


  /** WEIGHTOF and DEPTHOF: a weight in the upper bits, a height in the low 8. */
  function Packed(wt: int, ht: int): int { 256 * wt + ht }

  /** ADDWEIGHTS. */
  function AddWeights(x: nat, y: nat): nat {
    Or(256 * (x / 256 + y / 256), 1 + Max(x % 256, y % 256))
  }

  lemma AddWeightsPacks(w1: nat, h1: nat, w2: nat, h2: nat)
    requires h1 < 255 && h2 < 255
    ensures AddWeights(Packed(w1, h1), Packed(w2, h2)) == Packed(w1 + w2, 1 + Max(h1, h2))
  {
    Unpack(w1, h1);
    Unpack(w2, h2);
    assert Pow2(8) == 256;
    OrDisjoint(w1 + w2, 1 + Max(h1, h2), 8);
  }

  lemma Unpack(w: nat, h: nat)
    requires h < 256
    ensures Packed(w, h) / 256 == w && Packed(w, h) % 256 == h
  {
  }

  lemma PackedOrder(w1: nat, h1: nat, w2: nat, h2: nat)
    requires h1 < 256 && h2 < 256 && Packed(w1, h1) <= Packed(w2, h2)
    ensures w1 <= w2
  {
  }

  lemma {:induction false} GrowMonotone(d: nat, e: nat)
    requires d <= e
    ensures Grow(d) <= Grow(e)
    decreases e
  {
    if d < e {
      GrowMonotone(d, e - 1);
      if e >= 2 { GrowPositive(e - 2); }
    }
  }

  /** A forest of total weight under 2^23 has no tree higher than 33. */
  lemma HeightBound(f: Forest, a: nat, total: int, v: int)
    requires Valid(f, a, total) && Root(f, v) && total < 0x80_0000
    ensures 0 <= f.ht[v] <= 33
  {
    RootAtMost(f, a, total, v);
    assert 0 <= f.ht[v] && Grow(f.ht[v]) <= f.wt[v];
    if f.ht[v] > 33 {
      GrowMonotone(34, f.ht[v]);
      GrowValues();
    }
  }

  lemma GrowValues()
    ensures Grow(13) == 610 && Grow(34) > 0x80_0000
  {
    assert Grow(8) == 55 && Grow(9) == 89;
    assert Grow(10) == 144 && Grow(11) == 233;
    assert Grow(12) == 377 && Grow(13) == 610;
    assert Grow(14) == 987 && Grow(15) == 1597;
    assert Grow(16) == 2584 && Grow(17) == 4181;
    assert Grow(18) == 6765 && Grow(19) == 10946;
    assert Grow(20) == 17711 && Grow(21) == 28657;
    assert Grow(22) == 46368 && Grow(23) == 75025;
    assert Grow(24) == 121393 && Grow(25) == 196418;
    assert Grow(26) == 317811 && Grow(27) == 514229;
    assert Grow(28) == 832040 && Grow(29) == 1346269;
    assert Grow(30) == 2178309 && Grow(31) == 3524578;
    assert Grow(32) == 5702887 && Grow(33) == 9227465;
    assert Grow(34) == Grow(33) + Grow(32);
  }

  ghost function Roots(f: Forest): set<int> {
    set v | 1 <= v < |f.p| && Root(f, v)
  }

  ghost function PackedWeights(f: Forest): (w: seq<int>)
    requires |f.wt| == |f.ht|
    ensures |w| == |f.wt|
  {
    seq(|f.wt|, v requires 0 <= v < |f.wt| => Packed(f.wt[v], f.ht[v]))
  }

  /** The arrays hold the forest and its roots are in the heap. */
  ghost predicate Stored(f: Forest, heap: seq<int>, weight: seq<int>, parent: seq<int>, nHeap: nat) {
    |f.p| == |f.wt| == |f.ht| <= |weight| && |f.p| <= |parent| &&
    weight[..|f.p|] == PackedWeights(f) && parent[..|f.p|] == f.p &&
    Ordered(heap, weight, nHeap) && Holds(heap, nHeap, Roots(f))
  }

  ghost function LeafSet(n: nat): (r: set<int>)
    ensures forall v :: v in r <==> 1 <= v <= n
  {
    if n == 0 then {} else LeafSet(n - 1) + {n}
  }

  /** Weights of the symbols, entry 0 being the sentinel's. */
  ghost predicate LeafWeights(wt: seq<int>, weight: seq<int>, alphaSize: nat) {
    |wt| == alphaSize + 1 <= |weight| && wt[0] == 0 &&
    forall v {:trigger wt[v]} {:trigger weight[v]} | 1 <= v <= alphaSize :: wt[v] >= 1 && weight[v] == Packed(wt[v], 0)
  }

  lemma NoneHeld(h: seq<int>, w: seq<int>)
    requires h != [] && w != [] && h[0] == 0 && w[0] == 0
    ensures Ordered(h, w, 0) && Holds(h, 0, {}) && LeafSet(0) == {}
  {
  }

  /** Puts the symbols on the heap one by one. */
  method FillHeap(heap: array<int>, weight: array<int>, parent: array<int>, alphaSize: nat)
    requires heap != weight && parent != weight && heap != parent
    requires 2 <= alphaSize < heap.Length && alphaSize < weight.Length && alphaSize < parent.Length
    requires heap[0] == 0 && weight[0] == 0 && forall v | 1 <= v <= alphaSize :: weight[v] >= 0
    modifies heap, parent
    ensures Ordered(heap[..], weight[..], alphaSize) && Holds(heap[..], alphaSize, LeafSet(alphaSize))
    ensures parent[0] == old(parent[0]) && forall v | 1 <= v <= alphaSize :: parent[v] == -1
  {
    hide Holds, Ordered;
    NoneHeld(heap[..], weight[..]);
    ghost var w, on := weight[..], LeafSet(0);
    for i := 1 to alphaSize + 1
      invariant weight[..] == w && Ordered(heap[..], w, i - 1)
      invariant on == LeafSet(i - 1) && Holds(heap[..], i - 1, on)
      invariant parent[0] == old(parent[0]) && forall v | 1 <= v < i :: parent[v] == -1
    {
      parent[i] := -1;
      Insert(heap, weight, i - 1, i, on);
      on := on + {i};
      assert on == LeafSet(i);
    }
  }

  lemma LeafRoots(wt: seq<int>)
    requires |wt| >= 1
    ensures Roots(Leaves(wt)) == LeafSet(|wt| - 1)
  {
    var f := Leaves(wt);
    forall v ensures v in Roots(f) <==> v in LeafSet(|wt| - 1) {
    }
  }

  lemma LeafArrays(wt: seq<int>, w: seq<int>, p: seq<int>, alphaSize: nat)
    requires alphaSize < |p| && LeafWeights(wt, w, alphaSize) && w[0] == 0
    requires p[0] == -2 && forall v | 1 <= v <= alphaSize :: p[v] == -1
    ensures w[..|wt|] == PackedWeights(Leaves(wt)) && p[..|wt|] == Leaves(wt).p
  {
  }

  /** The heap, weights and parents before any merge. */
  method LoadLeaves(heap: array<int>, weight: array<int>, parent: array<int>, alphaSize: nat, ghost wt: seq<int>)
    requires heap != weight && parent != weight && heap != parent
    requires 2 <= alphaSize < heap.Length && alphaSize < weight.Length && alphaSize < parent.Length
    requires LeafWeights(wt, weight[..], alphaSize)
    modifies heap, weight, parent
    ensures weight[..] == old(weight[..])[0 := 0]
    ensures Stored(Leaves(wt), heap[..], weight[..], parent[..], alphaSize)
  {
    ghost var w := weight[..][0 := 0];
    heap[0] := 0;
    weight[0] := 0;
    parent[0] := -2;
    assert weight[..] == w;
    assert forall v | 1 <= v <= alphaSize :: weight[v] == Packed(wt[v], 0) >= 0;
    FillHeap(heap, weight, parent, alphaSize);
    LeafRoots(wt);
    LeafArrays(wt, w, parent[..], alphaSize);
  }

  /** The heap does not look at weights of nodes it does not hold. */
  lemma OrderedFrame(h: seq<int>, w: seq<int>, n: nat, s: set<int>, u: nat, y: int)
    requires Ordered(h, w, n) && Holds(h, n, s) && 0 < u < |w| && u !in s
    ensures Ordered(h, w[u := y], n)
  {
    var w' := w[u := y];
    forall i | 1 <= i <= n ensures h[i] != u {
      HoldsEntry(h, n, s, i);
    }
    forall i | 2 <= i <= n ensures Above(h, w', n, i) {
      assert Above(h, w, n, i);
    }
  }

  /** The two nodes taken off the heap are two least roots. */
  ghost predicate TwoLeast(f: Forest, x: int, y: int) {
    |f.p| == |f.wt| && Root(f, x) && Root(f, y) && x != y && f.wt[x] <= f.wt[y] &&
    forall u {:trigger Root(f, u)} | Root(f, u) && u != x :: f.wt[y] <= f.wt[u]
  }

  lemma RootFacts(f: Forest, a: nat, total: int, w: seq<int>, u: int)
    requires Valid(f, a, total) && total < 0x80_0000 && |f.p| <= |w| && w[..|f.p|] == PackedWeights(f) && Root(f, u)
    ensures 0 <= f.wt[u] && 0 <= f.ht[u] <= 33 && w[u] == Packed(f.wt[u], f.ht[u])
  {
    HeightBound(f, a, total, u);
    GrowPositive(f.ht[u]);
    assert w[..|f.p|][u] == w[u];
  }

  lemma TakenLeast(f: Forest, a: nat, total: int, w: seq<int>, x: int, y: int)
    requires Valid(f, a, total) && total < 0x80_0000 && |f.p| <= |w| && w[..|f.p|] == PackedWeights(f)
    requires LeastOf(Roots(f), w, x) && LeastOf(Roots(f) - {x}, w, y)
    ensures TwoLeast(f, x, y)
    ensures 0 <= f.wt[x] && 0 <= f.ht[x] <= 33 && 0 <= f.wt[y] && 0 <= f.ht[y] <= 33
  {
    assert y in Roots(f);
    RootFacts(f, a, total, w, x);
    RootFacts(f, a, total, w, y);
    PackedOrder(f.wt[x], f.ht[x], f.wt[y], f.ht[y]);
    forall u | Root(f, u) && u != x ensures f.wt[y] <= f.wt[u] {
      assert u in Roots(f) - {x};
      RootFacts(f, a, total, w, u);
      PackedOrder(f.wt[y], f.ht[y], f.wt[u], f.ht[u]);
    }
  }

  lemma MergedRoots(f: Forest, a: nat, total: int, x: int, y: int)
    requires Valid(f, a, total) && Root(f, x) && Root(f, y) && x != y
    ensures Roots(Merge(f, x, y)) == Roots(f) - {x} - {y} + {|f.p|} && |f.p| !in Roots(f)
    ensures var g := Merge(f, x, y); |g.p| == |g.wt| == |g.ht| == |f.p| + 1 && Root(g, |f.p|)
  {
    MergeShape(f, a, x, y);
  }

  /** Takes the two lightest trees off the heap. */
  method TakeTwo(heap: array<int>, weight: array<int>, nHeap: nat, ghost f: Forest, ghost a: nat, ghost total: int)
      returns (n1: int, n2: int)
    requires heap != weight && 2 <= nHeap < heap.Length && |f.p| <= weight.Length
    requires Ordered(heap[..], weight[..], nHeap) && Holds(heap[..], nHeap, Roots(f))
    requires Valid(f, a, total) && total < 0x80_0000 && weight[..|f.p|] == PackedWeights(f)
    modifies heap
    ensures TwoLeast(f, n1, n2) && 0 <= f.wt[n1] && 0 <= f.ht[n1] <= 33 && 0 <= f.wt[n2] && 0 <= f.ht[n2] <= 33
    ensures Ordered(heap[..], weight[..], nHeap - 2) && Holds(heap[..], nHeap - 2, Roots(f) - {n1} - {n2})
  {
    n1 := ExtractMin(heap, weight, nHeap, Roots(f));
    n2 := ExtractMin(heap, weight, nHeap - 1, Roots(f) - {n1});
    TakenLeast(f, a, total, weight[..], n1, n2);
  }

  /** Writing the new node into the arrays. */
  lemma MergedArrays(f: Forest, a: nat, total: int, w: seq<int>, p: seq<int>, x: int, y: int)
    requires Valid(f, a, total) && TwoLeast(f, x, y) && |f.p| < |w| && |f.p| < |p|
    requires 0 <= f.wt[x] && 0 <= f.ht[x] <= 33 && 0 <= f.wt[y] && 0 <= f.ht[y] <= 33
    requires w[..|f.p|] == PackedWeights(f) && p[..|f.p|] == f.p
    ensures 0 <= w[x] && 0 <= w[y] && w[x] == Packed(f.wt[x], f.ht[x]) && w[y] == Packed(f.wt[y], f.ht[y])
    ensures var g, u := Merge(f, x, y), |f.p|;
      w[u := AddWeights(w[x], w[y])][..u + 1] == PackedWeights(g) && p[x := u][y := u][u := -1][..u + 1] == g.p
  {
    var g, u := Merge(f, x, y), |f.p|;
    assert w[..u][x] == w[x] && w[..u][y] == w[y];
    AddWeightsPacks(f.wt[x], f.ht[x], f.wt[y], f.ht[y]);
    var w', p' := w[u := AddWeights(w[x], w[y])], p[x := u][y := u][u := -1];
    forall v | 0 <= v <= u ensures w'[v] == PackedWeights(g)[v] && p'[v] == g.p[v] {
      if v < u { assert w[..u][v] == w[v] && p[..u][v] == p[v]; }
    }
    assert w'[..u + 1] == PackedWeights(g) && p'[..u + 1] == g.p;
  }

  /** One merge: the two lightest trees become the children of a new node. */
  method MergeTwo(heap: array<int>, weight: array<int>, parent: array<int>, nHeap: nat, nNodes: nat,
                  ghost f: Forest, ghost a: nat, ghost total: int)
      returns (ghost g: Forest)
    requires heap != weight && parent != weight && heap != parent && 2 <= nHeap < heap.Length
    requires nNodes + 1 < weight.Length && nNodes + 1 < parent.Length && |f.p| == nNodes + 1
    requires Stored(f, heap[..], weight[..], parent[..], nHeap) && Valid(f, a, total) && total < 0x80_0000
    modifies heap, weight, parent
    ensures |g.p| == nNodes + 2 && Stored(g, heap[..], weight[..], parent[..], nHeap - 1) && Valid(g, a, total)
    ensures Root(g, nNodes + 1) && weight[..nNodes + 1] == old(weight[..nNodes + 1])
  {
    hide Valid, Shape, Weighed, Roots, Packed, PackedWeights, AddWeights, Ordered, Holds, Merge;
    ghost var w, p := weight[..], parent[..];
    var n1, n2 := TakeTwo(heap, weight, nHeap, f, a, total);
    MergeKeeps(f, a, total, n1, n2);
    MergedRoots(f, a, total, n1, n2);
    MergedArrays(f, a, total, w, p, n1, n2);
    g := Merge(f, n1, n2);
    var u := nNodes + 1;
    ghost var w', p' := w[u := AddWeights(w[n1], w[n2])], p[n1 := u][n2 := u][u := -1];
    ghost var left := Roots(f) - {n1} - {n2};
    OrderedFrame(heap[..], w, nHeap - 2, left, u, w'[u]);
    parent[n1] := u;
    parent[n2] := u;
    weight[u] := AddWeights(weight[n1], weight[n2]);
    parent[u] := -1;
    assert weight[..] == w' && parent[..] == p';
    Insert(heap, weight, nHeap - 2, u, left);
    assert weight[..u] == w[..u];
  }

  /** Merges until one tree is left. */
  method BuildTree(heap: array<int>, weight: array<int>, parent: array<int>, alphaSize: nat, ghost wt: seq<int>)
      returns (ghost f: Forest)
    requires heap != weight && parent != weight && heap != parent
    requires 2 <= alphaSize < heap.Length && 2 * alphaSize <= weight.Length && 2 * alphaSize <= parent.Length
    requires LeafWeights(wt, weight[..], alphaSize) && Sum(wt) < 0x80_0000
    modifies heap, weight, parent
    ensures Valid(f, alphaSize, Sum(wt)) && Complete(f, alphaSize) && |f.p| == 2 * alphaSize
    ensures parent[..2 * alphaSize] == f.p && LeafWeights(wt, weight[..], alphaSize)
  {
    hide Stored, Valid, LeafWeights, Complete, Root, Sum, Leaves;
    WeightsOk(wt, weight[..], alphaSize);
    LoadLeaves(heap, weight, parent, alphaSize, wt);
    LeavesValid(wt);
    LeavesSize(wt);
    f := Leaves(wt);
    var nNodes, nHeap := alphaSize, alphaSize;
    while nHeap > 1
      invariant 1 <= nHeap <= alphaSize && nHeap + nNodes == 2 * alphaSize && |f.p| == nNodes + 1
      invariant Valid(f, alphaSize, Sum(wt)) && Stored(f, heap[..], weight[..], parent[..], nHeap)
      invariant nNodes > alphaSize ==> Root(f, nNodes)
      invariant LeafWeights(wt, weight[..], alphaSize)
    {
      ghost var w := weight[..];
      f := MergeTwo(heap, weight, parent, nHeap, nNodes, f, alphaSize, Sum(wt));
      LeafWeightsKept(wt, w, weight[..], alphaSize, nNodes + 1);
      nNodes := nNodes + 1;
      nHeap := nHeap - 1;
    }
    LastStored(f, heap[..], weight[..], parent[..], alphaSize, Sum(wt));
  }

  lemma WeightsOk(wt: seq<int>, w: seq<int>, a: nat)
    requires LeafWeights(wt, w, a) && a >= 1
    ensures |wt| == a + 1 && wt[0] == 0 && (forall v | 1 <= v < |wt| :: wt[v] >= 1) && LeafWeights(wt, w[0 := 0], a)
  {
  }

  lemma LeavesSize(wt: seq<int>)
    requires |wt| >= 1
    ensures |Leaves(wt).p| == |wt|
  {
  }

  lemma LeafWeightsKept(wt: seq<int>, w: seq<int>, w': seq<int>, a: nat, n: nat)
    requires LeafWeights(wt, w, a) && a < n <= |w| && n <= |w'| && w'[..n] == w[..n]
    ensures LeafWeights(wt, w', a)
  {
    forall v | 0 <= v < n ensures w'[v] == w[v] {
      assert w'[..n][v] == w[..n][v];
    }
  }

  lemma LastStored(f: Forest, heap: seq<int>, weight: seq<int>, parent: seq<int>, a: nat, total: int)
    requires Stored(f, heap, weight, parent, 1) && Valid(f, a, total) && Root(f, |f.p| - 1) && |f.p| == 2 * a
    ensures Complete(f, a) && |parent| >= 2 * a && parent[..2 * a] == f.p
  {
    OneRoot(f, heap, a);
  }

  lemma OneRoot(f: Forest, heap: seq<int>, a: nat)
    requires Shape(f, a) && Holds(heap, 1, Roots(f)) && Root(f, |f.p| - 1)
    ensures Complete(f, a)
  {
    forall v | Root(f, v) ensures v == |f.p| - 1 {
      assert v in Roots(f) && |f.p| - 1 in Roots(f);
      var i := HoldsIndex(heap, 1, Roots(f), v);
      var j := HoldsIndex(heap, 1, Roots(f), |f.p| - 1);
    }
  }

  /** Counts the steps from every leaf to the root. */
  method ReadDepths(len: array<int>, parent: array<int>, alphaSize: nat, maxLen: nat, ghost f: Forest) returns (tooLong: bool)
    requires len != parent && len.Length >= alphaSize && Complete(f, alphaSize) && |f.p| <= parent.Length
    requires parent[..|f.p|] == f.p
    modifies len
    ensures forall i | 0 <= i < alphaSize :: len[i] == Depth(f.p, i + 1)
    ensures tooLong ==> exists i :: 0 <= i < alphaSize && len[i] > maxLen
    ensures !tooLong ==> forall i | 0 <= i < alphaSize :: len[i] <= maxLen
  {
    tooLong := false;
    ghost var bad := 0;
    for i := 1 to alphaSize + 1
      invariant forall k | 0 <= k < i - 1 :: len[k] == Depth(f.p, k + 1)
      invariant if tooLong then 0 <= bad < i - 1 && len[bad] > maxLen else forall k | 0 <= k < i - 1 :: len[k] <= maxLen
    {
      var j := 0;
      var k := i;
      assert parent[..|f.p|][k] == parent[k];
      while parent[k] >= 0
        invariant 1 <= k < |f.p| && parent[k] == f.p[k] && j + Depth(f.p, k) == Depth(f.p, i)
        decreases |f.p| - k
      {
        k := parent[k];
        assert parent[..|f.p|][k] == parent[k];
        j := j + 1;
      }
      len[i - 1] := j;
      if j > maxLen { tooLong, bad := true, i - 1; }
    }
  }

  /** Halves the weights, keeping them positive. */
  method ScaleWeights(weight: array<int>, alphaSize: nat, ghost wt: seq<int>) returns (ghost wt': seq<int>)
    requires LeafWeights(wt, weight[..], alphaSize) && alphaSize < weight.Length
    modifies weight
    ensures LeafWeights(wt', weight[..], alphaSize)
    ensures |wt| == |wt'| == alphaSize + 1 && forall v | 1 <= v <= alphaSize :: wt'[v] == 1 + wt[v] / 2
  {
    wt' := wt;
    for i := 1 to alphaSize + 1
      invariant |wt'| == |wt| && wt'[0] == 0 && weight[0] == old(weight[0])
      invariant forall v | 1 <= v <= alphaSize :: wt'[v] == if v < i then 1 + wt[v] / 2 else wt[v]
      invariant forall v | 1 <= v <= alphaSize :: weight[v] == Packed(wt'[v], 0)
    {
      Unpack(wt[i], 0);
      var j := weight[i] / 256;
      j := 1 + j / 2;
      weight[i] := j * 256;
      wt' := wt'[i := j];
    }
  }

  /** Too long a code means some weight is at least 3, so halving makes progress. */
  lemma ScalingProgress(f: Forest, a: nat, wt: seq<int>, wt': seq<int>, v: int)
    requires |wt| == |wt'| == a + 1 && 2 <= a <= MAX_ALPHA_SIZE && wt[0] == wt'[0] == 0
    requires forall i {:trigger wt[i]} | 1 <= i <= a :: wt[i] >= 1
    requires forall i | 1 <= i <= a :: wt'[i] == 1 + wt[i] / 2
    requires Valid(f, a, Sum(wt)) && Complete(f, a) && 1 <= v <= a && Depth(f.p, v) > 12
    ensures Sum(wt') < Sum(wt)
  {
    HeavyEnough(f, a, Sum(wt), v);
    SumCompare(wt', wt);
    if wt' == wt {
      var cap := seq(a + 1, i => if i == 0 then 0 else 2);
      assert forall i | 1 <= i <= a :: wt[i] <= 2;
      SumCompare(wt, cap);
      SumTwos(a);
    }
  }

  lemma {:induction false} SumTwos(a: nat)
    ensures Sum(seq(a + 1, i => if i == 0 then 0 else 2)) == 2 * a
  {
    var s := seq(a + 1, i => if i == 0 then 0 else 2);
    if a == 0 {
      assert s[..0] == [];
    } else {
      SumTwos(a - 1);
      assert s[..a] == seq(a, i => if i == 0 then 0 else 2);
    }
  }

  lemma HeavyEnough(f: Forest, a: nat, total: int, v: int)
    requires Valid(f, a, total) && Complete(f, a) && 1 <= v <= a && Depth(f.p, v) > 12
    ensures total >= 610
  {
    var root := |f.p| - 1;
    assert Root(f, root);
    DepthPlusHeight(f, a, total, v);
    assert 0 <= f.ht[v];
    assert 0 <= f.ht[root] && Grow(f.ht[root]) <= f.wt[root];
    GrowMonotone(13, f.ht[root]);
    GrowValues();
    RootAtMost(f, a, total, root);
  }

  /** Starting weights: the frequencies, with 1 for symbols that do not occur. */
  function StartWeight(freq: int): int { if freq == 0 then 1 else freq }

  ghost function StartWeights(freq: seq<int>): (wt: seq<int>)
    ensures |wt| == |freq| + 1
  {
    [0] + seq(|freq|, i requires 0 <= i < |freq| => StartWeight(freq[i]))
  }

  method LoadWeights(weight: array<int>, freq: array<int>, alphaSize: nat)
    requires weight != freq && alphaSize < weight.Length && alphaSize <= freq.Length
    requires forall i | 0 <= i < alphaSize :: freq[i] >= 0
    modifies weight
    ensures LeafWeights(StartWeights(freq[..alphaSize]), weight[..], alphaSize)
  {
    for i := 0 to alphaSize
      invariant forall v | 1 <= v <= i :: weight[v] == Packed(StartWeight(freq[v - 1]), 0)
    {
      weight[i + 1] := (if freq[i] == 0 then 1 else freq[i]) * 256;
    }
  }

  /** BZ2_hbMakeCodeLengths: every length is in 1..maxLen and the codes fill the code space exactly. */
  method MakeCodeLengths(len: array<int>, freq: array<int>, alphaSize: nat, maxLen: nat)
    requires len != freq && len.Length >= alphaSize && freq.Length >= alphaSize
    requires 2 <= alphaSize <= MAX_ALPHA_SIZE && 12 <= maxLen <= 20
    requires forall i | 0 <= i < alphaSize :: freq[i] >= 0
    requires Sum(StartWeights(freq[..alphaSize])) < 0x80_0000
    modifies len
    ensures forall i | 0 <= i < alphaSize :: 1 <= len[i] <= maxLen
    ensures Kraft(len[..alphaSize], maxLen) == Pow2(maxLen)
  {
    hide LeafWeights, Sum, Complete, Valid, Kraft, Depth, StartWeights, Pow2;
    var heap := new int[MAX_ALPHA_SIZE + 2](_ => 0);
    var weight := new int[2 * MAX_ALPHA_SIZE](_ => 0);
    var parent := new int[2 * MAX_ALPHA_SIZE](_ => 0);
    ghost var wt := StartWeights(freq[..alphaSize]);
    LoadWeights(weight, freq, alphaSize);
    WeighsNatural(wt, weight[..], alphaSize);
    while true
      invariant LeafWeights(wt, weight[..], alphaSize) && 0 <= Sum(wt) < 0x80_0000
      decreases Sum(wt)
    {
      ghost var f := BuildTree(heap, weight, parent, alphaSize, wt);
      var tooLong := ReadDepths(len, parent, alphaSize, maxLen, f);
      if !tooLong {
        FinalLengths(f, alphaSize, maxLen, len[..alphaSize]);
        break;
      }
      ghost var w := weight[..];
      ghost var wt' := ScaleWeights(weight, alphaSize, wt);
      Rescaled(f, alphaSize, maxLen, wt, wt', w, weight[..], len[..alphaSize]);
      wt := wt';
    }
  }

  lemma WeighsNatural(wt: seq<int>, w: seq<int>, a: nat)
    requires LeafWeights(wt, w, a)
    ensures Sum(wt) >= 0
  {
    SumNatural(wt);
  }

  lemma Rescaled(f: Forest, a: nat, maxLen: nat, wt: seq<int>, wt': seq<int>, w: seq<int>, w': seq<int>, len: seq<int>)
    requires LeafWeights(wt, w, a) && LeafWeights(wt', w', a) && forall v | 1 <= v <= a :: wt'[v] == 1 + wt[v] / 2
    requires Valid(f, a, Sum(wt)) && Complete(f, a) && 2 <= a <= MAX_ALPHA_SIZE && maxLen >= 12 && |len| == a
    requires forall i | 0 <= i < a :: len[i] == Depth(f.p, i + 1)
    requires exists i :: 0 <= i < a && len[i] > maxLen
    ensures 0 <= Sum(wt') < Sum(wt)
  {
    hide Sum, Valid, Complete, Depth;
    var i :| 0 <= i < a && len[i] > maxLen;
    ScalingProgress(f, a, wt, wt', i + 1);
    WeighsNatural(wt', w', a);
  }

  lemma FinalLengths(f: Forest, a: nat, e: nat, len: seq<int>)
    requires Complete(f, a) && 2 <= a && |f.p| == 2 * a && |len| == a
    requires forall i | 0 <= i < a :: len[i] == Depth(f.p, i + 1) && len[i] <= e
    ensures Kraft(len, e) == Pow2(e) && forall i | 0 <= i < a :: 1 <= len[i]
  {
    forall i | 1 <= i <= a ensures Depth(f.p, i) <= e {
      assert len[i - 1] == Depth(f.p, i - 1 + 1);
    }
    forall v | 1 <= v < |f.p| ensures Depth(f.p, v) <= e {
      InnerDepth(f, a, e, v);
    }
    LeavesFill(f, a, e, len);
    forall i | 0 <= i < a ensures 1 <= len[i] {
      LeafDepthPositive(f, a, i + 1);
    }
  }
}
