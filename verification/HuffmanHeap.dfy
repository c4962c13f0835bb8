// The priority heap of BZ2_hbMakeCodeLengths: entries run from 1, entry 0 is a sentinel of weight 0.
module HuffmanHeap {
  import opened Permutations
  import opened ThreeWay

  /** Entries 1..n index the weights. */
  ghost predicate Indexed(h: seq<int>, w: seq<int>, n: nat) {
    n < |h| && |w| > 0 && h[0] == 0 && w[0] == 0 &&
    forall i {:trigger h[i]} | 1 <= i <= n :: 0 <= h[i] < |w| && w[h[i]] >= 0
  }

  ghost predicate Above(h: seq<int>, w: seq<int>, n: nat, i: nat)
    requires Indexed(h, w, n) && 2 <= i <= n
  {
    w[h[i / 2]] <= w[h[i]]
  }

  ghost predicate Ordered(h: seq<int>, w: seq<int>, n: nat) {
    Indexed(h, w, n) && forall i {:trigger Above(h, w, n, i)} | 2 <= i <= n :: Above(h, w, n, i)
  }

  /** Ordered but for entry z, whose children still respect its parent. */
  ghost predicate OrderedExceptUp(h: seq<int>, w: seq<int>, n: nat, z: nat) {
    Indexed(h, w, n) && 1 <= z <= n &&
    (forall i {:trigger Above(h, w, n, i)} | 2 <= i <= n && i != z :: Above(h, w, n, i)) &&
    forall i {:trigger h[i]} | 2 <= i <= n && i / 2 == z && z >= 2 :: w[h[z / 2]] <= w[h[i]]
  }

  /** Ordered but between entry z and its children, which still respect z's parent. */
  ghost predicate OrderedExceptDown(h: seq<int>, w: seq<int>, n: nat, z: nat) {
    Indexed(h, w, n) && 1 <= z &&
    (forall i {:trigger Above(h, w, n, i)} | 2 <= i <= n && i / 2 != z :: Above(h, w, n, i)) &&
    forall i {:trigger h[i]} | 2 <= i <= n && i / 2 == z && z >= 2 :: w[h[z / 2]] <= w[h[i]]
  }

  lemma UpStep(h: seq<int>, w: seq<int>, n: nat, z: nat)
    requires OrderedExceptUp(h, w, n, z) && z >= 2 && w[h[z]] < w[h[z / 2]]
    ensures OrderedExceptUp(Swap(h, z, z / 2), w, n, z / 2)
  {
    var g, p := Swap(h, z, z / 2), z / 2;
    forall i | 2 <= i <= n && i != p ensures Above(g, w, n, i) {
      if i == z {
      } else if i / 2 == z {
        assert w[h[p]] <= w[h[i]];
      } else if i / 2 == p {
        assert Above(h, w, n, i);
      } else {
        assert Above(h, w, n, i);
      }
    }
    forall i | 2 <= i <= n && i / 2 == p && p >= 2 ensures w[g[p / 2]] <= w[g[i]] {
      assert Above(h, w, n, p);
      if i != z {
        assert Above(h, w, n, i);
      }
    }
  }

  lemma DownStep(h: seq<int>, w: seq<int>, n: nat, z: nat, y: nat)
    requires OrderedExceptDown(h, w, n, z) && y / 2 == z && 2 <= y <= n && w[h[y]] <= w[h[z]]
    requires forall i | 2 <= i <= n && i / 2 == z :: w[h[y]] <= w[h[i]]
    ensures OrderedExceptDown(Swap(h, z, y), w, n, y)
  {
    var g := Swap(h, z, y);
    forall i | 2 <= i <= n && i / 2 != y ensures Above(g, w, n, i) {
      if i == z {
        assert w[h[z / 2]] <= w[h[y]];
      } else if i / 2 == z {
        assert i == y || g[i] == h[i];
      } else {
        assert Above(h, w, n, i);
        assert i != y && i / 2 != y;
      }
    }
    forall i | 2 <= i <= n && i / 2 == y ensures w[g[y / 2]] <= w[g[i]] {
      assert Above(h, w, n, i);
    }
  }

  /** The root carries the least weight. */
  lemma {:induction false} RootLeast(h: seq<int>, w: seq<int>, n: nat, i: nat)
    requires Ordered(h, w, n) && 1 <= i <= n
    ensures w[h[1]] <= w[h[i]]
  {
    if i > 1 {
      assert Above(h, w, n, i);
      RootLeast(h, w, n, i / 2);
    }
  }

  /** UPHEAP(n): the new last entry rises to its place. */
  method UpHeap(heap: array<int>, weight: array<int>, n: nat)
    requires heap != weight && 1 <= n && OrderedExceptUp(heap[..], weight[..], n, n)
    modifies heap
    ensures Ordered(heap[..], weight[..], n) && Within(old(heap[..]), heap[..], 1, n)
  {
    ghost var h0, w := heap[..], weight[..];
    var zz := n;
    var tmp := heap[zz];
    ghost var g, cur := h0, h0;
    while weight[tmp] < weight[heap[zz / 2]]
      invariant 1 <= zz <= n && cur == heap[..] && |cur| == |h0| && g == cur[zz := tmp] && weight[..] == w
      invariant OrderedExceptUp(g, w, n, zz) && Within(h0, g, 1, n)
      invariant cur[zz / 2] == g[zz / 2] && g[zz] == tmp && 0 <= g[zz / 2] < |w|
      decreases zz
    {
      UpStep(g, w, n, zz);
      SwapWithin(g, zz, zz / 2, 1, n);
      WithinTransitive(h0, g, Swap(g, zz, zz / 2), 1, n);
      HoleMoves(cur, zz, zz / 2, tmp);
      g, cur := Swap(g, zz, zz / 2), cur[zz := cur[zz / 2]];
      heap[zz] := heap[zz / 2];
      zz := zz / 2;
    }
    heap[zz] := tmp;
    assert heap[..] == g;
    forall i | 2 <= i <= n ensures Above(g, w, n, i) {
    }
  }

  /** DOWNHEAP(1): the entry put at the root sinks to its place. */
  method DownHeap(heap: array<int>, weight: array<int>, n: nat)
    requires heap != weight && heap.Length > 1 && OrderedExceptDown(heap[..], weight[..], n, 1)
    requires 0 <= heap[1] < weight.Length
    modifies heap
    ensures Ordered(heap[..], weight[..], n) && Within(old(heap[..]), heap[..], 1, n)
  {
    ghost var h0, w := heap[..], weight[..];
    var zz := 1;
    var tmp := heap[zz];
    ghost var g, cur := h0, h0;
    while true
      invariant 1 <= zz && (zz <= n || zz == 1) && cur == heap[..] && |cur| == |h0| && weight[..] == w
      invariant g == cur[zz := tmp] && OrderedExceptDown(g, w, n, zz) && Within(h0, g, 1, n)
      decreases n - zz
    {
      var yy := 2 * zz;
      if yy > n { break; }
      assert cur[yy] == g[yy] && (yy < n ==> cur[yy + 1] == g[yy + 1]);
      if yy < n && weight[heap[yy + 1]] < weight[heap[yy]] {
        yy := yy + 1;
      }
      assert forall i | 2 <= i <= n && i / 2 == zz :: i == 2 * zz || i == 2 * zz + 1;
      if weight[tmp] < weight[heap[yy]] { break; }
      DownStep(g, w, n, zz, yy);
      SwapWithin(g, zz, yy, 1, n);
      WithinTransitive(h0, g, Swap(g, zz, yy), 1, n);
      HoleMoves(cur, zz, yy, tmp);
      g, cur := Swap(g, zz, yy), cur[zz := cur[yy]];
      heap[zz] := heap[yy];
      zz := yy;
    }
    heap[zz] := tmp;
    assert heap[..] == g;
    assert forall i | 2 <= i <= n && i / 2 == zz :: i == 2 * zz || i == 2 * zz + 1;
    forall i | 2 <= i <= n ensures Above(g, w, n, i) {
    }
  }

  ghost function InHeap(h: seq<int>, n: nat, v: int): nat
    requires n < |h|
  {
    multiset(h[1..n + 1])[v]
  }

  /** Entries 1..n are the nodes of s, each once. */
  ghost predicate Holds(h: seq<int>, n: nat, s: set<int>) {
    n < |h| && forall v {:trigger InHeap(h, n, v)} :: InHeap(h, n, v) == if v in s then 1 else 0
  }

  lemma HoldsEntry(h: seq<int>, n: nat, s: set<int>, i: nat)
    requires Holds(h, n, s) && 1 <= i <= n
    ensures h[i] in s
  {
    assert h[1..n + 1][i - 1] == h[i];
    assert h[i] in h[1..n + 1];
    assert InHeap(h, n, h[i]) >= 1;
  }

  lemma HoldsIndex(h: seq<int>, n: nat, s: set<int>, v: int) returns (i: nat)
    requires Holds(h, n, s) && v in s
    ensures 1 <= i <= n && h[i] == v
  {
    assert InHeap(h, n, v) == 1;
    assert v in h[1..n + 1];
    var k :| 0 <= k < n && h[1..n + 1][k] == v;
    i := k + 1;
  }

  lemma HoldsWithin(h: seq<int>, h': seq<int>, n: nat, s: set<int>)
    requires Holds(h, n, s) && Within(h, h', 1, n)
    ensures Holds(h', n, s)
  {
    WithinSlice(h, h', 1, n);
    forall v ensures InHeap(h', n, v) == if v in s then 1 else 0 {
      assert InHeap(h, n, v) == if v in s then 1 else 0;
    }
  }

  ghost predicate LeastOf(s: set<int>, w: seq<int>, least: int) {
    least in s && 0 <= least < |w| && forall v {:trigger v in s} | v in s :: 0 <= v < |w| && w[least] <= w[v]
  }

  lemma RootIsLeast(h: seq<int>, w: seq<int>, n: nat, s: set<int>)
    requires 1 <= n && Ordered(h, w, n) && Holds(h, n, s)
    ensures LeastOf(s, w, h[1])
  {
    HoldsEntry(h, n, s, 1);
    forall v | v in s ensures 0 <= v < |w| && w[h[1]] <= w[v] {
      var i := HoldsIndex(h, n, s, v);
      RootLeast(h, w, n, i);
    }
  }

  /** Without its root the heap holds the other nodes. */
  lemma RootTakenOff(h: seq<int>, n: nat, s: set<int>)
    requires 1 <= n && Holds(h, n, s)
    ensures Holds(h[1 := h[n]], n - 1, s - {h[1]})
  {
    var h', m := h[1 := h[n]], n - 1;
    var old_, new_ := h[1..n + 1], h'[1..m + 1];
    if n == 1 {
      assert old_ == [h[1]] && new_ == [];
    } else {
      assert old_ == [h[1]] + h[2..n] + [h[n]];
      assert new_ == [h[n]] + h[2..n];
    }
    assert multiset(old_) == multiset(new_) + multiset{h[1]};
    forall v ensures InHeap(h', m, v) == if v in s - {h[1]} then 1 else 0 {
      assert InHeap(h, n, v) == InHeap(h', m, v) + multiset{h[1]}[v];
    }
  }

  /** Moving the last entry to the root leaves only the root out of order. */
  lemma ReadyToSink(h: seq<int>, w: seq<int>, n: nat, s: set<int>)
    requires 1 <= n && Ordered(h, w, n) && Holds(h, n, s)
    ensures OrderedExceptDown(h[1 := h[n]], w, n - 1, 1) && Holds(h[1 := h[n]], n - 1, s - {h[1]})
  {
    hide Holds, InHeap;
    RootTakenOff(h, n, s);
    var h', m := h[1 := h[n]], n - 1;
    forall i | 2 <= i <= m && i / 2 != 1 ensures Indexed(h', w, m) && Above(h', w, m, i) {
      assert Above(h, w, n, i);
    }
  }

  lemma ReadyToRise(h: seq<int>, w: seq<int>, n: nat, s: set<int>, node: nat)
    requires n + 1 < |h| && Ordered(h, w, n) && Holds(h, n, s) && node < |w| && w[node] >= 0 && node !in s
    ensures OrderedExceptUp(h[n + 1 := node], w, n + 1, n + 1) && Holds(h[n + 1 := node], n + 1, s + {node})
  {
    var m := n + 1;
    var h' := h[m := node];
    assert h'[1..m + 1] == h[1..m] + [node];
    forall i | 2 <= i <= m && i != m ensures Indexed(h', w, m) && Above(h', w, m, i) {
      assert Above(h, w, n, i);
    }
    forall v ensures InHeap(h', m, v) == if v in s + {node} then 1 else 0 {
      assert InHeap(h', m, v) == InHeap(h, n, v) + multiset{node as int}[v];
    }
  }

  /** Takes a node of least weight off the heap. */
  method ExtractMin(heap: array<int>, weight: array<int>, n: nat, ghost s: set<int>) returns (least: int)
    requires heap != weight && n >= 1 && Ordered(heap[..], weight[..], n) && Holds(heap[..], n, s)
    modifies heap
    ensures LeastOf(s, weight[..], least)
    ensures Ordered(heap[..], weight[..], n - 1) && Holds(heap[..], n - 1, s - {least})
  {
    ghost var h0, w := heap[..], weight[..];
    ReadyToSink(h0, w, n, s);
    RootIsLeast(h0, w, n, s);
    least := heap[1];
    heap[1] := heap[n];
    ghost var h1 := h0[1 := h0[n]];
    assert heap[..] == h1;
    DownHeap(heap, weight, n - 1);
    HoldsWithin(h1, heap[..], n - 1, s - {least});
  }

  /** Puts a node on the heap. */
  method Insert(heap: array<int>, weight: array<int>, n: nat, node: nat, ghost s: set<int>)
    requires heap != weight && n + 1 < heap.Length && Ordered(heap[..], weight[..], n) && Holds(heap[..], n, s)
    requires node < weight.Length && weight[node] >= 0 && node !in s
    modifies heap
    ensures Ordered(heap[..], weight[..], n + 1) && Holds(heap[..], n + 1, s + {node})
  {
    ghost var h0, w := heap[..], weight[..];
    ReadyToRise(h0, w, n, s, node);
    heap[n + 1] := node;
    ghost var h1 := h0[n + 1 := node];
    assert heap[..] == h1;
    UpHeap(heap, weight, n + 1);
    HoldsWithin(h1, heap[..], n + 1, s + {node});
  }
}
