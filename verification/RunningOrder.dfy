// The order in which the main sort takes the 256 big buckets: a shell sort by size, smallest first.
module RunningOrder {
  import opened Permutations
  import opened ThreeWay

  /** How many positions begin with byte c. */
  function BigFreq(ft: seq<int>, c: int): int
    requires |ft| == 65537 && 0 <= c < 256
  {
    ft[(c + 1) * 256] - ft[c * 256]
  }

  ghost predicate AllBytes(g: seq<int>) {
    |g| == 256 && IsPermutation(g)
  }

  /** Sizes do not descend up to place i. */
  ghost predicate Ascending(g: seq<int>, ft: seq<int>, i: int)
    requires |ft| == 65537 && AllBytes(g)
  {
    forall x, y {:trigger g[x], g[y]} | 0 <= x < y <= i && y < 256 :: BigFreq(ft, g[x]) <= BigFreq(ft, g[y])
  }

  /** Entry p is below those after it up to i, and the others are in order. */
  ghost predicate Sinks(g: seq<int>, ft: seq<int>, i: int, p: int)
    requires |ft| == 65537 && AllBytes(g)
  {
    0 <= p <= i < 256 &&
    (forall x, y {:trigger g[x], g[y]} | 0 <= x < y <= i && x != p && y != p :: BigFreq(ft, g[x]) <= BigFreq(ft, g[y])) &&
    forall y {:trigger g[y]} | p < y <= i :: BigFreq(ft, g[p]) <= BigFreq(ft, g[y])
  }

  lemma SwapBytes(g: seq<int>, i: nat, j: nat)
    requires AllBytes(g) && i < 256 && j < 256
    ensures AllBytes(Swap(g, i, j))
  {
    assert multiset(Swap(g, i, j)) == multiset(g);
    SameElementsPermutation(g, Swap(g, i, j));
  }

  lemma SinksOn(g: seq<int>, ft: seq<int>, i: int, p: int)
    requires |ft| == 65537 && AllBytes(g) && Sinks(g, ft, i, p) && p > 0 && BigFreq(ft, g[p - 1]) > BigFreq(ft, g[p])
    ensures AllBytes(Swap(g, p - 1, p)) && Sinks(Swap(g, p - 1, p), ft, i, p - 1)
  {
    var q := p - 1;
    SwapBytes(g, q, p);
    hide BigFreq, AllBytes;
    var g' := Swap(g, q, p);
    forall y | q < y <= i ensures BigFreq(ft, g'[q]) <= BigFreq(ft, g'[y]) {
      if y == p { assert g'[y] == g[q]; }
    }
    forall x, y | 0 <= x < y <= i && x != q && y != q ensures BigFreq(ft, g'[x]) <= BigFreq(ft, g'[y]) {
      assert g'[x] == g[if x == p then q else x] && g'[y] == g[if y == p then q else y];
    }
  }

  lemma SinksEnd(g: seq<int>, ft: seq<int>, i: int, p: int)
    requires |ft| == 65537 && AllBytes(g) && Sinks(g, ft, i, p) && (p == 0 || BigFreq(ft, g[p - 1]) <= BigFreq(ft, g[p]))
    ensures Ascending(g, ft, i)
  {
    hide BigFreq;
    forall x, y | 0 <= x < y <= i ensures BigFreq(ft, g[x]) <= BigFreq(ft, g[y]) {
      if y == p && x < p - 1 {
        assert BigFreq(ft, g[x]) <= BigFreq(ft, g[p - 1]);
      }
    }
  }

  /** Insert entry i into those before it, in steps of h. */
  method Insert(order: array<int>, ftab: array<int>, h: nat, i: nat)
    requires order != ftab && order.Length == 256 && ftab.Length == 65537 && 1 <= h <= i < 256 && AllBytes(order[..])
    modifies order
    ensures AllBytes(order[..])
    ensures h == 1 && Ascending(old(order[..]), ftab[..], i - 1) ==> Ascending(order[..], ftab[..], i)
  {
    hide AllBytes, BigFreq;
    ghost var ft, g := ftab[..], order[..];
    ghost var falls := h == 1 && Ascending(g, ft, i - 1);
    var vv := order[i];
    var j := i;
    BytesRange(g);
    assert g[j := vv] == g;
    while FreqAt(ftab, order[j - h]) > FreqAt(ftab, vv)
      invariant h <= j <= i && AllBytes(g) && g == order[..][j := vv] && 0 <= vv < 256 && 0 <= order[j - h] < 256
      invariant falls ==> Sinks(g, ft, i, j)
      decreases j
    {
      BytesRange(g);
      SwapBytes(g, j - h, j);
      if falls { SinksOn(g, ft, i, j); }
      g := Swap(g, j - h, j);
      order[j] := order[j - h];
      j := j - h;
      assert g == order[..][j := vv];
      BytesRange(g);
      if j <= h - 1 { break; }
      assert order[j - h] == g[j - h];
    }
    if falls { SinksEnd(g, ft, i, j); }
    order[j] := vv;
    assert order[..] == g;
  }

  lemma BytesRange(g: seq<int>)
    requires AllBytes(g)
    ensures |g| == 256 && forall k {:trigger g[k]} | 0 <= k < 256 :: 0 <= g[k] < 256
  {
  }

  function FreqAt(ftab: array<int>, c: int): (n: int)
    requires ftab.Length == 65537 && 0 <= c < 256
    reads ftab
    ensures n == BigFreq(ftab[..], c)
  {
    ftab[(c + 1) * 256] - ftab[c * 256]
  }

  /** The big buckets, smallest first. */
  method Order(ftab: array<int>) returns (order: array<int>)
    requires ftab.Length == 65537
    ensures fresh(order) && AllBytes(order[..]) && Ascending(order[..], ftab[..], 255)
  {
    hide Ascending;
    order := new int[256];
    for i := 0 to 256
      invariant forall k {:trigger order[k]} | 0 <= k < i :: order[k] == k
    {
      order[i] := i;
    }
    var h := 1;
    h := 3 * h + 1;
    while h <= 256
      invariant h in {4, 13, 40, 121, 364}
      decreases 364 - h
    {
      h := 3 * h + 1;
    }
    while true
      invariant AllBytes(order[..]) && h in {4, 13, 40, 121, 364}
      decreases h
    {
      h := h / 3;
      AscendingOne(order[..], ftab[..]);
      for i := h to 256
        invariant AllBytes(order[..]) && (h == 1 ==> Ascending(order[..], ftab[..], i - 1))
      {
        Insert(order, ftab, h, i);
      }
      if h == 1 { break; }
    }
  }

  lemma AscendingOne(g: seq<int>, ft: seq<int>)
    requires |ft| == 65537 && AllBytes(g)
    ensures Ascending(g, ft, 0)
  {
  }
}
