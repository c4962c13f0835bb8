// mainSimpleSort: a shell sort of a short stretch of pointers whose rotations begin alike.
module MainSimpleSort {
  import opened Permutations
  import opened Rotations
  import opened RotOrder
  import opened MainCompare
  import opened ThreeWay
  import opened FallbackQSort

  /** Every entry is a position in the block. */
  ghost predicate Positions(f: seq<int>, n: nat) {
    forall k {:trigger f[k]} | 0 <= k < |f| :: 0 <= f[k] < n
  }

  ghost predicate RotSorted(f: seq<int>, b: seq<byte>, lo: int, hi: int)
    requires b != []
  {
    forall x, y {:trigger f[x], f[y]} | 0 <= lo <= x < y <= hi < |f| :: Leq(b, f[x], f[y])
  }

  /** The rotations of lo..hi have their first d bytes in common. */
  ghost predicate Alike(f: seq<int>, b: seq<byte>, lo: int, hi: int, d: nat)
    requires b != []
  {
    forall x, y {:trigger f[x], f[y]} | 0 <= lo <= x <= hi < |f| && lo <= y <= hi :: Text(b, f[x], d) == Text(b, f[y], d)
  }

  lemma PositionsWithin(f: seq<int>, f': seq<int>, n: nat, lo: int, hi: int)
    requires Positions(f, n) && Within(f, f', lo, hi)
    ensures Positions(f', n)
  {
    RearrangedMultiset(f, f');
    forall k | 0 <= k < |f'| ensures 0 <= f'[k] < n {
      assert f'[k] in multiset(f');
      assert f'[k] in f;
    }
  }

  lemma AlikeWithin(f: seq<int>, f': seq<int>, b: seq<byte>, lo: nat, hi: int, d: nat)
    requires b != [] && Alike(f, b, lo, hi, d) && Within(f, f', lo, hi)
    ensures Alike(f', b, lo, hi, d)
  {
    forall x, y | lo <= x <= hi < |f| && lo <= y <= hi ensures Text(b, f'[x], d) == Text(b, f'[y], d) {
      var u := WithinOrigin(f, f', lo, hi, x);
      var v := WithinOrigin(f, f', lo, hi, y);
    }
  }

  // ----- one insertion

  /** Entry p is below those after it up to i, and the others from lo to i are sorted. */
  ghost predicate Sinking(g: seq<int>, b: seq<byte>, lo: int, i: int, p: int)
    requires b != []
  {
    0 <= lo <= p <= i < |g| &&
    (forall x, y {:trigger g[x], g[y]} | lo <= x < y <= i && x != p && y != p :: Leq(b, g[x], g[y])) &&
    forall y {:trigger g[y]} | p < y <= i :: Leq(b, g[p], g[y])
  }

  lemma SinkMoves(g: seq<int>, b: seq<byte>, lo: int, i: int, p: int)
    requires b != [] && Sinking(g, b, lo, i, p) && lo < p && Leq(b, g[p], g[p - 1])
    ensures Sinking(Swap(g, p - 1, p), b, lo, i, p - 1)
  {
    var q := p - 1;
    var g' := Swap(g, q, p);
    forall y | q < y <= i ensures Leq(b, g'[q], g'[y]) {
      if y == p { assert g'[y] == g[q]; }
    }
    forall x, y | lo <= x < y <= i && x != q && y != q ensures Leq(b, g'[x], g'[y]) {
      if x == p {
        assert g'[x] == g[q] && g'[y] == g[y];
      } else if y == p {
        assert g'[y] == g[q] && g'[x] == g[x];
      } else {
        assert g'[x] == g[x] && g'[y] == g[y];
      }
    }
  }

  lemma SinkEnds(g: seq<int>, b: seq<byte>, lo: int, i: int, p: int)
    requires b != [] && Sinking(g, b, lo, i, p) && (p == lo || Leq(b, g[p - 1], g[p]))
    ensures RotSorted(g, b, lo, i)
  {
    forall x, y | lo <= x < y <= i ensures Leq(b, g[x], g[y]) {
      if y == p && x < p - 1 {
        assert Leq(b, g[x], g[p - 1]);
        LeqTransitive(b, g[x], g[p - 1], g[p]);
      }
    }
  }

  /** What one insertion in steps of h keeps; g is the array with v put in the hole at p. */
  ghost predicate Amid(f: seq<int>, g: seq<int>, b: seq<byte>, h: nat, lo: int, i: int, hi: int, p: int)
    requires b != []
  {
    0 <= lo <= p <= i <= hi < |g| && Within(f, g, lo, hi) && (h == 1 && RotSorted(f, b, lo, i - 1) ==> Sinking(g, b, lo, i, p))
  }

  lemma AmidStep(f: seq<int>, g: seq<int>, b: seq<byte>, h: nat, lo: int, i: int, hi: int, p: int)
    requires b != [] && Amid(f, g, b, h, lo, i, hi, p) && 1 <= h && lo <= p - h && Leq(b, g[p], g[p - h])
    ensures Amid(f, Swap(g, p - h, p), b, h, lo, i, hi, p - h)
  {
    if h == 1 && RotSorted(f, b, lo, i - 1) { SinkMoves(g, b, lo, i, p); }
    SwapWithin(g, p - h, p, lo, hi);
    WithinTransitive(f, g, Swap(g, p - h, p), lo, hi);
  }

  lemma AmidEnd(f: seq<int>, g: seq<int>, b: seq<byte>, h: nat, lo: int, i: int, hi: int, p: int)
    requires b != [] && Amid(f, g, b, h, lo, i, hi, p) && 1 <= h && (p - h < lo || Leq(b, g[p - h], g[p]))
    ensures h == 1 && RotSorted(f, b, lo, i - 1) ==> RotSorted(g, b, lo, i)
  {
    if h == 1 && RotSorted(f, b, lo, i - 1) { SinkEnds(g, b, lo, i, p); }
  }

  /** Comparing d bytes on compares the rotations themselves when they begin alike. */
  lemma DecidedAlike(b: seq<byte>, x: int, y: int, d: nat, gt: bool)
    requires b != [] && Text(b, x, d) == Text(b, y, d) && Decided(b, x + d, y + d, gt)
    ensures if gt then Leq(b, y, x) else Leq(b, x, y)
  {
    LeqAfter(b, x, y, d);
    LeqAfter(b, y, x, d);
  }

  /** Entry i sinks in steps of h past entries that come after it. */
  method InsertDown(ptr: array<int>, block: array<int>, quadrant: array<int>, nblock: nat, h: nat, i: nat, lo: nat, hi: nat,
                    d: nat, budget0: int, ghost b: seq<byte>) returns (budget: int)
    requires ptr != block && ptr != quadrant && |b| == nblock && Extended(b, block[..]) && Quadrants(b, quadrant[..])
    requires 1 <= h && lo + h <= i <= hi < ptr.Length && d <= 15
    requires Positions(ptr[..], nblock) && Alike(ptr[..], b, lo, hi, d)
    modifies ptr
    ensures Within(old(ptr[..]), ptr[..], lo, hi) && budget <= budget0
    ensures h == 1 && old(RotSorted(ptr[..], b, lo, i - 1)) ==> RotSorted(ptr[..], b, lo, i)
  {
    hide Extended, Quadrants, Leq, Decided, RotSorted, Sinking, Within;
    budget := budget0;
    ghost var f, bl, qu := ptr[..], block[..], quadrant[..];
    var v := ptr[i];
    var j := i;
    ghost var g, cur := f, f;
    AmidStart(f, b, h, lo, i, hi);
    while true
      invariant lo <= j <= i && j - h >= lo && budget <= budget0 && block[..] == bl && quadrant[..] == qu
      invariant cur == ptr[..] && |cur| == |f| && g == cur[j := v] && Amid(f, g, b, h, lo, i, hi, j)
      invariant Positions(g, nblock) && Alike(g, b, lo, hi, d) && 0 <= v < nblock
      invariant cur[j - h] == g[j - h]
      decreases j
    {
      var gt;
      assert 0 <= g[j - h] < nblock && Text(b, g[j - h], d) == Text(b, g[j], d);
      gt, budget := MainGtU(ptr[j - h] + d, v + d, block, quadrant, nblock, budget, b);
      DecidedAlike(b, g[j - h], g[j], d, gt);
      if !gt { break; }
      AmidStep(f, g, b, h, lo, i, hi, j);
      AmidKeeps(f, Swap(g, j - h, j), b, h, lo, i, hi, j - h, nblock, d);
      HoleMoves(cur, j, j - h, v);
      SwapSymmetric(g, j - h, j);
      g, cur := Swap(g, j - h, j), cur[j := cur[j - h]];
      ptr[j] := ptr[j - h];
      j := j - h;
      if j <= lo + h - 1 { break; }
    }
    AmidEnd(f, g, b, h, lo, i, hi, j);
    ptr[j] := v;
    assert ptr[..] == g;
    AmidWithin(f, g, b, h, lo, i, hi, j);
  }

  lemma AmidStart(f: seq<int>, b: seq<byte>, h: nat, lo: int, i: int, hi: int)
    requires b != [] && 0 <= lo <= i <= hi < |f|
    ensures Amid(f, f, b, h, lo, i, hi, i)
  {
  }

  lemma AmidWithin(f: seq<int>, g: seq<int>, b: seq<byte>, h: nat, lo: int, i: int, hi: int, p: int)
    requires b != [] && Amid(f, g, b, h, lo, i, hi, p)
    ensures Within(f, g, lo, hi)
  {
  }

  lemma AmidKeeps(f: seq<int>, g: seq<int>, b: seq<byte>, h: nat, lo: nat, i: int, hi: int, p: int, n: nat, d: nat)
    requires b != [] && Amid(f, g, b, h, lo, i, hi, p) && Positions(f, n) && Alike(f, b, lo, hi, d)
    ensures Positions(g, n) && Alike(g, b, lo, hi, d)
  {
    PositionsWithin(f, g, n, lo, hi);
    AlikeWithin(f, g, b, lo, hi, d);
  }

  lemma SwapSymmetric(f: seq<int>, i: nat, j: nat)
    requires i < |f| && j < |f|
    ensures Swap(f, i, j) == Swap(f, j, i)
  {
  }

  // ----- the sort

  const INCS: seq<int> := [1, 4, 13, 40, 121, 364, 1093, 3280, 9841, 29524, 88573, 265720, 797161, 2391484]

  /** One pass in steps of h; the budget is looked at after every third insertion. */
  method Pass(ptr: array<int>, block: array<int>, quadrant: array<int>, nblock: nat, h: nat, lo: nat, hi: nat, d: nat,
              budget0: int, ghost b: seq<byte>) returns (budget: int, abandoned: bool)
    requires ptr != block && ptr != quadrant && |b| == nblock && Extended(b, block[..]) && Quadrants(b, quadrant[..])
    requires 1 <= h && lo <= hi < ptr.Length && d <= 15 && Positions(ptr[..], nblock) && Alike(ptr[..], b, lo, hi, d)
    modifies ptr
    ensures Within(old(ptr[..]), ptr[..], lo, hi) && budget <= budget0 && (abandoned ==> budget < 0)
    ensures h == 1 && !abandoned ==> RotSorted(ptr[..], b, lo, hi)
  {
    hide Quadrants, Leq, RotSorted, Within, Positions, Alike;
    budget, abandoned := budget0, false;
    ghost var f, bl, qu := ptr[..], block[..], quadrant[..];
    WithinSame(f, lo, hi);
    OneSorted(f, b, lo);
    var i := lo + h;
    while i <= hi
      invariant lo + h <= i && budget <= budget0 && block[..] == bl && quadrant[..] == qu
      invariant i <= hi + 1 || i == lo + h
      invariant Within(f, ptr[..], lo, hi) && Positions(ptr[..], nblock) && Alike(ptr[..], b, lo, hi, d)
      invariant h == 1 ==> RotSorted(ptr[..], b, lo, i - 1)
      decreases hi - i
    {
      ghost var i0 := i;
      var copy := 0;
      while copy < 3 && i <= hi
        invariant 0 <= copy <= 3 && lo + h <= i <= hi + 1 && budget <= budget0 && block[..] == bl && quadrant[..] == qu
        invariant Within(f, ptr[..], lo, hi) && Positions(ptr[..], nblock) && Alike(ptr[..], b, lo, hi, d)
        invariant h == 1 ==> RotSorted(ptr[..], b, lo, i - 1)
        invariant i == i0 + copy && (copy == 0 ==> i <= hi)
        decreases hi - i
      {
        ghost var g := ptr[..];
        budget := InsertDown(ptr, block, quadrant, nblock, h, i, lo, hi, d, budget, b);
        WithinTransitive(f, g, ptr[..], lo, hi);
        PositionsWithin(g, ptr[..], nblock, lo, hi);
        AlikeWithin(g, ptr[..], b, lo, hi, d);
        i := i + 1;
        copy := copy + 1;
      }
      if copy == 3 && budget < 0 { abandoned := true; return; }
    }
    if h == 1 { assert i == hi + 1; }
  }

  lemma OneSorted(f: seq<int>, b: seq<byte>, lo: int)
    requires b != []
    ensures RotSorted(f, b, lo, lo)
  {
  }

  method SimpleSort(ptr: array<int>, block: array<int>, quadrant: array<int>, nblock: nat, lo: nat, hi: int, d: nat,
                    budget0: int, ghost b: seq<byte>) returns (budget: int)
    requires ptr != block && ptr != quadrant && |b| == nblock && Extended(b, block[..]) && Quadrants(b, quadrant[..])
    requires lo <= hi + 1 <= ptr.Length <= 900_000 && d <= 15 && Positions(ptr[..], nblock) && Alike(ptr[..], b, lo, hi, d)
    modifies ptr
    ensures Within(old(ptr[..]), ptr[..], lo, hi) && budget <= budget0
    ensures budget >= 0 ==> RotSorted(ptr[..], b, lo, hi)
  {
    budget := budget0;
    ghost var f, bl, qu := ptr[..], block[..], quadrant[..];
    var bigN := hi - lo + 1;
    if bigN < 2 { return; }
    var hp := 0;
    while INCS[hp] < bigN
      invariant 0 <= hp <= 13
      decreases 13 - hp
    {
      hp := hp + 1;
    }
    assert hp > 0;
    hp := hp - 1;
    while hp >= 0
      invariant -1 <= hp <= 12 && budget <= budget0 && block[..] == bl && quadrant[..] == qu
      invariant Within(f, ptr[..], lo, hi) && Positions(ptr[..], nblock) && Alike(ptr[..], b, lo, hi, d)
      invariant hp == -1 ==> RotSorted(ptr[..], b, lo, hi)
    {
      ghost var g := ptr[..];
      var abandoned;
      budget, abandoned := Pass(ptr, block, quadrant, nblock, INCS[hp], lo, hi, d, budget, b);
      WithinTransitive(f, g, ptr[..], lo, hi);
      PositionsWithin(g, ptr[..], nblock, lo, hi);
      AlikeWithin(g, ptr[..], b, lo, hi, d);
      if abandoned { return; }
      hp := hp - 1;
    }
  }
}
