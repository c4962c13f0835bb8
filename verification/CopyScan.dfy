// The copy step of the main sort: once the rotations that begin with byte ss are sorted, except for those that begin
// with ss twice, stepping back one byte from each of them lists every bucket [t, ss] in sorted order. The scan runs
// from both ends of the big bucket [ss] and fills the bucket [ss, ss] for itself as it goes.
module CopyScan {
  import opened Permutations
  import opened Rotations
  import opened Radix
  import opened RotOrder
  import opened MainSimpleSort
  import opened SmallBuckets

  // ----- stepping back one byte

  function Before(x: int, n: nat): int { if x == 0 then n - 1 else x - 1 }

  function After(x: int, n: nat): int { if x == n - 1 then 0 else x + 1 }

  /** The positions before those of xs, where they hold byte t. */
  ghost function Preds(b: seq<byte>, xs: seq<int>, t: int): seq<int>
    requires b != []
  {
    if xs == [] then [] else
    Preds(b, xs[..|xs| - 1], t) + Pred(b, xs[|xs| - 1], t)
  }

  ghost function Pred(b: seq<byte>, x: int, t: int): seq<int>
    requires b != []
  {
    if Rot(b, Before(x, |b|), 0) == t then [Before(x, |b|)] else []
  }

  lemma PredsSnoc(b: seq<byte>, xs: seq<int>, x: int, t: int)
    requires b != []
    ensures Preds(b, xs + [x], t) == Preds(b, xs, t) + Pred(b, x, t)
  {
    assert (xs + [x])[..|xs|] == xs;
  }

  lemma AppendSnoc(b: seq<byte>, xs: seq<int>, m: seq<int>, y: int, t: int)
    requires b != [] && Preds(b, xs + m, t) == Preds(b, xs, t) + Preds(b, m, t)
    ensures Preds(b, (xs + m) + [y], t) == Preds(b, xs, t) + Preds(b, m + [y], t)
  {
    hide Preds, Pred;
    PredsSnoc(b, xs + m, y, t);
    PredsSnoc(b, m, y, t);
  }

  lemma PredsNone(b: seq<byte>, t: int)
    requires b != []
    ensures Preds(b, [], t) == []
  {
  }

  lemma {:induction false} PredsAppend(b: seq<byte>, xs: seq<int>, ys: seq<int>, t: int)
    requires b != []
    ensures Preds(b, xs + ys, t) == Preds(b, xs, t) + Preds(b, ys, t)
    decreases |ys|
  {
    hide Preds, Pred;
    if ys == [] {
      PredsNone(b, t);
      Nothing(xs);
      Nothing(Preds(b, xs, t));
    } else {
      var m, y := ys[..|ys| - 1], ys[|ys| - 1];
      PredsAppend(b, xs, m, t);
      assert ys == m + [y];
      Assoc(xs, m, [y]);
      AppendSnoc(b, xs, m, y, t);
    }
  }

  lemma PredsCons(b: seq<byte>, x: int, xs: seq<int>, t: int)
    requires b != []
    ensures Preds(b, [x] + xs, t) == Pred(b, x, t) + Preds(b, xs, t)
  {
    PredsAppend(b, [x], xs, t);
    assert [x] == [] + [x];
    PredsSnoc(b, [], x, t);
  }

  lemma {:induction false} PredsHolds(b: seq<byte>, xs: seq<int>, t: int, k: int)
    requires b != [] && Positions(xs, |b|)
    ensures k in Preds(b, xs, t) <==> 0 <= k < |b| && After(k, |b|) in xs && Rot(b, k, 0) == t
    decreases |xs|
  {
    if xs != [] {
      var m, x := xs[..|xs| - 1], xs[|xs| - 1];
      PredsHolds(b, m, t, k);
      assert xs == m + [x];
    }
  }

  lemma {:induction false} PredsDistinct(b: seq<byte>, xs: seq<int>, t: int)
    requires b != [] && Positions(xs, |b|) && Distinct(xs)
    ensures Distinct(Preds(b, xs, t))
    decreases |xs|
  {
    if xs != [] {
      var m, x := xs[..|xs| - 1], xs[|xs| - 1];
      PredsDistinct(b, m, t);
      PredsHolds(b, m, t, Before(x, |b|));
    }
  }

  /** The byte before each, and its own first byte, make up the key of a position stepped back to. */
  lemma PredKey(b: seq<byte>, x: int, ss: int)
    requires b != [] && 0 <= x < |b| && Rot(b, x, 0) == ss
    ensures var k := Before(x, |b|); 0 <= k < |b| && After(k, |b|) == x && PairKey(b, k) == Rot(b, k, 0) * 256 + ss
  {
    var n, k := |b|, Before(x, |b|);
    WrapOnce(k + 1, n);
    WrapOnce(x, n);
  }

  lemma PredsKeys(b: seq<byte>, xs: seq<int>, ss: int, t: int)
    requires b != [] && Positions(xs, |b|) && AllBegin(b, xs, ss)
    ensures forall i {:trigger Preds(b, xs, t)[i]} | 0 <= i < |Preds(b, xs, t)| ::
      0 <= Preds(b, xs, t)[i] < |b| && PairKey(b, Preds(b, xs, t)[i]) == t * 256 + ss
  {
    var q := Preds(b, xs, t);
    forall i | 0 <= i < |q| ensures 0 <= q[i] < |b| && PairKey(b, q[i]) == t * 256 + ss {
      PredsHolds(b, xs, t, q[i]);
      var j :| 0 <= j < |xs| && xs[j] == After(q[i], |b|);
      PredKey(b, xs[j], ss);
    }
  }

  ghost predicate AllBegin(b: seq<byte>, xs: seq<int>, ss: int)
    requires b != []
  {
    forall i {:trigger xs[i]} | 0 <= i < |xs| :: Rot(b, xs[i], 0) == ss
  }

  /** Stepping back over one and the same byte keeps the order. */
  lemma LeqBefore(b: seq<byte>, x: int, y: int)
    requires b != [] && 0 <= x < |b| && 0 <= y < |b| && Leq(b, x, y)
    requires Rot(b, Before(x, |b|), 0) == Rot(b, Before(y, |b|), 0)
    ensures Leq(b, Before(x, |b|), Before(y, |b|))
  {
    var n, k, m := |b|, Before(x, |b|), Before(y, |b|);
    assert Text(b, k, 1) == [Rot(b, k, 0)] && Text(b, m, 1) == [Rot(b, m, 0)];
    LeqAfter(b, k, m, 1);
    LeqModulo(b, k + 1, m + 1);
    WrapOnce(k + 1, n);
    WrapOnce(m + 1, n);
  }

  lemma {:induction false} PredsSorted(b: seq<byte>, xs: seq<int>, t: int)
    requires b != [] && Positions(xs, |b|) && RotSorted(xs, b, 0, |xs| - 1)
    ensures RotSorted(Preds(b, xs, t), b, 0, |Preds(b, xs, t)| - 1)
    decreases |xs|
  {
    hide Leq, Rot;
    if xs != [] {
      var m, x := xs[..|xs| - 1], xs[|xs| - 1];
      PredsSorted(b, m, t);
      var q := Preds(b, m, t);
      if Rot(b, Before(x, |b|), 0) == t {
        forall i | 0 <= i < |q| ensures Leq(b, q[i], Before(x, |b|)) {
          PredsHolds(b, m, t, q[i]);
          var j :| 0 <= j < |m| && m[j] == After(q[i], |b|);
          assert xs[j] == m[j] && xs[|xs| - 1] == x;
          assert Before(m[j], |b|) == q[i];
          LeqBefore(b, m[j], x);
        }
      }
    }
  }

  // ----- the scan in progress

  /** Where small bucket [t, ss] starts and ends, and where big bucket [ss] starts. */
  ghost function Front(b: seq<byte>, ss: nat, t: nat): int
    requires b != []
  {
    Edge(b, t * 256 + ss)
  }

  ghost function Rear(b: seq<byte>, ss: nat, t: nat): int
    requires b != []
  {
    Edge(b, t * 256 + ss + 1)
  }

  ghost function Big(b: seq<byte>, ss: nat): int
    requires b != []
  {
    Edge(b, ss * 256)
  }

  lemma Layout(b: seq<byte>, ss: nat, t: nat)
    requires b != [] && ss < 256 && t < 256
    ensures 0 <= Big(b, t) <= Front(b, ss, t) <= Rear(b, ss, t) <= Big(b, t + 1) <= |b|
  {
    EdgeOrder(b, t * 256, t * 256 + ss);
    EdgeOrder(b, t * 256 + ss, t * 256 + ss + 1);
    EdgeOrder(b, t * 256 + ss + 1, (t + 1) * 256);
  }

  /** Big buckets lie apart. */
  lemma BigApart(b: seq<byte>, t: nat, u: nat)
    requires b != [] && t < u < 256
    ensures Big(b, t + 1) <= Big(b, u)
  {
    EdgeOrder(b, (t + 1) * 256, u * 256);
  }

  /** What lies in big bucket [ss] outside the unfilled stretch cl..ch of [ss, ss]. */
  ghost predicate SureAt(b: seq<byte>, ss: nat, cl: int, ch: int, p: int)
    requires b != []
  {
    Big(b, ss) <= p < cl || ch < p < Big(b, ss + 1)
  }

  /** Which side of the bucket [ss, ss] a row is on. */
  ghost predicate Placed(b: seq<byte>, ss: nat, x: int, p: int)
    requires b != []
  {
    Rot(b, x, 0) == ss && (p < Front(b, ss, ss) ==> PairKey(b, x) < ss * 256 + ss) &&
    (p >= Rear(b, ss, ss) ==> PairKey(b, x) > ss * 256 + ss)
  }

  /** The sure entries are in their final order. */
  ghost predicate Sure(b: seq<byte>, ss: nat, f: seq<int>, cl: int, ch: int)
    requires b != []
  {
    (forall p {:trigger f[p]} | 0 <= p < |f| && SureAt(b, ss, cl, ch, p) :: 0 <= f[p] < |b| && Placed(b, ss, f[p], p)) &&
    forall p, q {:trigger f[p], f[q]} | 0 <= p < q < |f| && SureAt(b, ss, cl, ch, p) && SureAt(b, ss, cl, ch, q) ::
      f[p] != f[q] && Leq(b, f[p], f[q])
  }

  /** Bucket [t, ss] holds the predecessors of what the two scans have passed; a finished bucket is left alone. */
  ghost predicate Filling(b: seq<byte>, ss: nat, f: seq<int>, t: nat, a: int, e: int, fin: bool, jl: int, jr: int)
    requires b != [] && ss < 256 && t < 256 && |f| == |b| && Big(b, ss) <= jl <= jr + 1 <= Big(b, ss + 1)
  {
    Layout(b, ss, t);
    Layout(b, ss, ss);
    Front(b, ss, t) <= a <= e + 1 <= Rear(b, ss, t) &&
    if fin then a == Front(b, ss, t) && e == Rear(b, ss, t) - 1 else
    f[Front(b, ss, t)..a] == Preds(b, f[Big(b, ss)..jl], t) && f[e + 1..Rear(b, ss, t)] == Preds(b, f[jr + 1..Big(b, ss + 1)], t)
  }

  ghost predicate Touched(b: seq<byte>, ss: nat, done: seq<bool>, s: int)
    requires b != [] && |done| == 256
  {
    exists t {:trigger done[t]} :: 0 <= t < 256 && !done[t] && Front(b, ss, t) <= s < Rear(b, ss, t)
  }

  ghost predicate Kept(b: seq<byte>, ss: nat, done: seq<bool>, f0: seq<int>, f: seq<int>)
    requires b != [] && |done| == 256
  {
    |f| == |f0| == |b| && forall s {:trigger f[s]} | 0 <= s < |f| && !Touched(b, ss, done, s) :: f[s] == f0[s]
  }

  /** The two cursors lie on either side of the unfilled stretch. */
  ghost predicate Cursors(b: seq<byte>, ss: nat, cl: int, ch: int, jl: int, jr: int)
    requires b != []
  {
    0 <= Big(b, ss) <= jl <= cl <= ch + 1 <= jr + 1 <= Big(b, ss + 1) <= |b| &&
    Big(b, ss) <= Front(b, ss, ss) <= cl && ch < Rear(b, ss, ss) <= Big(b, ss + 1)
  }

  ghost predicate Fills(b: seq<byte>, ss: nat, done: seq<bool>, f: seq<int>, cs: seq<int>, ce: seq<int>, jl: int, jr: int)
    requires b != [] && ss < 256 && |done| == |cs| == |ce| == 256 && |f| == |b|
    requires Big(b, ss) <= jl <= jr + 1 <= Big(b, ss + 1)
  {
    forall t {:trigger cs[t]} {:trigger ce[t]} | 0 <= t < 256 :: Filling(b, ss, f, t, cs[t], ce[t], done[t], jl, jr)
  }

  ghost predicate Copying(b: seq<byte>, ss: nat, done: seq<bool>, f0: seq<int>, f: seq<int>, cs: seq<int>, ce: seq<int>,
                          jl: int, jr: int) {
    b != [] && ss < 256 && |done| == |cs| == |ce| == 256 && !done[ss] && Listing(b, f0) && |f| == |f0| == |b| &&
    Cursors(b, ss, cs[ss], ce[ss], jl, jr) && Sure(b, ss, f, cs[ss], ce[ss]) && Kept(b, ss, done, f0, f) &&
    Fills(b, ss, done, f, cs, ce, jl, jr) && (jl == Big(b, ss) && jr == Big(b, ss + 1) - 1 ==> f == f0)
  }

  // ----- one more entry of the bucket [ss, ss]

  /** The position before a row still to be scanned belongs between the two filled ends of [ss, ss]. */
  lemma Against(b: seq<byte>, ss: nat, f: seq<int>, cl: int, ch: int, jl: int, jr: int, j: int, p: int)
    requires b != [] && ss < 256 && |f| == |b| && Cursors(b, ss, cl, ch, jl, jr) && Sure(b, ss, f, cl, ch)
    requires Filling(b, ss, f, ss, cl, ch, false, jl, jr)
    requires SureAt(b, ss, cl, ch, j) && jl <= j <= jr && SureAt(b, ss, cl, ch, p) && 0 <= p < |f|
    requires Rot(b, Before(f[j], |b|), 0) == ss
    ensures f[p] != Before(f[j], |b|)
    ensures p < cl ==> Leq(b, f[p], Before(f[j], |b|))
    ensures p > ch ==> Leq(b, Before(f[j], |b|), f[p])
  {
    hide Leq, Edge, Preds;
    var n, x := |b|, f[j];
    var k := Before(x, n);
    PredKey(b, x, ss);
    if p < Front(b, ss, ss) {
      KeyLess(b, f[p], k);
    } else if p >= Rear(b, ss, ss) {
      KeyLess(b, k, f[p]);
    } else if p < cl {
      var o := SourceIn(b, ss, f, Big(b, ss), jl, Front(b, ss, ss), cl, p);
      assert SureAt(b, ss, cl, ch, o);
      LeqBefore(b, f[o], x);
    } else {
      var o := SourceIn(b, ss, f, jr + 1, Big(b, ss + 1), ch + 1, Rear(b, ss, ss), p);
      assert SureAt(b, ss, cl, ch, o);
      LeqBefore(b, x, f[o]);
    }
  }

  /** The row whose predecessor stands at p. */
  lemma SourceIn(b: seq<byte>, ss: nat, f: seq<int>, lo: int, hi: int, from: int, to: int, p: int) returns (o: int)
    requires b != [] && 0 <= lo <= hi <= |f| && 0 <= from <= p < to <= |f| && f[from..to] == Preds(b, f[lo..hi], ss)
    requires Positions(f[lo..hi], |b|)
    ensures lo <= o < hi && f[p] == Before(f[o], |b|) && Rot(b, f[p], 0) == ss
  {
    hide Preds;
    assert f[from..to][p - from] == f[p];
    PredsHolds(b, f[lo..hi], ss, f[p]);
    var i :| 0 <= i < hi - lo && f[lo..hi][i] == After(f[p], |b|);
    o := lo + i;
  }

  /** The new entry of [ss, ss] is in place among the sure ones, at either end of the unfilled stretch. */
  lemma SureGrows(b: seq<byte>, ss: nat, f: seq<int>, cl: int, ch: int, s: int, k: int)
    requires b != [] && |f| == |b| && Sure(b, ss, f, cl, ch) && cl <= s <= ch
    requires 0 <= Big(b, ss) <= Front(b, ss, ss) <= cl && ch < Rear(b, ss, ss) <= Big(b, ss + 1) <= |b|
    requires 0 <= k < |b| && PairKey(b, k) == ss * 256 + ss
    requires forall p {:trigger f[p]} | 0 <= p < |f| && SureAt(b, ss, cl, ch, p) ::
      f[p] != k && (p < cl ==> Leq(b, f[p], k)) && (p > ch ==> Leq(b, k, f[p]))
    ensures s == cl ==> Sure(b, ss, f[s := k], cl + 1, ch)
    ensures s == ch ==> Sure(b, ss, f[s := k], cl, ch - 1)
  {
    hide Leq, Edge;
  }

  /** Writing elsewhere leaves the sure entries alone. */
  lemma SureElsewhere(b: seq<byte>, ss: nat, f: seq<int>, cl: int, ch: int, s: int, k: int)
    requires b != [] && Sure(b, ss, f, cl, ch) && 0 <= s < |f| && !(Big(b, ss) <= s < Big(b, ss + 1))
    requires Big(b, ss) <= cl <= ch + 1 <= Big(b, ss + 1)
    ensures Sure(b, ss, f[s := k], cl, ch)
  {
    hide Leq, Edge;
  }

  // ----- room for one more

  /** The rows already scanned and the one at j are all different. */
  lemma ScannedDistinct(b: seq<byte>, ss: nat, f: seq<int>, cl: int, ch: int, jl: int, jr: int, j: int)
    requires b != [] && |f| == |b| && Cursors(b, ss, cl, ch, jl, jr) && Sure(b, ss, f, cl, ch)
    requires SureAt(b, ss, cl, ch, j) && jl <= j <= jr
    ensures var xs := f[Big(b, ss)..jl] + [f[j]] + f[jr + 1..Big(b, ss + 1)];
      Distinct(xs) && Positions(xs, |b|) && AllBegin(b, xs, ss)
  {
    hide Leq, Edge;
    var lo, hi := Big(b, ss), Big(b, ss + 1);
    var xs := f[lo..jl] + [f[j]] + f[jr + 1..hi];
    var m := jl - lo;
    forall i | 0 <= i < |xs| ensures var p := Place(lo, jl, jr, j, i);
      xs[i] == f[p] && 0 <= p < |f| && SureAt(b, ss, cl, ch, p) && 0 <= xs[i] < |b| && Rot(b, xs[i], 0) == ss
    {
    }
    forall i, i' | 0 <= i < i' < |xs| ensures xs[i] != xs[i'] {
      assert Place(lo, jl, jr, j, i) < Place(lo, jl, jr, j, i');
    }
  }

  ghost function Place(lo: int, jl: int, jr: int, j: int, i: int): int {
    if i < jl - lo then lo + i else if i == jl - lo then j else jr + i - (jl - lo)
  }

  lemma HasRoom(b: seq<byte>, ss: nat, f0: seq<int>, f: seq<int>, cl: int, ch: int, jl: int, jr: int, j: int, t: nat,
                a: int, e: int)
    requires b != [] && ss < 256 && t < 256 && |f| == |b| && Cursors(b, ss, cl, ch, jl, jr) && Sure(b, ss, f, cl, ch)
    requires Listing(b, f0) && SureAt(b, ss, cl, ch, j) && jl <= j <= jr && Filling(b, ss, f, t, a, e, false, jl, jr)
    requires Rot(b, Before(f[j], |b|), 0) == t
    ensures a <= e
  {
    hide Leq, Edge, Preds, Sure, SureAt;
    Layout(b, ss, t);
    var L, R, x := f[Big(b, ss)..jl], f[jr + 1..Big(b, ss + 1)], f[j];
    var xs := L + [x] + R;
    ScannedDistinct(b, ss, f, cl, ch, jl, jr, j);
    PredsDistinct(b, xs, t);
    PredsKeys(b, xs, ss, t);
    SmallHolds(b, f0, t * 256 + ss);
    Stretch(f0, Front(b, ss, t), Rear(b, ss, t), Preds(b, xs, t));
    PredsAppend(b, L + [x], R, t);
    PredsSnoc(b, L, x, t);
    assert |Preds(b, xs, t)| == |Preds(b, L, t)| + 1 + |Preds(b, R, t)|;
    assert |f[Front(b, ss, t)..a]| == |Preds(b, L, t)| && |f[e + 1..Rear(b, ss, t)]| == |Preds(b, R, t)|;
  }

  // ----- one step of either scan

  lemma SliceKept(f: seq<int>, s: int, k: int, lo: int, hi: int)
    requires 0 <= lo <= hi <= |f| && 0 <= s < |f| && !(lo <= s < hi)
    ensures f[s := k][lo..hi] == f[lo..hi]
  {
  }

  /** Where the written slot lies with respect to other buckets and to what has been scanned. */
  lemma SlotApart(b: seq<byte>, ss: nat, t: nat, s: int, u: nat)
    requires b != [] && ss < 256 && t < 256 && u < 256 && Front(b, ss, t) <= s < Rear(b, ss, t)
    ensures u != t ==> !(Front(b, ss, u) <= s < Rear(b, ss, u)) && !(Big(b, u) <= s < Big(b, u + 1))
  {
    hide Edge;
    Layout(b, ss, t);
    Layout(b, ss, u);
    if u < t { BigApart(b, u, t); }
    if t < u { BigApart(b, t, u); }
  }

  lemma FillingLeft(b: seq<byte>, ss: nat, f: seq<int>, t: nat, a: int, e: int, jl: int, jr: int)
    requires b != [] && ss < 256 && t < 256 && |f| == |b| && 0 <= Big(b, ss) <= jl <= jr && jr + 1 <= Big(b, ss + 1) <= |b|
    requires Filling(b, ss, f, t, a, e, false, jl, jr) && 0 <= a <= e < |f| && Rot(b, Before(f[jl], |b|), 0) == t
    requires t == ss ==> jl < a && e <= jr
    ensures Filling(b, ss, f[a := Before(f[jl], |b|)], t, a + 1, e, false, jl + 1, jr)
  {
    hide Edge, Preds;
    var k, lo, hi := Before(f[jl], |b|), Big(b, ss), Big(b, ss + 1);
    var g := f[a := k];
    Layout(b, ss, t);
    SlotApart(b, ss, t, a, ss);
    SliceKept(f, a, k, lo, jl + 1);
    SliceKept(f, a, k, jr + 1, hi);
    SliceKept(f, a, k, e + 1, Rear(b, ss, t));
    assert g[Front(b, ss, t)..a + 1] == f[Front(b, ss, t)..a] + [k];
    assert f[lo..jl + 1] == f[lo..jl] + [f[jl]];
    PredsSnoc(b, f[lo..jl], f[jl], t);
  }

  lemma FillingRight(b: seq<byte>, ss: nat, f: seq<int>, t: nat, a: int, e: int, jl: int, jr: int)
    requires b != [] && ss < 256 && t < 256 && |f| == |b| && 0 <= Big(b, ss) <= jl <= jr && jr + 1 <= Big(b, ss + 1) <= |b|
    requires Filling(b, ss, f, t, a, e, false, jl, jr) && 0 <= a <= e < |f| && Rot(b, Before(f[jr], |b|), 0) == t
    requires t == ss ==> jl <= a && e < jr
    ensures Filling(b, ss, f[e := Before(f[jr], |b|)], t, a, e - 1, false, jl, jr - 1)
  {
    hide Edge, Preds;
    var k, lo, hi := Before(f[jr], |b|), Big(b, ss), Big(b, ss + 1);
    var g := f[e := k];
    Layout(b, ss, t);
    SlotApart(b, ss, t, e, ss);
    SliceKept(f, e, k, lo, jl);
    SliceKept(f, e, k, jr, hi);
    SliceKept(f, e, k, Front(b, ss, t), a);
    assert g[e..Rear(b, ss, t)] == [k] + f[e + 1..Rear(b, ss, t)];
    assert f[jr..hi] == [f[jr]] + f[jr + 1..hi];
    PredsCons(b, f[jr], f[jr + 1..hi], t);
  }

  /** Another bucket than the one that gets the predecessor of row jl. */
  lemma OthersLeft(b: seq<byte>, ss: nat, f: seq<int>, u: nat, a: int, e: int, fin: bool, jl: int, jr: int)
    requires b != [] && ss < 256 && u < 256 && |f| == |b| && 0 <= Big(b, ss) <= jl <= jr && jr + 1 <= Big(b, ss + 1) <= |b|
    requires Filling(b, ss, f, u, a, e, fin, jl, jr) && (!fin ==> Rot(b, Before(f[jl], |b|), 0) != u)
    ensures Filling(b, ss, f, u, a, e, fin, jl + 1, jr)
  {
    hide Edge, Preds;
    var lo := Big(b, ss);
    assert f[lo..jl + 1] == f[lo..jl] + [f[jl]];
    PredsSnoc(b, f[lo..jl], f[jl], u);
  }

  lemma OthersRight(b: seq<byte>, ss: nat, f: seq<int>, u: nat, a: int, e: int, fin: bool, jl: int, jr: int)
    requires b != [] && ss < 256 && u < 256 && |f| == |b| && 0 <= Big(b, ss) <= jl <= jr && jr + 1 <= Big(b, ss + 1) <= |b|
    requires Filling(b, ss, f, u, a, e, fin, jl, jr) && (!fin ==> Rot(b, Before(f[jr], |b|), 0) != u)
    ensures Filling(b, ss, f, u, a, e, fin, jl, jr - 1)
  {
    hide Edge, Preds;
    var hi := Big(b, ss + 1);
    assert f[jr..hi] == [f[jr]] + f[jr + 1..hi];
    PredsCons(b, f[jr], f[jr + 1..hi], u);
  }

  /** A write into one bucket, ahead of both cursors, does not show in another. */
  lemma FillingElsewhere(b: seq<byte>, ss: nat, f: seq<int>, u: nat, a: int, e: int, fin: bool, jl: int, jr: int,
                         s: int, k: int)
    requires b != [] && ss < 256 && u < 256 && |f| == |b| && 0 <= Big(b, ss) <= jl <= jr + 1 <= Big(b, ss + 1) <= |b|
    requires Filling(b, ss, f, u, a, e, fin, jl, jr)
    requires 0 <= s < |f| && !(Front(b, ss, u) <= s < Rear(b, ss, u)) && !(Big(b, ss) <= s < jl)
    requires !(jr < s < Big(b, ss + 1))
    ensures Filling(b, ss, f[s := k], u, a, e, fin, jl, jr)
  {
    hide Edge, Preds;
    Layout(b, ss, u);
    if !fin {
      SliceKept(f, s, k, Front(b, ss, u), a);
      SliceKept(f, s, k, e + 1, Rear(b, ss, u));
      SliceKept(f, s, k, Big(b, ss), jl);
      SliceKept(f, s, k, jr + 1, Big(b, ss + 1));
    }
  }

  lemma KeptStep(b: seq<byte>, ss: nat, done: seq<bool>, f0: seq<int>, f: seq<int>, t: nat, s: int, k: int)
    requires b != [] && |done| == 256 && t < 256 && Kept(b, ss, done, f0, f) && !done[t] && 0 <= s < |f|
    requires Front(b, ss, t) <= s < Rear(b, ss, t)
    ensures Kept(b, ss, done, f0, f[s := k])
  {
    hide Edge;
    assert Touched(b, ss, done, s);
  }

  /** What a fill at slot s, by row j, does to everything but the buckets' own accounts. */
  lemma FillSlot(b: seq<byte>, ss: nat, done: seq<bool>, f0: seq<int>, f: seq<int>, cs: seq<int>, ce: seq<int>,
                 jl: int, jr: int, j: int, t: nat, s: int)
    requires Copying(b, ss, done, f0, f, cs, ce, jl, jr) && SureAt(b, ss, cs[ss], ce[ss], j) && jl <= j <= jr
    requires t < 256 && t == Rot(b, Before(f[j], |b|), 0) && !done[t] && s in {cs[t], ce[t]}
    ensures 0 <= cs[t] <= ce[t] < |b| && 0 <= s < |b| && Front(b, ss, t) <= s < Rear(b, ss, t)
    ensures Kept(b, ss, done, f0, f[s := Before(f[j], |b|)])
    ensures t != ss ==> Sure(b, ss, f[s := Before(f[j], |b|)], cs[ss], ce[ss])
    ensures t == ss && s == cs[t] ==> Sure(b, ss, f[s := Before(f[j], |b|)], cs[ss] + 1, ce[ss])
    ensures t == ss && s == ce[t] ==> Sure(b, ss, f[s := Before(f[j], |b|)], cs[ss], ce[ss] - 1)
  {
    hide Edge, Preds, Leq;
    var k := Before(f[j], |b|);
    Layout(b, ss, t);
    assert Filling(b, ss, f, t, cs[t], ce[t], done[t], jl, jr) && Filling(b, ss, f, ss, cs[ss], ce[ss], done[ss], jl, jr);
    HasRoom(b, ss, f0, f, cs[ss], ce[ss], jl, jr, j, t, cs[t], ce[t]);
    KeptStep(b, ss, done, f0, f, t, s, k);
    SlotApart(b, ss, t, s, ss);
    if t == ss {
      PredKey(b, f[j], ss);
      forall p | 0 <= p < |f| && SureAt(b, ss, cs[ss], ce[ss], p)
        ensures f[p] != k && (p < cs[ss] ==> Leq(b, f[p], k)) && (p > ce[ss] ==> Leq(b, k, f[p]))
      {
        Against(b, ss, f, cs[ss], ce[ss], jl, jr, j, p);
      }
      SureGrows(b, ss, f, cs[ss], ce[ss], s, k);
    } else {
      SureElsewhere(b, ss, f, cs[ss], ce[ss], s, k);
    }
  }

  /** The left scan passes row jl. */
  lemma LeftFill(b: seq<byte>, ss: nat, done: seq<bool>, f0: seq<int>, f: seq<int>, cs: seq<int>, ce: seq<int>,
                 jl: int, jr: int, t: nat)
    requires Copying(b, ss, done, f0, f, cs, ce, jl, jr) && jl < cs[ss]
    requires t < 256 && t == Rot(b, Before(f[jl], |b|), 0) && !done[t]
    ensures 0 <= cs[t] < |b| && Copying(b, ss, done, f0, f[cs[t] := Before(f[jl], |b|)], cs[t := cs[t] + 1], ce, jl + 1, jr)
  {
    hide Edge, Preds, Filling, Sure, Kept;
    var s, k := cs[t], Before(f[jl], |b|);
    FillSlot(b, ss, done, f0, f, cs, ce, jl, jr, jl, t, s);
    var g, cs' := f[s := k], cs[t := s + 1];
    forall u {:trigger cs'[u]} {:trigger ce[u]} | 0 <= u < 256 ensures Filling(b, ss, g, u, cs'[u], ce[u], done[u], jl + 1, jr) {
      assert Filling(b, ss, f, u, cs[u], ce[u], done[u], jl, jr);
      if u == t {
        FillingLeft(b, ss, f, t, s, ce[t], jl, jr);
      } else {
        OthersLeft(b, ss, f, u, cs[u], ce[u], done[u], jl, jr);
        SlotApart(b, ss, t, s, u);
        SlotApart(b, ss, t, s, ss);
        FillingElsewhere(b, ss, f, u, cs[u], ce[u], done[u], jl + 1, jr, s, k);
      }
    }
  }

  lemma LeftSkip(b: seq<byte>, ss: nat, done: seq<bool>, f0: seq<int>, f: seq<int>, cs: seq<int>, ce: seq<int>,
                 jl: int, jr: int, t: nat)
    requires Copying(b, ss, done, f0, f, cs, ce, jl, jr) && jl < cs[ss]
    requires t < 256 && t == Rot(b, Before(f[jl], |b|), 0) && done[t]
    ensures Copying(b, ss, done, f0, f, cs, ce, jl + 1, jr)
  {
    hide Edge, Preds, Filling, Sure, Kept;
    forall u {:trigger cs[u]} {:trigger ce[u]} | 0 <= u < 256 ensures Filling(b, ss, f, u, cs[u], ce[u], done[u], jl + 1, jr) {
      assert Filling(b, ss, f, u, cs[u], ce[u], done[u], jl, jr);
      OthersLeft(b, ss, f, u, cs[u], ce[u], done[u], jl, jr);
    }
  }

  /** The right scan passes row jr. */
  lemma RightFill(b: seq<byte>, ss: nat, done: seq<bool>, f0: seq<int>, f: seq<int>, cs: seq<int>, ce: seq<int>,
                  jl: int, jr: int, t: nat)
    requires Copying(b, ss, done, f0, f, cs, ce, jl, jr) && jr > ce[ss]
    requires t < 256 && t == Rot(b, Before(f[jr], |b|), 0) && !done[t] && jl <= jr
    ensures 0 <= ce[t] < |b| && Copying(b, ss, done, f0, f[ce[t] := Before(f[jr], |b|)], cs, ce[t := ce[t] - 1], jl, jr - 1)
  {
    hide Edge, Preds, Filling, Sure, Kept;
    var s, k := ce[t], Before(f[jr], |b|);
    FillSlot(b, ss, done, f0, f, cs, ce, jl, jr, jr, t, s);
    var g, ce' := f[s := k], ce[t := s - 1];
    forall u {:trigger cs[u]} {:trigger ce'[u]} | 0 <= u < 256 ensures Filling(b, ss, g, u, cs[u], ce'[u], done[u], jl, jr - 1) {
      assert Filling(b, ss, f, u, cs[u], ce[u], done[u], jl, jr);
      if u == t {
        FillingRight(b, ss, f, t, cs[t], s, jl, jr);
      } else {
        OthersRight(b, ss, f, u, cs[u], ce[u], done[u], jl, jr);
        SlotApart(b, ss, t, s, u);
        SlotApart(b, ss, t, s, ss);
        FillingElsewhere(b, ss, f, u, cs[u], ce[u], done[u], jl, jr - 1, s, k);
      }
    }
  }

  lemma RightSkip(b: seq<byte>, ss: nat, done: seq<bool>, f0: seq<int>, f: seq<int>, cs: seq<int>, ce: seq<int>,
                  jl: int, jr: int, t: nat)
    requires Copying(b, ss, done, f0, f, cs, ce, jl, jr) && jr > ce[ss] && jl <= jr
    requires t < 256 && t == Rot(b, Before(f[jr], |b|), 0) && done[t]
    ensures Copying(b, ss, done, f0, f, cs, ce, jl, jr - 1)
  {
    hide Edge, Preds, Filling, Sure, Kept;
    forall u {:trigger cs[u]} {:trigger ce[u]} | 0 <= u < 256 ensures Filling(b, ss, f, u, cs[u], ce[u], done[u], jl, jr - 1) {
      assert Filling(b, ss, f, u, cs[u], ce[u], done[u], jl, jr);
      OthersRight(b, ss, f, u, cs[u], ce[u], done[u], jl, jr);
    }
  }

  // ----- the start

  lemma SureKey(b: seq<byte>, ss: nat, f: seq<int>, p: nat)
    requires Listing(b, f) && ss < 256 && p < |f|
    requires SureAt(b, ss, Front(b, ss, ss), Rear(b, ss, ss) - 1, p)
    ensures var c := PairKey(b, f[p]);
      c / 256 == ss && c % 256 != ss && InSmall(b, c, p) && 0 <= f[p] < |b| && Placed(b, ss, f[p], p)
  {
    hide Edge;
    Layout(b, ss, ss);
    BigHolds(b, f, ss);
    assert f[Big(b, ss)..Big(b, ss + 1)][p - Big(b, ss)] == f[p];
    KeyAt(b, f, p);
    var c, m := PairKey(b, f[p]), ss * 256 + ss;
    if c < m { EdgeOrder(b, c + 1, m); }
    if c > m { EdgeOrder(b, m + 1, c); }
  }

  ghost predicate OthersSorted(b: seq<byte>, ss: nat, f: seq<int>)
    requires b != []
  {
    forall c {:trigger SmallSorted(b, f, c)} | 0 <= c < 65536 && c / 256 == ss && c % 256 != ss :: SmallSorted(b, f, c)
  }

  lemma SurePair(b: seq<byte>, ss: nat, f: seq<int>, p: nat, q: nat)
    requires Listing(b, f) && ss < 256 && p < q < |f| && OthersSorted(b, ss, f)
    requires SureAt(b, ss, Front(b, ss, ss), Rear(b, ss, ss) - 1, p)
    requires SureAt(b, ss, Front(b, ss, ss), Rear(b, ss, ss) - 1, q)
    ensures f[p] != f[q] && Leq(b, f[p], f[q])
  {
    hide Edge, Leq, SureAt, Placed, PairKey;
    SureKey(b, ss, f, p);
    SureKey(b, ss, f, q);
    KeysAscend(b, f, p, q);
    if PairKey(b, f[p]) < PairKey(b, f[q]) {
      KeyLess(b, f[p], f[q]);
    } else {
      assert SmallSorted(b, f, PairKey(b, f[p]));
      EdgeOrder(b, PairKey(b, f[p]), PairKey(b, f[p]) + 1);
    }
  }

  lemma SureStart(b: seq<byte>, ss: nat, f: seq<int>)
    requires b != [] && Listing(b, f) && ss < 256 && OthersSorted(b, ss, f)
    ensures Sure(b, ss, f, Front(b, ss, ss), Rear(b, ss, ss) - 1)
  {
    hide Edge, Leq, SureAt, Placed, PairKey, OthersSorted, Listing;
    var cl, ch := Front(b, ss, ss), Rear(b, ss, ss) - 1;
    forall p | 0 <= p < |f| && SureAt(b, ss, cl, ch, p) ensures 0 <= f[p] < |b| && Placed(b, ss, f[p], p) {
      SureKey(b, ss, f, p);
    }
    forall p, q | 0 <= p < q < |f| && SureAt(b, ss, cl, ch, p) && SureAt(b, ss, cl, ch, q) ensures f[p] != f[q] && Leq(b, f[p], f[q]) {
      SurePair(b, ss, f, p, q);
    }
  }

  lemma CopyBegins(b: seq<byte>, ss: nat, done: seq<bool>, f: seq<int>, cs: seq<int>, ce: seq<int>)
    requires Listing(b, f) && ss < 256 && |done| == |cs| == |ce| == 256 && !done[ss] && OthersSorted(b, ss, f)
    requires forall t {:trigger cs[t]} {:trigger ce[t]} | 0 <= t < 256 :: cs[t] == Front(b, ss, t) && ce[t] == Rear(b, ss, t) - 1
    ensures Copying(b, ss, done, f, f, cs, ce, Big(b, ss), Big(b, ss + 1) - 1)
  {
    hide Edge, Leq, Sure, OthersSorted;
    SureStart(b, ss, f);
    Layout(b, ss, ss);
    var lo, hi := Big(b, ss), Big(b, ss + 1);
    forall t {:trigger cs[t]} {:trigger ce[t]} | 0 <= t < 256 ensures Filling(b, ss, f, t, cs[t], ce[t], done[t], lo, hi - 1) {
      Layout(b, ss, t);
      assert f[lo..lo] == [] && f[hi..hi] == [];
    }
  }

  // ----- the end

  /** What the copy step leaves: every bucket [t, ss] of an unfinished t sorted, the rest as it was. */
  ghost predicate Copied(b: seq<byte>, ss: nat, done: seq<bool>, f0: seq<int>, f: seq<int>) {
    Listing(b, f) && |done| == 256 && Kept(b, ss, done, f0, f) &&
    forall t {:trigger done[t]} | 0 <= t < 256 && !done[t] :: SmallSorted(b, f, t * 256 + ss)
  }

  /** The scans have met: they have passed the whole big bucket. */
  lemma AllScanned(b: seq<byte>, ss: nat, done: seq<bool>, f0: seq<int>, f: seq<int>, cs: seq<int>, ce: seq<int>)
    requires ss < 256 && |cs| == |ce| == 256 && Copying(b, ss, done, f0, f, cs, ce, cs[ss], ce[ss]) && cs[ss] - 1 == ce[ss]
    ensures 0 <= Big(b, ss) <= Big(b, ss + 1) <= |f|
    ensures var xs := f[Big(b, ss)..Big(b, ss + 1)]; AllOf(b, ss, xs) && RotSorted(xs, b, 0, |xs| - 1)
  {
    hide Edge, Leq, Preds;
    var lo, hi := Big(b, ss), Big(b, ss + 1);
    var xs := f[lo..hi];
    forall i | 0 <= i < |xs| ensures SureAt(b, ss, cs[ss], ce[ss], lo + i) && xs[i] == f[lo + i] {
    }
    BigHolds(b, f0, ss);
    forall x | x in xs ensures x in f0[lo..hi] {
      var i :| 0 <= i < |xs| && xs[i] == x;
    }
    Stretch(f0, lo, hi, xs);
  }

  /** xs lists all positions with first byte ss. */
  ghost predicate AllOf(b: seq<byte>, ss: nat, xs: seq<int>)
    requires b != []
  {
    Distinct(xs) && Positions(xs, |b|) && AllBegin(b, xs, ss) && forall x | 0 <= x < |b| && Rot(b, x, 0) == ss :: x in xs
  }

  /** Then the predecessors of its rows are all that belongs into bucket [t, ss]. */
  lemma PredsAll(b: seq<byte>, ss: nat, f0: seq<int>, t: nat, xs: seq<int>)
    requires b != [] && Listing(b, f0) && ss < 256 && t < 256 && AllOf(b, ss, xs)
    ensures |Preds(b, xs, t)| == Rear(b, ss, t) - Front(b, ss, t)
  {
    hide Edge, Preds, Listing, AllOf, PairKey;
    var lo, hi, q := Front(b, ss, t), Rear(b, ss, t), Preds(b, xs, t);
    var c := t * 256 + ss;
    SmallHas(b, f0, c, 0);
    forall x ensures x in q <==> x in f0[lo..hi] {
      SmallHas(b, f0, c, x);
      BelongsBack(b, ss, t, xs, x);
    }
    PredsSingle(b, ss, xs, t);
    StretchOf(b, f0, lo, hi, q);
  }

  lemma PredsSingle(b: seq<byte>, ss: nat, xs: seq<int>, t: int)
    requires b != [] && AllOf(b, ss, xs)
    ensures Distinct(Preds(b, xs, t))
  {
    PredsDistinct(b, xs, t);
  }

  lemma BelongsBack(b: seq<byte>, ss: nat, t: nat, xs: seq<int>, x: int)
    requires b != [] && AllOf(b, ss, xs) && ss < 256
    ensures x in Preds(b, xs, t) <==> 0 <= x < |b| && PairKey(b, x) == t * 256 + ss
  {
    hide Preds;
    PredsHolds(b, xs, t, x);
    if 0 <= x < |b| {
      SuccessorIn(b, x, PairKey(b, x));
      if x in Preds(b, xs, t) {
        var i :| 0 <= i < |xs| && xs[i] == After(x, |b|);
        PredKey(b, xs[i], ss);
      }
    }
  }

  lemma StretchOf(b: seq<byte>, f: seq<int>, lo: int, hi: int, q: seq<int>)
    requires Listing(b, f) && 0 <= lo <= hi <= |f| && Distinct(q)
    requires forall x | x in f[lo..hi] :: x in q
    requires forall i {:trigger q[i]} | 0 <= i < |q| :: q[i] in f[lo..hi]
    ensures |q| == hi - lo
  {
    Stretch(f, lo, hi, q);
  }

  /** Then they fill it. */
  lemma BucketFull(b: seq<byte>, ss: nat, f0: seq<int>, f: seq<int>, t: nat, a: int, e: int, m: int)
    requires b != [] && Listing(b, f0) && |f| == |b| && ss < 256 && t < 256 && 0 <= Big(b, ss) <= m <= Big(b, ss + 1) <= |f|
    requires Filling(b, ss, f, t, a, e, false, m, m - 1) && AllOf(b, ss, f[Big(b, ss)..Big(b, ss + 1)])
    ensures 0 <= Front(b, ss, t) <= Rear(b, ss, t) <= |f|
    ensures f[Front(b, ss, t)..Rear(b, ss, t)] == Preds(b, f[Big(b, ss)..Big(b, ss + 1)], t)
  {
    hide Edge, Preds, Listing, AllOf;
    Layout(b, ss, t);
    var lo, hi := Big(b, ss), Big(b, ss + 1);
    PredsAll(b, ss, f0, t, f[lo..hi]);
    assert f[lo..hi] == f[lo..m] + f[m..hi];
    PredsAppend(b, f[lo..m], f[m..hi], t);
    assert |Preds(b, f[lo..m], t)| == a - Front(b, ss, t) && |Preds(b, f[m..hi], t)| == Rear(b, ss, t) - (e + 1);
    assert f[Front(b, ss, t)..Rear(b, ss, t)] == f[Front(b, ss, t)..a] + f[e + 1..Rear(b, ss, t)];
  }

  lemma SuccessorIn(b: seq<byte>, x: int, c: nat)
    requires b != [] && 0 <= x < |b| && PairKey(b, x) == c
    ensures var y := After(x, |b|); 0 <= y < |b| && Rot(b, y, 0) == c % 256 && Before(y, |b|) == x && Rot(b, x, 0) == c / 256
  {
    WrapOnce(x + 1, |b|);
    WrapOnce(After(x, |b|), |b|);
  }

  /** A full bucket [t, ss] is sorted, and holds the positions with its key once each. */
  lemma FullSorted(b: seq<byte>, ss: nat, f: seq<int>, t: nat, xs: seq<int>)
    requires b != [] && ss < 256 && t < 256 && |f| == |b| && 0 <= Front(b, ss, t) <= Rear(b, ss, t) <= |f|
    requires AllOf(b, ss, xs) && RotSorted(xs, b, 0, |xs| - 1)
    requires f[Front(b, ss, t)..Rear(b, ss, t)] == Preds(b, xs, t)
    ensures SmallSorted(b, f, t * 256 + ss)
    ensures forall s {:trigger f[s]} | Front(b, ss, t) <= s < Rear(b, ss, t) ::
      0 <= f[s] < |b| && PairKey(b, f[s]) == t * 256 + ss
    ensures forall s, s' {:trigger f[s], f[s']} | Front(b, ss, t) <= s < s' < Rear(b, ss, t) :: f[s] != f[s']
  {
    hide Edge, Preds, Leq;
    var lo, q := Front(b, ss, t), Preds(b, xs, t);
    PredsSorted(b, xs, t);
    PredsKeys(b, xs, ss, t);
    PredsDistinct(b, xs, t);
    forall s | lo <= s < Rear(b, ss, t) ensures f[s] == q[s - lo] {
    }
  }

  lemma UndoneFull(b: seq<byte>, ss: nat, done: seq<bool>, f0: seq<int>, f: seq<int>, cs: seq<int>, ce: seq<int>, t: nat)
    requires ss < 256 && |cs| == |ce| == 256 && Copying(b, ss, done, f0, f, cs, ce, cs[ss], ce[ss]) && cs[ss] - 1 == ce[ss]
    requires t < 256 && !done[t]
    ensures 0 <= Front(b, ss, t) <= Rear(b, ss, t) <= |f| && FullAt(b, ss, f, t) && SmallSorted(b, f, t * 256 + ss)
  {
    hide Edge, Preds, Leq, AllOf, Kept, Sure, Listing, RotSorted, SmallSorted;
    AllScanned(b, ss, done, f0, f, cs, ce);
    assert Filling(b, ss, f, t, cs[t], ce[t], done[t], cs[ss], ce[ss]);
    BucketFull(b, ss, f0, f, t, cs[t], ce[t], cs[ss]);
    FullSorted(b, ss, f, t, f[Big(b, ss)..Big(b, ss + 1)]);
  }

  /** Bucket [t, ss] holds different positions with its own key. */
  ghost predicate FullAt(b: seq<byte>, ss: nat, f: seq<int>, t: nat)
    requires b != [] && 0 <= Front(b, ss, t) <= Rear(b, ss, t) <= |f|
  {
    (forall s {:trigger f[s]} | Front(b, ss, t) <= s < Rear(b, ss, t) :: 0 <= f[s] < |b| && PairKey(b, f[s]) == t * 256 + ss) &&
    forall s, s' {:trigger f[s], f[s']} | Front(b, ss, t) <= s < s' < Rear(b, ss, t) :: f[s] != f[s']
  }

  ghost predicate AllFull(b: seq<byte>, ss: nat, done: seq<bool>, f: seq<int>)
    requires b != [] && |done| == 256
  {
    forall t {:trigger done[t]} | 0 <= t < 256 && !done[t] ::
      0 <= Front(b, ss, t) <= Rear(b, ss, t) <= |f| && FullAt(b, ss, f, t) && SmallSorted(b, f, t * 256 + ss)
  }

  /** A slot either belongs to an unfinished bucket [t, ss] or kept its entry. */
  ghost predicate Refilled(ss: nat, done: seq<bool>, c: nat)
    requires |done| == 256 && c < 65536
  {
    c % 256 == ss && !done[c / 256]
  }

  lemma SlotKept(b: seq<byte>, ss: nat, done: seq<bool>, f0: seq<int>, f: seq<int>, c: nat, s: int)
    requires b != [] && ss < 256 && |done| == 256 && Kept(b, ss, done, f0, f) && 0 <= s < |f|
    requires c < 65536 && InSmall(b, c, s) && !Refilled(ss, done, c)
    ensures f[s] == f0[s]
  {
    hide Edge;
    if Touched(b, ss, done, s) {
      var t :| 0 <= t < 256 && !done[t] && Front(b, ss, t) <= s < Rear(b, ss, t);
      SmallsApart(b, c, t * 256 + ss, s);
    }
  }

  /** Every slot holds a position with the key of its bucket. */
  lemma SlotKey(b: seq<byte>, ss: nat, done: seq<bool>, f0: seq<int>, f: seq<int>, c: nat, s: int)
    requires b != [] && ss < 256 && |done| == 256 && Kept(b, ss, done, f0, f) && Listing(b, f0) && AllFull(b, ss, done, f)
    requires c < 65536 && InSmall(b, c, s) && 0 <= s < |f|
    ensures 0 <= f[s] < |b| && PairKey(b, f[s]) == c
  {
    hide Edge, Kept, SmallSorted;
    if Refilled(ss, done, c) {
      assert c == c / 256 * 256 + ss;
      assert !done[c / 256];
    } else {
      SlotKept(b, ss, done, f0, f, c, s);
      RowKey(b, f0, c, s);
    }
  }

  lemma SlotsDiffer(b: seq<byte>, ss: nat, done: seq<bool>, f0: seq<int>, f: seq<int>, s: nat, s': nat)
    requires b != [] && ss < 256 && |done| == 256 && Kept(b, ss, done, f0, f) && Listing(b, f0) && AllFull(b, ss, done, f)
    requires s < s' < |f|
    ensures f[s] != f[s']
  {
    hide Edge, SmallSorted;
    var c := SmallOf(b, s);
    var c' := SmallOf(b, s');
    SlotKey(b, ss, done, f0, f, c, s);
    SlotKey(b, ss, done, f0, f, c', s');
    if c == c' {
      if Refilled(ss, done, c) {
        assert c == c / 256 * 256 + ss;
        assert !done[c / 256];
      } else {
        SlotKept(b, ss, done, f0, f, c, s);
        SlotKept(b, ss, done, f0, f, c, s');
      }
    }
  }

  lemma CopyEndsFull(b: seq<byte>, ss: nat, done: seq<bool>, f0: seq<int>, f: seq<int>, cs: seq<int>, ce: seq<int>)
    requires ss < 256 && |cs| == |ce| == 256 && Copying(b, ss, done, f0, f, cs, ce, cs[ss], ce[ss]) && cs[ss] - 1 == ce[ss]
    ensures Copied(b, ss, done, f0, f)
  {
    hide Edge, Cursors, Sure, Fills, Kept, FullAt, Leq, SmallSorted;
    forall t {:trigger done[t]} | 0 <= t < 256 && !done[t]
      ensures 0 <= Front(b, ss, t) <= Rear(b, ss, t) <= |f| && FullAt(b, ss, f, t) && SmallSorted(b, f, t * 256 + ss)
    {
      UndoneFull(b, ss, done, f0, f, cs, ce, t);
    }
    ListingAgain(b, ss, done, f0, f);
  }

  lemma ListingAgain(b: seq<byte>, ss: nat, done: seq<bool>, f0: seq<int>, f: seq<int>)
    requires b != [] && ss < 256 && |done| == 256 && Kept(b, ss, done, f0, f) && Listing(b, f0) && AllFull(b, ss, done, f)
    requires |f| == |b|
    ensures Listing(b, f)
  {
    hide Kept, AllFull;
    forall s | 0 <= s < |f| ensures 0 <= f[s] < |f| {
      var c := SmallOf(b, s);
      SlotKey(b, ss, done, f0, f, c, s);
    }
    forall s, s' | 0 <= s < s' < |f| ensures f[s] != f[s'] {
      SlotsDiffer(b, ss, done, f0, f, s, s');
    }
    forall c, s | 0 <= c < 65536 && InBucket(PairKeys(b), c, s) ensures 0 <= s < |f| && PairKeys(b)[f[s]] == c {
      EdgeOrder(b, c, c + 1);
      EdgeOrder(b, c + 1, c + 1);
      SlotKey(b, ss, done, f0, f, c, s);
    }
  }

  // ----- the scans end without meeting

  /** Position x belongs into [ss, ss] and has not been put there. */
  ghost predicate Missing(b: seq<byte>, ss: nat, f: seq<int>, cl: int, ch: int, x: int)
    requires b != []
  {
    0 <= Front(b, ss, ss) <= cl <= |f| && 0 <= ch + 1 <= Rear(b, ss, ss) <= |f| && 0 <= x < |b| && PairKey(b, x) == ss * 256 + ss &&
    x !in f[Front(b, ss, ss)..cl] && x !in f[ch + 1..Rear(b, ss, ss)]
  }

  /** A row the scans have passed is not missing. */
  lemma PassedPresent(b: seq<byte>, ss: nat, f: seq<int>, cl: int, ch: int, p: int)
    requires b != [] && |f| == |b| && Sure(b, ss, f, cl, ch) && Cursors(b, ss, cl, ch, cl, ch) && SureAt(b, ss, cl, ch, p)
    ensures 0 <= p < |f| && 0 <= f[p] < |b| && !Missing(b, ss, f, cl, ch, f[p])
  {
    hide Edge, Leq, PairKey;
    var lo, hi := Front(b, ss, ss), Rear(b, ss, ss);
    assert Placed(b, ss, f[p], p);
    if lo <= p < cl { assert f[lo..cl][p - lo] == f[p]; }
    if ch < p < hi { assert f[ch + 1..hi][p - ch - 1] == f[p]; }
  }

  /** A position with first byte ss that the scans have not passed is missing. */
  lemma NotPassedMissing(b: seq<byte>, ss: nat, done: seq<bool>, f0: seq<int>, f: seq<int>, cl: int, ch: int, x: int)
    requires b != [] && ss < 256 && |f| == |b| && |done| == 256 && Kept(b, ss, done, f0, f) && Listing(b, f0)
    requires Cursors(b, ss, cl, ch, cl, ch) && 0 <= x < |b| && Rot(b, x, 0) == ss
    requires x !in f[Big(b, ss)..cl] && x !in f[ch + 1..Big(b, ss + 1)]
    ensures Missing(b, ss, f, cl, ch, x)
  {
    hide Edge, Leq, Kept;
    var s := SlotOf(b, f0, x);
    var c := PairKey(b, x);
    BigSlot(b, ss, c, s);
    if c % 256 != ss {
      SlotKept(b, ss, done, f0, f, c, s);
      SideOf(b, ss, c, s);
      Inside(f, Big(b, ss), cl, s);
      Inside(f, ch + 1, Big(b, ss + 1), s);
      assert false;
    }
    Narrower(f, Big(b, ss), Front(b, ss, ss), cl, cl, x);
    Narrower(f, ch + 1, ch + 1, Rear(b, ss, ss), Big(b, ss + 1), x);
  }

  lemma BigSlot(b: seq<byte>, ss: nat, c: nat, s: int)
    requires b != [] && ss < 256 && c < 65536 && c / 256 == ss && InSmall(b, c, s)
    ensures Big(b, ss) <= s < Big(b, ss + 1)
  {
    hide Edge;
    EdgeOrder(b, ss * 256, c);
    EdgeOrder(b, c + 1, (ss + 1) * 256);
  }

  lemma SideOf(b: seq<byte>, ss: nat, c: nat, s: int)
    requires b != [] && ss < 256 && c < 65536 && c != ss * 256 + ss && InSmall(b, c, s)
    ensures s < Front(b, ss, ss) || s >= Rear(b, ss, ss)
  {
    hide Edge;
    var m := ss * 256 + ss;
    if c < m { EdgeOrder(b, c + 1, m); } else { EdgeOrder(b, m + 1, c); }
  }

  lemma Inside(f: seq<int>, lo: int, hi: int, s: int)
    requires 0 <= lo <= hi <= |f|
    ensures lo <= s < hi ==> f[s] in f[lo..hi]
  {
    if lo <= s < hi { assert f[lo..hi][s - lo] == f[s]; }
  }

  lemma Narrower(f: seq<int>, lo: int, lo': int, hi': int, hi: int, x: int)
    requires 0 <= lo <= lo' <= hi' <= hi <= |f| && x !in f[lo..hi]
    ensures x !in f[lo'..hi']
  {
    if x in f[lo'..hi'] {
      var i :| 0 <= i < hi' - lo' && f[lo'..hi'][i] == x;
      Inside(f, lo, hi, lo' + i);
    }
  }

  /** The successor of a missing position, and where the scans stand. */
  lemma NextAt(b: seq<byte>, ss: nat, done: seq<bool>, f0: seq<int>, f: seq<int>, cs: seq<int>, ce: seq<int>, x: int)
    requires ss < 256 && |cs| == |ce| == 256 && Copying(b, ss, done, f0, f, cs, ce, cs[ss], ce[ss])
    requires Missing(b, ss, f, cs[ss], ce[ss], x)
    ensures 0 <= Big(b, ss) <= cs[ss] <= ce[ss] + 1 <= Big(b, ss + 1) <= |f| && 0 <= After(x, |b|) < |b|
    ensures Rot(b, After(x, |b|), 0) == ss && Rot(b, x, 0) == ss
    ensures Filling(b, ss, f, ss, cs[ss], ce[ss], false, cs[ss], ce[ss])
  {
    hide Edge, Leq, Preds, Sure, Kept, PairKey, Listing, Positions, Touched, SureAt, Filling;
    SuccessorIn(b, x, PairKey(b, x));
    assert Filling(b, ss, f, ss, cs[ss], ce[ss], done[ss], cs[ss], ce[ss]);
  }

  /** The scans have not passed what follows a missing position. */
  lemma NextNotPassed(b: seq<byte>, ss: nat, done: seq<bool>, f0: seq<int>, f: seq<int>, cs: seq<int>, ce: seq<int>, x: int)
    requires ss < 256 && |cs| == |ce| == 256 && Copying(b, ss, done, f0, f, cs, ce, cs[ss], ce[ss])
    requires Missing(b, ss, f, cs[ss], ce[ss], x)
    ensures 0 <= Big(b, ss) <= cs[ss] <= ce[ss] + 1 <= Big(b, ss + 1) <= |f| && 0 <= After(x, |b|) < |b|
    ensures Rot(b, After(x, |b|), 0) == ss
    ensures After(x, |b|) !in f[Big(b, ss)..cs[ss]] && After(x, |b|) !in f[ce[ss] + 1..Big(b, ss + 1)]
  {
    hide Edge, Leq, Preds, Sure, Kept, PairKey, Listing, Positions, Touched, SureAt, Fills;
    var cl, ch := cs[ss], ce[ss];
    NextAt(b, ss, done, f0, f, cs, ce, x);
    PassedPositions(b, ss, f, cl, ch);
    PredsHolds(b, f[Big(b, ss)..cl], ss, x);
    PredsHolds(b, f[ch + 1..Big(b, ss + 1)], ss, x);
  }

  /** What follows a missing position is missing too. */
  lemma MissingNext(b: seq<byte>, ss: nat, done: seq<bool>, f0: seq<int>, f: seq<int>, cs: seq<int>, ce: seq<int>, x: int)
    requires ss < 256 && |cs| == |ce| == 256 && Copying(b, ss, done, f0, f, cs, ce, cs[ss], ce[ss])
    requires Missing(b, ss, f, cs[ss], ce[ss], x)
    ensures Missing(b, ss, f, cs[ss], ce[ss], After(x, |b|))
  {
    hide Edge, Leq, Preds, Sure, Kept, PairKey, Listing, Positions, Touched, SureAt, Missing, Fills, Filling;
    NextNotPassed(b, ss, done, f0, f, cs, ce, x);
    NotPassedMissing(b, ss, done, f0, f, cs[ss], ce[ss], After(x, |b|));
  }

  lemma PassedPositions(b: seq<byte>, ss: nat, f: seq<int>, cl: int, ch: int)
    requires b != [] && |f| == |b| && Sure(b, ss, f, cl, ch) && Cursors(b, ss, cl, ch, cl, ch)
    ensures Positions(f[Big(b, ss)..cl], |b|) && Positions(f[ch + 1..Big(b, ss + 1)], |b|)
  {
    hide Edge, Leq, Placed;
    forall p {:trigger f[p]} | 0 <= p < |f| && SureAt(b, ss, cl, ch, p) ensures 0 <= f[p] < |b| {
    }
  }

  lemma {:induction false} MissingAll(b: seq<byte>, ss: nat, done: seq<bool>, f0: seq<int>, f: seq<int>,
                                      cs: seq<int>, ce: seq<int>,
                                      x: int, i: nat)
    requires b != [] && ss < 256 && |cs| == |ce| == 256 && Copying(b, ss, done, f0, f, cs, ce, cs[ss], ce[ss])
    requires Missing(b, ss, f, cs[ss], ce[ss], x)
    ensures Missing(b, ss, f, cs[ss], ce[ss], (x + i) % |b|)
  {
    hide Copying, Front, Rear, PairKey;
    WrapOnce(x, |b|);
    if i > 0 {
      MissingAll(b, ss, done, f0, f, cs, ce, x, i - 1);
      var y := (x + (i - 1)) % |b|;
      MissingNext(b, ss, done, f0, f, cs, ce, y);
      ModCongruent(x + (i - 1), 1, |b|);
      WrapOnce(y + 1, |b|);
    }
  }

  /** If the scans do not meet, something is missing. */
  lemma SomethingMissing(b: seq<byte>, ss: nat, f0: seq<int>, f: seq<int>, cl: int, ch: int) returns (x: int)
    requires b != [] && ss < 256 && |f| == |b| && Listing(b, f0) && Sure(b, ss, f, cl, ch) && Cursors(b, ss, cl, ch, cl, ch)
    requires cl <= ch
    ensures Missing(b, ss, f, cl, ch, x)
  {
    hide Edge, Leq, PairKey, Placed;
    var lo, hi, c := Front(b, ss, ss), Rear(b, ss, ss), ss * 256 + ss;
    var q := f[lo..cl] + f[ch + 1..hi];
    forall i {:trigger q[i]} | 0 <= i < |q| ensures q[i] == f[if i < cl - lo then lo + i else i - (cl - lo) + ch + 1] {
    }
    assert Distinct(q);
    SmallHolds(b, f0, c);
    Stretch(f0, lo, hi, q);
    x :| x in f0[Edge(b, c)..Edge(b, c + 1)] && x !in q;
  }

  lemma EverythingMissing(b: seq<byte>, ss: nat, done: seq<bool>, f0: seq<int>, f: seq<int>, cs: seq<int>,
                          ce: seq<int>, z: int)
    requires b != [] && ss < 256 && |cs| == |ce| == 256 && Copying(b, ss, done, f0, f, cs, ce, cs[ss], ce[ss])
    requires cs[ss] <= ce[ss]
    requires 0 <= z < |b|
    ensures Missing(b, ss, f, cs[ss], ce[ss], z)
  {
    hide Edge, Leq, PairKey, Sure, Fills, Kept;
    var x := SomethingMissing(b, ss, f0, f, cs[ss], ce[ss]);
    var i := if z >= x then z - x else z + |b| - x;
    MissingAll(b, ss, done, f0, f, cs, ce, x, i);
    WrapOnce(x + i, |b|);
  }

  /** Then the block holds one byte only. */
  ghost predicate OneByte(b: seq<byte>, ss: nat) {
    forall z {:trigger b[z]} | 0 <= z < |b| :: b[z] == ss
  }

  lemma OneByteEqual(b: seq<byte>, ss: nat, x: int, y: int)
    requires b != [] && OneByte(b, ss)
    ensures Leq(b, x, y)
  {
    assert Text(b, x, |b|) == Text(b, y, |b|);
    LeqEqual(b, x, y, |b|);
  }

  lemma NothingPassed(b: seq<byte>, ss: nat, done: seq<bool>, f0: seq<int>, f: seq<int>, cs: seq<int>, ce: seq<int>)
    requires b != [] && ss < 256 && |cs| == |ce| == 256 && Copying(b, ss, done, f0, f, cs, ce, cs[ss], ce[ss])
    requires cs[ss] <= ce[ss]
    ensures cs[ss] == Big(b, ss) && ce[ss] == Big(b, ss + 1) - 1 && f == f0
  {
    hide Edge, Leq, PairKey, Sure, Fills, Kept, Missing;
    if Big(b, ss) < cs[ss] {
      PassedPresent(b, ss, f, cs[ss], ce[ss], Big(b, ss));
      EverythingMissing(b, ss, done, f0, f, cs, ce, f[Big(b, ss)]);
      assert false;
    }
    if ce[ss] < Big(b, ss + 1) - 1 {
      PassedPresent(b, ss, f, cs[ss], ce[ss], Big(b, ss + 1) - 1);
      EverythingMissing(b, ss, done, f0, f, cs, ce, f[Big(b, ss + 1) - 1]);
      assert false;
    }
  }

  lemma CopyEndsEarly(b: seq<byte>, ss: nat, done: seq<bool>, f0: seq<int>, f: seq<int>, cs: seq<int>, ce: seq<int>)
    requires b != [] && ss < 256 && |cs| == |ce| == 256 && Copying(b, ss, done, f0, f, cs, ce, cs[ss], ce[ss])
    requires cs[ss] <= ce[ss]
    ensures cs[ss] == 0 && ce[ss] == |b| - 1 && OneByte(b, ss) && f == f0
  {
    hide Edge, Leq, Sure, Fills, Kept, Missing, PairKey, Listing;
    NothingPassed(b, ss, done, f0, f, cs, ce);
    forall z {:trigger b[z]} | 0 <= z < |b| ensures b[z] == ss {
      EverythingMissing(b, ss, done, f0, f, cs, ce, z);
      MissingByte(b, ss, f, cs[ss], ce[ss], z);
    }
    KeyAt(b, f0, 0);
    KeyAt(b, f0, |b| - 1);
    EverythingMissing(b, ss, done, f0, f, cs, ce, f0[0]);
    EverythingMissing(b, ss, done, f0, f, cs, ce, f0[|b| - 1]);
    MissingByte(b, ss, f, cs[ss], ce[ss], f0[0]);
    MissingByte(b, ss, f, cs[ss], ce[ss], f0[|b| - 1]);
  }

  lemma MissingByte(b: seq<byte>, ss: nat, f: seq<int>, cl: int, ch: int, z: int)
    requires b != [] && ss < 256 && Missing(b, ss, f, cl, ch, z)
    ensures 0 <= z < |b| && PairKey(b, z) == ss * 256 + ss && b[z] == ss
  {
    WrapOnce(z, |b|);
    assert PairKey(b, z) / 256 == ss;
  }

  /** The copy step ends as assertion 1007 says, with every bucket [t, ss] of an unfinished t sorted. */
  lemma CopyEnds(b: seq<byte>, ss: nat, done: seq<bool>, f0: seq<int>, f: seq<int>, cs: seq<int>, ce: seq<int>)
    requires ss < 256 && |cs| == |ce| == 256 && Copying(b, ss, done, f0, f, cs, ce, cs[ss], ce[ss])
    ensures cs[ss] - 1 == ce[ss] || (cs[ss] == 0 && ce[ss] == |b| - 1)
    ensures Copied(b, ss, done, f0, f)
  {
    hide Edge, Leq, Sure, Fills, OneByte;
    if cs[ss] - 1 == ce[ss] {
      CopyEndsFull(b, ss, done, f0, f, cs, ce);
    } else {
      CopyEndsEarly(b, ss, done, f0, f, cs, ce);
      forall x, y ensures Leq(b, x, y) {
        OneByteEqual(b, ss, x, y);
      }
    }
  }
}
