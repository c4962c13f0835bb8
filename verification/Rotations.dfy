// Rotations of a block, their lexicographic order, and what "sorted order" means for a block
// whose rotations may repeat.
module Rotations {
  import opened Permutations

  /** Byte k of the rotation that starts at i. */
  function Rot(b: seq<byte>, i: int, k: int): byte
    requires b != []
  {
    b[(i + k) % |b|]
  }

  /** The first h bytes of the rotation that starts at i. */
  function Text(b: seq<byte>, i: int, h: nat): (t: seq<byte>)
    requires b != []
    ensures |t| == h
  {
    seq(h, k requires 0 <= k < h => Rot(b, i, k))
  }

  /** Strict lexicographic order on texts of one length. */
  predicate Less(s: seq<byte>, t: seq<byte>)
    requires |s| == |t|
  {
    s != [] && (s[0] < t[0] || (s[0] == t[0] && Less(s[1..], t[1..])))
  }

  lemma {:induction false} LessTotal(s: seq<byte>, t: seq<byte>)
    requires |s| == |t|
    ensures Less(s, t) || s == t || Less(t, s)
    ensures !(Less(s, t) && Less(t, s))
    ensures !Less(s, s)
  {
    if s != [] {
      LessTotal(s[1..], t[1..]);
      assert s == [s[0]] + s[1..] && t == [t[0]] + t[1..];
      LessTotal(s[1..], s[1..]);
    }
  }

  lemma {:induction false} LessTransitive(s: seq<byte>, t: seq<byte>, u: seq<byte>)
    requires |s| == |t| == |u|
    ensures Less(s, t) && Less(t, u) ==> Less(s, u)
  {
    if s != [] {
      LessTransitive(s[1..], t[1..], u[1..]);
    }
  }

  /** Texts compare by their first parts, and by their second parts when the first agree. */
  lemma {:induction false} LessAppend(s: seq<byte>, s': seq<byte>, t: seq<byte>, t': seq<byte>)
    requires |s| == |t| && |s'| == |t'|
    ensures Less(s + s', t + t') <==> Less(s, t) || (s == t && Less(s', t'))
  {
    if s == [] {
      assert s + s' == s' && t + t' == t';
    } else {
      LessAppend(s[1..], s', t[1..], t');
      assert (s + s')[1..] == s[1..] + s' && (t + t')[1..] == t[1..] + t';
      assert s == [s[0]] + s[1..] && t == [t[0]] + t[1..];
    }
  }

  lemma ModCongruent(i: int, k: int, n: nat)
    requires n > 0
    ensures (i % n + k) % n == (i + k) % n
  {
    var q := i / n;
    assert i == n * q + i % n;
    var j := i % n + k;
    var r := j / n;
    assert i + k == n * (q + r) + j % n;
    ModUnique(i + k, q + r, j % n, n);
  }

  lemma ModUnique(x: int, q: int, r: int, n: nat)
    requires 0 <= r < n && x == n * q + r
    ensures x % n == r && x / n == q
  {
    var d := x / n - q;
    assert n * d == r - x % n by {
      assert x == n * (x / n) + x % n;
    }
    MulStep(n, d);
  }

  lemma MulStep(n: int, d: int)
    requires n > 0
    ensures d >= 1 ==> n * d >= n
    ensures d <= -1 ==> n * d <= -n
  {
  }

  /** A starting place only matters modulo the block length. */
  lemma TextModulo(b: seq<byte>, i: int, h: nat)
    requires b != []
    ensures Text(b, i % |b|, h) == Text(b, i, h)
  {
    forall k | 0 <= k < h ensures Rot(b, i % |b|, k) == Rot(b, i, k) {
      ModCongruent(i, k, |b|);
    }
  }

  lemma TextSplit(b: seq<byte>, i: int, h: nat, g: nat)
    requires b != []
    ensures Text(b, i, h + g) == Text(b, i, h) + Text(b, i + h, g)
  {
    var whole, parts := Text(b, i, h + g), Text(b, i, h) + Text(b, i + h, g);
    forall k | 0 <= k < |whole| ensures whole[k] == parts[k] {
      if k >= h {
        assert Rot(b, i, k) == Rot(b, i + h, k - h);
      }
    }
  }

  lemma WrapOnce(i: int, n: nat)
    requires n > 0
    ensures 0 <= i < n ==> i % n == i
    ensures n <= i < 2 * n ==> i % n == i - n
    ensures 0 - n <= i < 0 ==> i % n == i + n
  {
    if 0 <= i < n {
      ModUnique(i, 0, i, n);
    } else if n <= i < 2 * n {
      ModUnique(i, 1, i - n, n);
    } else if 0 - n <= i < 0 {
      ModUnique(i, -1, i + n, n);
    }
  }

  /** Rotations that agree over the whole block agree for ever. */
  lemma {:induction false} TextForever(b: seq<byte>, i: int, j: int, h: nat)
    requires b != [] && Text(b, i, |b|) == Text(b, j, |b|)
    ensures Text(b, i, h) == Text(b, j, h)
  {
    forall k | 0 <= k < h ensures Rot(b, i, k) == Rot(b, j, k) {
      var m := k % |b|;
      ModCongruent(k, i, |b|);
      ModCongruent(k, j, |b|);
      assert Text(b, i, |b|)[m] == Text(b, j, |b|)[m];
      assert Rot(b, i, m) == Rot(b, j, m);
    }
  }

  /** Neighbours in p never descend when their first h bytes are compared. */
  ghost predicate SortedOn(b: seq<byte>, p: seq<int>, h: nat)
    requires b != []
  {
    forall x, y | 0 <= x < y < |p| :: !Less(Text(b, p[y], h), Text(b, p[x], h))
  }

  /** p lists every rotation of b once, in non-descending order. */
  ghost predicate RowOrder(b: seq<byte>, p: seq<int>) {
    b != [] && |p| == |b| && IsPermutation(p) && SortedOn(b, p, |b|)
  }

  /** Sorting on h >= |b| bytes is sorting whole rotations. */
  lemma SortedBeyond(b: seq<byte>, p: seq<int>, h: nat)
    requires b != [] && |b| <= h && SortedOn(b, p, h)
    ensures SortedOn(b, p, |b|)
  {
    var n := |b|;
    forall x, y | 0 <= x < y < |p| ensures !Less(Text(b, p[y], n), Text(b, p[x], n)) {
      TextSplit(b, p[x], n, h - n);
      TextSplit(b, p[y], n, h - n);
      LessAppend(Text(b, p[y], n), Text(b, p[y] + n, h - n), Text(b, p[x], n), Text(b, p[x] + n, h - n));
    }
  }

  /** Two sorted listings of the rotations show equal rotations row by row. */
  lemma RowsAgree(b: seq<byte>, p: seq<int>, q: seq<int>, k: nat)
    requires RowOrder(b, p) && RowOrder(b, q) && k < |b|
    ensures Text(b, p[k], |b|) == Text(b, q[k], |b|)
  {
    LessTotal(Text(b, p[k], |b|), Text(b, q[k], |b|));
    RowNotBelow(b, p, q, k);
    RowNotBelow(b, q, p, k);
  }

  /** If row k of p were below row k of q, the k+1 first rows of p would all lie in the k first of q. */
  lemma RowNotBelow(b: seq<byte>, p: seq<int>, q: seq<int>, k: nat)
    requires RowOrder(b, p) && RowOrder(b, q) && k < |b|
    ensures !Less(Text(b, p[k], |b|), Text(b, q[k], |b|))
  {
    var n := |b|;
    if Less(Text(b, p[k], n), Text(b, q[k], n)) {
      forall x | x in Elements(p[..k + 1]) ensures x in Elements(q[..k]) {
        var a :| 0 <= a <= k && p[a] == x;
        LessTotal(Text(b, p[a], n), Text(b, p[k], n));
        LessTransitive(Text(b, p[a], n), Text(b, p[k], n), Text(b, q[k], n));
        var m := IndexOf(q, x);
        LessTotal(Text(b, q[m], n), Text(b, q[k], n));
        assert m < k;
        assert q[..k][m] == x;
      }
      DistinctSize(p[..k + 1]);
      DistinctSize(q[..k]);
      SubsetSize(Elements(p[..k + 1]), Elements(q[..k]));
    }
  }

  /** The byte before each row's rotation: the last column of the sorted matrix. */
  function LastColumn(b: seq<byte>, p: seq<int>): (l: seq<byte>)
    requires b != []
    ensures |l| == |p|
  {
    seq(|p|, k requires 0 <= k < |p| => Rot(b, p[k], -1))
  }

  /** Whatever sorter ran, and however it placed equal rotations, the last column is the same. */
  lemma LastColumnUnique(b: seq<byte>, p: seq<int>, q: seq<int>)
    requires RowOrder(b, p) && RowOrder(b, q)
    ensures LastColumn(b, p) == LastColumn(b, q)
  {
    var n := |b|;
    forall k | 0 <= k < n ensures Rot(b, p[k], -1) == Rot(b, q[k], -1) {
      RowsAgree(b, p, q, k);
      LastByte(b, p[k]);
      LastByte(b, q[k]);
    }
  }

  lemma LastByte(b: seq<byte>, i: int)
    requires b != []
    ensures Rot(b, i, -1) == Text(b, i, |b|)[|b| - 1]
  {
    var n := |b|;
    var q, r := (i - 1) / n, (i - 1) % n;
    assert i - 1 == n * q + r;
    assert i + (n - 1) == n * (q + 1) + r;
    ModUnique(i + (n - 1), q + 1, r, n);
    assert Rot(b, i, -1) == b[(i + -1) % n];
  }
}
