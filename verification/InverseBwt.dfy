// The inverse Burrows-Wheeler transform: a stable sort of the last column, followed nblock times,
// rebuilds the block whatever its period and wherever the sorter left equal rotations.
module InverseBwt {
  import opened Permutations
  import opened Rotations
  import opened Bits

  /** t lists the positions of l by byte, and by position within one byte. */
  ghost predicate StableOrder(l: seq<byte>, t: seq<int>) {
    |t| == |l| && InRange(t, |l|) &&
    forall x, y | 0 <= x < y < |t| :: l[t[x]] < l[t[y]] || (l[t[x]] == l[t[y]] && t[x] < t[y])
  }

  lemma SortedOnPrefix(b: seq<byte>, i: int, j: int, h: nat, g: nat)
    requires b != [] && g <= h && !Less(Text(b, j, h), Text(b, i, h))
    ensures !Less(Text(b, j, g), Text(b, i, g))
  {
    TextSplit(b, i, g, h - g);
    TextSplit(b, j, g, h - g);
    LessAppend(Text(b, j, g), Text(b, j + g, h - g), Text(b, i, g), Text(b, i + g, h - g));
  }

  /** The rotations one byte to the left of each row, read in the order t. */
  ghost function LeftRows(b: seq<byte>, p: seq<int>, t: seq<int>): (u: seq<int>)
    requires RowOrder(b, p) && StableOrder(LastColumn(b, p), t)
    ensures |u| == |b|
  {
    seq(|b|, k requires 0 <= k < |b| => (p[t[k]] - 1) % |b|)
  }

  lemma LeftRowsPermutation(b: seq<byte>, p: seq<int>, t: seq<int>)
    requires RowOrder(b, p) && StableOrder(LastColumn(b, p), t)
    ensures IsPermutation(LeftRows(b, p, t))
  {
    var u, n := LeftRows(b, p, t), |b|;
    forall x, y | 0 <= x < y < n ensures u[x] != u[y] {
      assert t[x] != t[y];
      assert p[t[x]] != p[t[y]];
      WrapOnce(p[t[x]] - 1, n);
      WrapOnce(p[t[y]] - 1, n);
    }
  }

  lemma LeftText(b: seq<byte>, p: seq<int>, t: seq<int>, k: nat)
    requires RowOrder(b, p) && StableOrder(LastColumn(b, p), t) && k < |b|
    ensures var u := LeftRows(b, p, t);
      Text(b, u[k], |b|) == [LastColumn(b, p)[t[k]]] + Text(b, p[t[k]], |b| - 1)
  {
    var r := p[t[k]];
    TextModulo(b, r - 1, |b|);
    TextSplit(b, r - 1, 1, |b| - 1);
    assert Text(b, r - 1, 1) == [Rot(b, r, -1)];
  }

  lemma LeftRowsSorted(b: seq<byte>, p: seq<int>, t: seq<int>)
    requires RowOrder(b, p) && StableOrder(LastColumn(b, p), t)
    ensures SortedOn(b, LeftRows(b, p, t), |b|)
  {
    var u, n, l := LeftRows(b, p, t), |b|, LastColumn(b, p);
    forall x, y | 0 <= x < y < |u| ensures !Less(Text(b, u[y], n), Text(b, u[x], n)) {
      LeftText(b, p, t, x);
      LeftText(b, p, t, y);
      LessAppend([l[t[y]]], Text(b, p[t[y]], n - 1), [l[t[x]]], Text(b, p[t[x]], n - 1));
      if l[t[x]] == l[t[y]] {
        SortedOnPrefix(b, p[t[x]], p[t[y]], n, n - 1);
      }
    }
  }

  /** One step of t from row k lands on a row showing the rotation one byte further on. */
  lemma StepAdvances(b: seq<byte>, p: seq<int>, t: seq<int>, k: nat)
    requires RowOrder(b, p) && StableOrder(LastColumn(b, p), t) && k < |b|
    ensures Text(b, p[t[k]], |b|) == Text(b, p[k] + 1, |b|)
  {
    var u, n := LeftRows(b, p, t), |b|;
    LeftRowsPermutation(b, p, t);
    LeftRowsSorted(b, p, t);
    RowsAgree(b, u, p, k);
    TextForever(b, u[k], p[k], 1 + n);
    TextSplit(b, u[k], 1, n);
    TextSplit(b, p[k], 1, n);
    assert Text(b, u[k] + 1, n) == Text(b, u[k], 1 + n)[1..];
    assert Text(b, p[k] + 1, n) == Text(b, p[k], 1 + n)[1..];
    TextModulo(b, p[t[k]] - 1, 1 + n);
    TextSplit(b, p[t[k]] - 1, 1, n);
    assert Text(b, p[t[k]], n) == Text(b, u[k], 1 + n)[1..];
  }

  /** The row reached from r by following t for j steps. */
  function Walk(t: seq<int>, r: int, j: nat): (w: int)
    requires InRange(t, |t|) && 0 <= r < |t|
    ensures 0 <= w < |t|
  {
    if j == 0 then r else t[Walk(t, r, j - 1)]
  }

  lemma {:induction false} WalkShows(b: seq<byte>, p: seq<int>, t: seq<int>, r: int, j: nat)
    requires RowOrder(b, p) && StableOrder(LastColumn(b, p), t) && 0 <= r < |b|
    ensures Text(b, p[Walk(t, r, j)], |b|) == Text(b, p[r] + j, |b|)
  {
    if j > 0 {
      WalkShows(b, p, t, r, j - 1);
      var k := Walk(t, r, j - 1);
      StepAdvances(b, p, t, k);
      NextText(b, p[k], p[r] + j - 1);
    }
  }

  lemma NextText(b: seq<byte>, i: int, j: int)
    requires b != [] && Text(b, i, |b|) == Text(b, j, |b|)
    ensures Text(b, i + 1, |b|) == Text(b, j + 1, |b|)
  {
    TextForever(b, i, j, 1 + |b|);
    TextSplit(b, i, 1, |b|);
    TextSplit(b, j, 1, |b|);
    assert Text(b, i + 1, |b|) == Text(b, i, 1 + |b|)[1..];
    assert Text(b, j + 1, |b|) == Text(b, j, 1 + |b|)[1..];
  }

  /** Byte j of the decoder's endless walk is byte j of the block, round and round. */
  lemma WalkSpells(b: seq<byte>, p: seq<int>, t: seq<int>, origPtr: int, j: nat)
    requires RowOrder(b, p) && StableOrder(LastColumn(b, p), t)
    requires 0 <= origPtr < |b| && p[origPtr] == 0
    ensures LastColumn(b, p)[Walk(t, origPtr, j + 1)] == Rot(b, j, 0)
  {
    var w := Walk(t, origPtr, j + 1);
    WalkShows(b, p, t, origPtr, j + 1);
    PrecedingByte(b, p[w], j + 1);
  }

  lemma PrecedingByte(b: seq<byte>, i: int, j: int)
    requires b != [] && Text(b, i, |b|) == Text(b, j, |b|)
    ensures Rot(b, i, -1) == Rot(b, j - 1, 0)
  {
    LastByte(b, i);
    LastByte(b, j);
    assert j + -1 == j - 1 + 0;
  }

  /** What a decoder reads: |l| bytes of the last column along t, starting behind origPtr. */
  function Unsorted(l: seq<byte>, t: seq<int>, origPtr: int): (b: seq<byte>)
    requires |t| == |l| && InRange(t, |t|) && 0 <= origPtr < |l|
    ensures |b| == |l|
  {
    seq(|l|, j requires 0 <= j < |l| => l[Walk(t, origPtr, j + 1)])
  }

  /** The inverse transform undoes the forward one, for every block and every sorted listing. */
  lemma InverseUndoesForward(b: seq<byte>, p: seq<int>, t: seq<int>, origPtr: int)
    requires RowOrder(b, p) && StableOrder(LastColumn(b, p), t)
    requires 0 <= origPtr < |b| && p[origPtr] == 0
    ensures Unsorted(LastColumn(b, p), t, origPtr) == b
  {
    var u := Unsorted(LastColumn(b, p), t, origPtr);
    forall j | 0 <= j < |b| ensures u[j] == b[j] {
      WalkSpells(b, p, t, origPtr, j);
      RotInside(b, j);
    }
  }

  lemma RotInside(b: seq<byte>, j: nat)
    requires j < |b|
    ensures Rot(b, j, 0) == b[j]
  {
    WrapOnce(j, |b|);
  }
}
