// The selectors as positions in a move-to-front list of the coding tables, and back.
module Selectors {
  import opened Permutations
  import opened Mtf
  import opened Coroutine

  ghost function MtfOf(sel: seq<int>, pos: seq<int>): (r: seq<int>)
    requires IsPermutation(pos) && InRange(sel, |pos|)
    ensures |r| == |sel| && InRange(r, |pos|)
  {
    if sel == [] then []
    else
      var j := IndexOf(pos, sel[0]);
      ToFrontPermutes(pos, j);
      [j] + MtfOf(sel[1..], ToFront(pos, j))
  }

  /** The decoder recovers the selectors. */
  lemma {:induction false} UnMtfUndoes(sel: seq<int>, pos: seq<int>)
    requires IsPermutation(pos) && InRange(sel, |pos|)
    ensures UnMtf(MtfOf(sel, pos), pos) == sel
  {
    if sel != [] {
      var j := IndexOf(pos, sel[0]);
      ToFrontPermutes(pos, j);
      UnMtfUndoes(sel[1..], ToFront(pos, j));
      assert MtfOf(sel, pos)[1..] == MtfOf(sel[1..], ToFront(pos, j));
    }
  }

  /** Find c and move it to the front; j is where it was. */
  method Find(pos: array<int>, c: int, ghost n: nat) returns (j: nat)
    requires 1 <= n <= pos.Length && c in pos[..n]
    modifies pos
    ensures j < n && old(pos[j]) == c && pos[..] == ToFront(old(pos[..]), j)
  {
    ghost var was := pos[..];
    ghost var at :| 0 <= at < n && was[at] == c;
    j := 0;
    var tmp := pos[0];
    while c != tmp
      invariant 0 <= j <= at && tmp == was[j]
      invariant forall k {:trigger pos[k]} | 0 <= k < pos.Length :: pos[k] == if 1 <= k <= j then was[k - 1] else was[k]
      decreases at - j
    {
      j := j + 1;
      var tmp2 := tmp;
      tmp := pos[j];
      pos[j] := tmp2;
    }
    pos[0] := tmp;
  }

  /** Take entry v out and put it in front. */
  method Take(pos: array<int>, v0: nat) returns (tmp: int)
    requires v0 < pos.Length
    modifies pos
    ensures tmp == old(pos[v0]) && pos[..] == ToFront(old(pos[..]), v0)
  {
    var v := v0;
    tmp := pos[v];
    while v > 0
      invariant 0 <= v <= v0
      invariant forall k {:trigger pos[k]} | 0 <= k < pos.Length ::
        pos[k] == if v < k <= v0 then old(pos[k - 1]) else old(pos[k])
    {
      pos[v] := pos[v - 1];
      v := v - 1;
    }
    pos[0] := tmp;
  }

  method EncodeSelectors(selector: seq<int>, nGroups: nat) returns (selectorMtf: seq<int>)
    requires 1 <= nGroups <= 6 && InRange(selector, nGroups)
    ensures |selectorMtf| == |selector| && InRange(selectorMtf, nGroups)
    ensures UnMtf(selectorMtf, Iota(nGroups)) == selector
  {
    var pos := StartList(nGroups, nGroups);
    assert pos[..nGroups] == pos[..];
    selectorMtf := [];
    var i := 0;
    while i < |selector|
      invariant 0 <= i <= |selector| && IsPermutation(pos[..]) && |selectorMtf| == i
      invariant selectorMtf + MtfOf(selector[i..], pos[..]) == MtfOf(selector, Iota(nGroups))
    {
      ghost var was := pos[..];
      InList(was, selector[i]);
      var j := Find(pos, selector[i], nGroups);
      MtfStep(selector, i, was, j);
      Assoc(selectorMtf, [j], MtfOf(selector[i + 1..], pos[..]));
      selectorMtf := selectorMtf + [j];
      i := i + 1;
    }
    MtfDone(selector, selectorMtf, pos[..], Iota(nGroups));
  }

  lemma InList(pos: seq<int>, c: int)
    requires IsPermutation(pos) && 0 <= c < |pos|
    ensures c in pos[..|pos|]
  {
    var k := IndexOf(pos, c);
    assert pos[..|pos|][k] == c;
  }

  lemma MtfStep(sel: seq<int>, i: nat, pos: seq<int>, j: nat)
    requires i < |sel| && IsPermutation(pos) && InRange(sel, |pos|) && j < |pos| && pos[j] == sel[i]
    ensures IsPermutation(ToFront(pos, j)) && MtfOf(sel[i..], pos) == [j] + MtfOf(sel[i + 1..], ToFront(pos, j))
  {
    ToFrontPermutes(pos, j);
    assert sel[i..][1..] == sel[i + 1..] && IndexOf(pos, sel[i..][0]) == j;
  }

  lemma MtfDone(sel: seq<int>, r: seq<int>, pos: seq<int>, start: seq<int>)
    requires IsPermutation(pos) && IsPermutation(start) && InRange(sel, |start|)
    requires r + MtfOf(sel[|sel|..], pos) == MtfOf(sel, start)
    ensures InRange(r, |start|) && |r| == |sel| && UnMtf(r, start) == sel
  {
    assert sel[|sel|..] == [] && r + [] == r;
    UnMtfUndoes(sel, start);
  }

  method DecodeSelectors(selectorMtf: seq<int>, nGroups: nat) returns (selector: seq<int>)
    requires 1 <= nGroups <= 6 && InRange(selectorMtf, nGroups)
    ensures selector == UnMtf(selectorMtf, Iota(nGroups))
  {
    var pos := StartList(nGroups, nGroups);
    assert pos[..nGroups] == pos[..];
    selector := [];
    var i := 0;
    while i < |selectorMtf|
      invariant 0 <= i <= |selectorMtf| && pos.Length == nGroups
      invariant selector + UnMtf(selectorMtf[i..], pos[..]) == UnMtf(selectorMtf, Iota(nGroups))
    {
      ghost var was := pos[..];
      var tmp := Take(pos, selectorMtf[i]);
      assert selectorMtf[i..][1..] == selectorMtf[i + 1..];
      selector := selector + [tmp];
      i := i + 1;
    }
  }
}
