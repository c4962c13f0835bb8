// The decoder's move-to-front list: 16 groups of 16 entries that slide down a large array, so that moving an
// entry to the front shifts one group and moves one entry of each group before it.
module SlidingMtf {
  import opened Mtf

  const MTFA_SIZE := 4096
  const MTFL_SIZE := 16

  /** Entry o of group k. */
  function Cell(a: seq<int>, base: seq<int>, k: int, o: int): int
    requires Spread(a, base) && 0 <= k < 16 && 0 <= o < 16
  {
    a[base[k] + o]
  }

  /** The groups lie in order inside the array and do not overlap. */
  ghost predicate Spread(a: seq<int>, base: seq<int>) {
    |a| == MTFA_SIZE && |base| == 16 &&
    forall k {:trigger base[k]} | 0 <= k < 16 :: Lowest(base, k) <= base[k] <= MTFA_SIZE - 256 + 16 * k
  }

  function Lowest(base: seq<int>, k: int): int
    requires 0 <= k < 16 == |base|
  {
    if k == 0 then 0 else base[k - 1] + MTFL_SIZE
  }

  ghost function ListOf(a: seq<int>, base: seq<int>): (l: seq<int>)
    requires Spread(a, base)
    ensures |l| == 256
  {
    seq(256, i requires 0 <= i < 256 => Cell(a, base, i / 16, i % 16))
  }

  lemma {:induction false} GroupsApart(a: seq<int>, base: seq<int>, j: nat, k: nat)
    requires Spread(a, base) && j < k < 16
    ensures base[j] + MTFL_SIZE * (k - j) <= base[k]
  {
    assert Lowest(base, k) <= base[k];
    if j < k - 1 { GroupsApart(a, base, j, k - 1); }
  }

  // ----- moving entry off of group g to the front, with groups above lno already done

  /** What entry o of group k is afterwards. */
  function Want(was: seq<int>, base: seq<int>, g: int, off: int, k: int, o: int): int
    requires Spread(was, base) && 0 <= g < 16 && 0 <= off < 16 && 0 <= k < 16 && 0 <= o < 16
  {
    if k > g || (k == g && o > off) then was[base[k] + o]
    else if o >= 1 then was[base[k] + o - 1]
    else if k >= 1 then was[base[k - 1] + 15]
    else was[base[g] + off]
  }

  function NewBase(base: seq<int>, g: int, k: int): int
    requires |base| == 16 && 0 <= k < 16
  {
    if k < g then base[k] - 1 else base[k]
  }

  ghost predicate At(a: seq<int>, x: int, v: int) {
    0 <= x < |a| && a[x] == v
  }

  ghost predicate Placed(a: seq<int>, base': seq<int>, was: seq<int>, base: seq<int>, g: int, off: int, lno: int,
                         k: int, o: int)
    requires Spread(was, base) && |base'| == 16 && 0 <= g < 16 && 0 <= off < 16 && 0 <= k < 16 && 0 <= o < 16
  {
    if k > lno then base'[k] == NewBase(base, g, k) && At(a, NewBase(base, g, k) + o, Want(was, base, g, off, k, o))
    else if k == g then base'[k] == base[k] + 1 && (o >= 1 ==> At(a, base[k] + o, Want(was, base, g, off, k, o)))
    else base'[k] == base[k] && At(a, base[k] + o, was[base[k] + o])
  }

  ghost predicate AllPlaced(a: seq<int>, base': seq<int>, was: seq<int>, base: seq<int>, g: int, off: int, lno: int) {
    Spread(was, base) && base[0] >= 1 && |a| == MTFA_SIZE && |base'| == 16 && 1 <= g < 16 && 0 <= off < 16 &&
    forall k, o {:trigger Placed(a, base', was, base, g, off, lno, k, o)} | 0 <= k < 16 && 0 <= o < 16 ::
      Placed(a, base', was, base, g, off, lno, k, o)
  }

  /** The front entry of group lno becomes what was last in the group before it. */
  lemma SlideStep(a: seq<int>, base': seq<int>, was: seq<int>, base: seq<int>, g: int, off: int, lno: int)
    requires AllPlaced(a, base', was, base, g, off, lno) && 0 < lno <= g
    ensures base'[lno] - 1 == NewBase(base, g, lno) && 0 <= base'[lno] - 1 < MTFA_SIZE && base'[lno - 1] == base[lno - 1]
    ensures AllPlaced(a[base'[lno] - 1 := was[base[lno - 1] + 15]], base'[lno := base'[lno] - 1], was, base, g, off, lno - 1)
    ensures a[base[lno - 1] + 15] == was[base[lno - 1] + 15]
  {
    hide Want, Cell, Spread;
    var x, m := base'[lno] - 1, lno - 1;
    SlotAside(was, base, g, lno, 0, 0);
    assert Placed(a, base', was, base, g, off, lno, lno, 0) && Placed(a, base', was, base, g, off, lno, m, 15);
    GroupsApart(was, base, m, lno);
    var a', b' := a[x := was[base[m] + 15]], base'[lno := x];
    forall k, o | 0 <= k < 16 && 0 <= o < 16 ensures Placed(a', b', was, base, g, off, m, k, o) {
      SlideStepAt(a, base', was, base, g, off, lno, k, o);
    }
  }

  lemma SlideStepAt(a: seq<int>, base': seq<int>, was: seq<int>, base: seq<int>, g: int, off: int, lno: int, k: int, o: int)
    requires AllPlaced(a, base', was, base, g, off, lno) && 0 < lno <= g && 0 <= k < 16 && 0 <= o < 16
    requires base'[lno] - 1 == NewBase(base, g, lno) && 0 <= base'[lno] - 1 < MTFA_SIZE
    ensures Placed(a[base'[lno] - 1 := was[base[lno - 1] + 15]], base'[lno := base'[lno] - 1], was, base, g, off,
                   lno - 1, k, o)
  {
    hide Spread, Want, Cell;
    assert Placed(a, base', was, base, g, off, lno, k, o);
    SlotAside(was, base, g, lno, k, o);
    if k == lno {
      if o >= 1 { assert Placed(a, base', was, base, g, off, lno, k, o - 1); }
      SlideStepHere(a, base', was, base, g, off, lno, o);
    } else {
      PlacedKept(a, base', was, base, g, off, lno, k, o, base'[lno] - 1, was[base[lno - 1] + 15]);
    }
  }

  /** The slot in front of group lno is no entry of another group. */
  lemma SlotAside(was: seq<int>, base: seq<int>, g: int, lno: int, k: int, o: int)
    requires Spread(was, base) && 0 < lno <= g < 16 && 0 <= k < 16 && 0 <= o < 16
    ensures |base| == 16 && 0 <= base[lno - 1] && base[lno - 1] + 15 < |was|
    ensures k > lno ==> NewBase(base, g, k) + o != NewBase(base, g, lno)
    ensures k < lno ==> base[k] + o != NewBase(base, g, lno) || (k == lno - 1 && o == 15)
    ensures 0 <= NewBase(base, g, lno) < MTFA_SIZE
  {
    GroupsApart(was, base, lno - 1, lno);
    assert Lowest(base, lno - 1) <= base[lno - 1];
    if k > lno { GroupsApart(was, base, lno, k); }
    if k < lno - 1 { GroupsApart(was, base, k, lno - 1); }
  }

  /** An entry of another group stays placed. */
  lemma PlacedKept(a: seq<int>, base': seq<int>, was: seq<int>, base: seq<int>, g: int, off: int, lno: int, k: int, o: int,
                   x: int, v: int)
    requires Spread(was, base) && |base'| == 16 && 0 <= g < 16 && 0 <= off < 16 && 0 <= k < 16 && 0 <= o < 16
    requires 0 <= lno < 16
    requires Placed(a, base', was, base, g, off, lno, k, o) && k != lno <= g && 0 <= x < |a|
    requires k > lno ==> NewBase(base, g, k) + o != x
    requires k < lno ==> base[k] + o != x || (0 <= x < |was| && v == was[x])
    ensures Placed(a[x := v], base'[lno := x], was, base, g, off, lno - 1, k, o)
  {
    hide Spread, Want;
  }

  /** The group that takes the entry. */
  lemma SlideStepHere(a: seq<int>, base': seq<int>, was: seq<int>, base: seq<int>, g: int, off: int, lno: int, o: int)
    requires Spread(was, base) && |base'| == 16 && 0 < lno <= g < 16 && 0 <= off < 16 && 0 <= o < 16
    requires base'[lno] - 1 == NewBase(base, g, lno) && 0 <= base'[lno] - 1 < |a|
    requires 0 <= base[lno - 1] && base[lno - 1] + 15 < |was|
    requires Placed(a, base', was, base, g, off, lno, lno, o)
    requires o >= 1 ==> Placed(a, base', was, base, g, off, lno, lno, o - 1)
    ensures Placed(a[base'[lno] - 1 := was[base[lno - 1] + 15]], base'[lno := base'[lno] - 1], was, base, g, off,
                   lno - 1, lno, o)
  {
  }

  /** The entry itself goes in front of group 0. */
  lemma SlideEnd(a: seq<int>, base': seq<int>, was: seq<int>, base: seq<int>, g: int, off: int)
    requires AllPlaced(a, base', was, base, g, off, 0)
    ensures base'[0] - 1 == base[0] - 1 >= 0
    ensures AllPlaced(a[base[0] - 1 := was[base[g] + off]], base'[0 := base[0] - 1], was, base, g, off, -1)
  {
    var x := base[0] - 1;
    assert Placed(a, base', was, base, g, off, 0, 0, 0);
    var a', b' := a[x := was[base[g] + off]], base'[0 := x];
    forall k, o | 0 <= k < 16 && 0 <= o < 16 ensures Placed(a', b', was, base, g, off, -1, k, o) {
      assert Placed(a, base', was, base, g, off, 0, k, o);
      if k > 0 {
        GroupsApart(was, base, 0, k);
      } else if o >= 1 {
        assert Placed(a, base', was, base, g, off, 0, 0, o - 1);
      }
    }
  }

  lemma PlacedSpread(a: seq<int>, base': seq<int>, was: seq<int>, base: seq<int>, g: int, off: int)
    requires AllPlaced(a, base', was, base, g, off, -1)
    ensures Spread(a, base') && base'[0] == base[0] - 1
  {
    forall k | 0 <= k < 16 ensures base'[k] == NewBase(base, g, k) {
      assert Placed(a, base', was, base, g, off, -1, k, 0);
    }
    forall k | 0 <= k < 16 ensures Lowest(base', k) <= base'[k] <= MTFA_SIZE - 256 + 16 * k {
      assert Lowest(base, k) <= base[k];
    }
  }

  /** When every group has been placed, the list is the old one with the entry moved to the front. */
  lemma PlacedToFront(a: seq<int>, base': seq<int>, was: seq<int>, base: seq<int>, g: int, off: int)
    requires AllPlaced(a, base', was, base, g, off, -1)
    ensures Spread(a, base') && base'[0] == base[0] - 1
    ensures ListOf(a, base') == ToFront(ListOf(was, base), 16 * g + off)
  {
    hide ToFront, ListOf, Want, Cell;
    PlacedSpread(a, base', was, base, g, off);
    forall i | 0 <= i < 256 ensures ListOf(a, base')[i] == ToFront(ListOf(was, base), 16 * g + off)[i] {
      var k, o := i / 16, i % 16;
      assert Placed(a, base', was, base, g, off, -1, k, o);
      WantIsToFront(was, base, g, off, k, o);
      ListAt(a, base', k, o);
    }
  }

  lemma ListAt(a: seq<int>, base: seq<int>, k: int, o: int)
    requires Spread(a, base) && 0 <= k < 16 && 0 <= o < 16
    ensures ListOf(a, base)[16 * k + o] == a[base[k] + o]
  {
    var i := 16 * k + o;
    assert i / 16 == k && i % 16 == o;
    assert ListOf(a, base)[i] == Cell(a, base, k, o);
  }

  lemma ToFrontCell(l: seq<int>, g: int, off: int, k: int, o: int)
    requires |l| == 256 && 0 <= g < 16 && 0 <= off < 16 && 0 <= k < 16 && 0 <= o < 16
    ensures ToFront(l, 16 * g + off)[16 * k + o]
         == if k > g || (k == g && o > off) then l[16 * k + o]
            else if o >= 1 then l[16 * k + (o - 1)]
            else if k >= 1 then l[16 * (k - 1) + 15]
            else l[16 * g + off]
  {
  }

  lemma WantIsToFront(was: seq<int>, base: seq<int>, g: int, off: int, k: int, o: int)
    requires Spread(was, base) && 0 <= g < 16 && 0 <= off < 16 && 0 <= k < 16 && 0 <= o < 16
    ensures ToFront(ListOf(was, base), 16 * g + off)[16 * k + o] == Want(was, base, g, off, k, o)
  {
    hide ToFront, ListOf, Spread, Cell;
    ToFrontCell(ListOf(was, base), g, off, k, o);
    if k > g || (k == g && o > off) {
      ListAt(was, base, k, o);
    } else if o >= 1 {
      ListAt(was, base, k, o - 1);
    } else if k >= 1 {
      ListAt(was, base, k - 1, 15);
    } else {
      ListAt(was, base, g, off);
    }
  }

  // ----- the array

  class SlidingList {
    const mtfa: array<int>
    const mtfbase: array<int>

    ghost predicate Valid()
      reads this, mtfa, mtfbase
    {
      mtfa != mtfbase && Spread(mtfa[..], mtfbase[..]) && mtfbase[0] >= 1
    }

    /** The list as it would stand in a plain array. */
    ghost function List(): (l: seq<int>)
      requires Valid()
      reads this, mtfa, mtfbase
      ensures |l| == 256
    {
      ListOf(mtfa[..], mtfbase[..])
    }

    constructor ()
      ensures fresh(mtfa) && fresh(mtfbase) && mtfa.Length == MTFA_SIZE && mtfbase.Length == 16 && mtfa != mtfbase
    {
      mtfa := new int[MTFA_SIZE];
      mtfbase := new int[16];
    }

    /** The list 0, 1, ..., 255 at the top of the array. */
    method Init()
      requires mtfa.Length == MTFA_SIZE && mtfbase.Length == 16 && mtfa != mtfbase
      modifies mtfa, mtfbase
      ensures Valid() && List() == seq(256, i => i)
    {
      var kk := MTFA_SIZE - 1;
      var ii := 15;
      while ii >= 0
        invariant -1 <= ii <= 15 && kk == MTFA_SIZE - 256 + 16 * ii + 15
        invariant forall k {:trigger mtfbase[k]} | ii < k < 16 :: mtfbase[k] == MTFA_SIZE - 256 + 16 * k
        invariant forall x {:trigger mtfa[x]} | kk < x < MTFA_SIZE :: mtfa[x] == x - (MTFA_SIZE - 256)
      {
        var jj := 15;
        while jj >= 0
          invariant -1 <= jj <= 15 && kk == MTFA_SIZE - 256 + 16 * ii + jj
          invariant forall k {:trigger mtfbase[k]} | ii < k < 16 :: mtfbase[k] == MTFA_SIZE - 256 + 16 * k
          invariant forall x {:trigger mtfa[x]} | kk < x < MTFA_SIZE :: mtfa[x] == x - (MTFA_SIZE - 256)
        {
          mtfa[kk] := ii * MTFL_SIZE + jj;
          kk := kk - 1;
          jj := jj - 1;
        }
        mtfbase[ii] := kk + 1;
        ii := ii - 1;
      }
    }

    /** Shift entries 0..off-1 of the group at pp up by one place, four at a time; entry off is lost. */
    method ShiftGroup0(off: nat)
      requires mtfa != mtfbase && mtfbase.Length == 16 && off < 16 && 0 <= mtfbase[0] && mtfbase[0] + 16 <= mtfa.Length
      modifies mtfa
      ensures forall x {:trigger mtfa[x]} | 0 <= x < mtfa.Length ::
        mtfa[x] == if mtfbase[0] < x <= mtfbase[0] + off then old(mtfa[x - 1]) else old(mtfa[x])
    {
      var pp := mtfbase[0];
      var nn := off;
      while nn > 3
        invariant 0 <= nn <= off
        invariant forall x {:trigger mtfa[x]} | 0 <= x < mtfa.Length ::
          mtfa[x] == if pp + nn < x <= pp + off then old(mtfa[x - 1]) else old(mtfa[x])
      {
        var z := pp + nn;
        mtfa[z] := mtfa[z - 1];
        mtfa[z - 1] := mtfa[z - 2];
        mtfa[z - 2] := mtfa[z - 3];
        mtfa[z - 3] := mtfa[z - 4];
        nn := nn - 4;
      }
      while nn > 0
        invariant 0 <= nn <= off
        invariant forall x {:trigger mtfa[x]} | 0 <= x < mtfa.Length ::
          mtfa[x] == if pp + nn < x <= pp + off then old(mtfa[x - 1]) else old(mtfa[x])
      {
        mtfa[pp + nn] := mtfa[pp + nn - 1];
        nn := nn - 1;
      }
    }

    method RepackGroup(kk0: int, ii: nat, ghost was: seq<int>, ghost base: seq<int>) returns (kk: int)
      requires mtfa != mtfbase && ii < 16 && kk0 == MTFA_SIZE - 256 + 16 * ii + 15
      requires Repacked(mtfa[..], mtfbase[..], was, base, ii, 16 * ii + 15)
      modifies mtfa
      ensures kk == kk0 - 16 && Repacked(mtfa[..], mtfbase[..], was, base, ii, 16 * ii - 1)
    {
      kk := kk0;
      var jj := 15;
      while jj >= 0
        invariant -1 <= jj <= 15 && kk == MTFA_SIZE - 256 + 16 * ii + jj
        invariant Repacked(mtfa[..], mtfbase[..], was, base, ii, 16 * ii + jj)
      {
        RepackStep(mtfa[..], mtfbase[..], was, base, ii, jj);
        ghost var a := mtfa[..];
        mtfa[kk] := mtfa[mtfbase[ii] + jj];
        assert mtfa[..] == a[kk := a[mtfbase[ii] + jj]];
        kk := kk - 1;
        jj := jj - 1;
      }
    }

    /** Repack the groups at the top of the array. */
    method Repack()
      requires mtfa != mtfbase && Spread(mtfa[..], mtfbase[..])
      modifies mtfa, mtfbase
      ensures Valid() && List() == old(ListOf(mtfa[..], mtfbase[..]))
    {
      ghost var was, base := mtfa[..], mtfbase[..];
      var kk := MTFA_SIZE - 1;
      var ii := 15;
      while ii >= 0
        invariant -1 <= ii <= 15 && kk == MTFA_SIZE - 256 + 16 * ii + 15
        invariant Repacked(mtfa[..], mtfbase[..], was, base, ii, 16 * ii + 15)
      {
        kk := RepackGroup(kk, ii, was, base);
        mtfbase[ii] := kk + 1;
        ii := ii - 1;
      }
      RepackEnd(mtfa[..], mtfbase[..], was, base);
    }

    /** Shift entries 0..off-1 of group lno up by one place; entry off is lost. */
    method ShiftGroup(lno: nat, off: nat)
      requires Valid() && lno < 16 && off < 16
      modifies mtfa
      ensures forall x {:trigger mtfa[x]} | 0 <= x < mtfa.Length ::
        mtfa[x] == if mtfbase[lno] < x <= mtfbase[lno] + off then old(mtfa[x - 1]) else old(mtfa[x])
    {
      assert Lowest(mtfbase[..], lno) <= mtfbase[..][lno];
      var pp := mtfbase[lno] + off;
      while pp > mtfbase[lno]
        invariant mtfbase[lno] <= pp <= mtfbase[lno] + off
        invariant forall x {:trigger mtfa[x]} | 0 <= x < mtfa.Length ::
          mtfa[x] == if pp < x <= mtfbase[lno] + off then old(mtfa[x - 1]) else old(mtfa[x])
      {
        mtfa[pp] := mtfa[pp - 1];
        pp := pp - 1;
      }
    }

    lemma PlacedLengths(a: seq<int>, b: seq<int>, was: seq<int>, base: seq<int>, g: int, off: int, lno: int)
      requires AllPlaced(a, b, was, base, g, off, lno)
      ensures |a| == |was| == MTFA_SIZE && |b| == |base| == 16 && 1 <= g < 16 && 0 <= off < 16 && 1 <= base[0] < MTFA_SIZE
      ensures 0 < lno <= g ==> 0 <= base[lno - 1] && base[lno - 1] + 15 < MTFA_SIZE
    {
      assert Lowest(base, 0) <= base[0];
      if 0 < lno <= g {
        assert Lowest(base, lno - 1) <= base[lno - 1];
        if lno - 1 > 0 { GroupsApart(was, base, 0, lno - 1); }
        assert Lowest(base, 0) <= base[0];
      }
    }

    /** Take the last entry of each group before lno0 into the front of the next one. */
    method Slide(lno0: nat, uc: int, ghost was: seq<int>, ghost base: seq<int>, ghost off: nat)
      requires mtfa != mtfbase && AllPlaced(mtfa[..], mtfbase[..], was, base, lno0, off, lno0) && uc == was[base[lno0] + off]
      modifies mtfa, mtfbase
      ensures Spread(mtfa[..], mtfbase[..]) && ListOf(mtfa[..], mtfbase[..]) == ToFront(ListOf(was, base), 16 * lno0 + off)
    {
      hide ToFront, ListOf, Cell, Want, AllPlaced, Spread;
      PlacedLengths(mtfa[..], mtfbase[..], was, base, lno0, off, lno0);
      var lno := lno0;
      while lno > 0
        invariant 0 <= lno <= lno0 && AllPlaced(mtfa[..], mtfbase[..], was, base, lno0, off, lno)
      {
        ghost var a, b := mtfa[..], mtfbase[..];
        PlacedLengths(a, b, was, base, lno0, off, lno);
        SlideStep(a, b, was, base, lno0, off, lno);
        mtfbase[lno] := mtfbase[lno] - 1;
        mtfa[mtfbase[lno]] := mtfa[mtfbase[lno - 1] + MTFL_SIZE - 1];
        assert mtfbase[..] == b[lno := b[lno] - 1];
        assert mtfa[..] == a[b[lno] - 1 := was[base[lno - 1] + 15]];
        lno := lno - 1;
      }
      ghost var a, b := mtfa[..], mtfbase[..];
      SlideEnd(a, b, was, base, lno0, off);
      mtfbase[0] := mtfbase[0] - 1;
      mtfa[mtfbase[0]] := uc;
      assert mtfbase[..] == b[0 := base[0] - 1];
      assert mtfa[..] == a[base[0] - 1 := uc];
      PlacedToFront(mtfa[..], mtfbase[..], was, base, lno0, off);
    }

    /** Within group 0: the general case's expense is avoided. */
    method TakeNear(nn: nat) returns (uc: int)
      requires Valid() && nn < MTFL_SIZE
      modifies mtfa
      ensures Valid() && uc == old(List())[nn] && List() == ToFront(old(List()), nn)
    {
      hide ToFront, ListOf, Cell;
      ghost var was, base := mtfa[..], mtfbase[..];
      FirstGroup(was, base);
      var pp := mtfbase[0];
      uc := mtfa[pp + nn];
      ListAt(was, base, 0, nn);
      ShiftGroup0(nn);
      mtfa[pp] := uc;
      ShiftedToFront(mtfa[..], was, base, nn);
    }

    lemma FirstGroup(a: seq<int>, base: seq<int>)
      requires Spread(a, base)
      ensures 0 <= base[0] <= MTFA_SIZE - 256
    {
      assert Lowest(base, 0) <= base[0];
    }

    method TakeFar(nn: nat) returns (uc: int)
      requires Valid() && MTFL_SIZE <= nn < 256
      modifies mtfa, mtfbase
      ensures Valid() && uc == old(List())[nn] && List() == ToFront(old(List()), nn)
    {
      hide ToFront, ListOf, Cell, AllPlaced;
      ghost var was, base := mtfa[..], mtfbase[..];
      var lno, off := nn / MTFL_SIZE, nn % MTFL_SIZE;
      GroupOf(was, base, nn);
      ListAt(was, base, lno, off);
      uc := mtfa[mtfbase[lno] + off];
      ShiftGroup(lno, off);
      mtfbase[lno] := mtfbase[lno] + 1;
      ShiftedPlaced(mtfa[..], mtfbase[..], was, base, lno, off);
      Slide(lno, uc, was, base, off);
      if mtfbase[0] == 0 { Repack(); }
    }

    lemma GroupOf(a: seq<int>, base: seq<int>, nn: nat)
      requires Spread(a, base) && MTFL_SIZE <= nn < 256
      ensures 1 <= nn / MTFL_SIZE < 16 && nn % MTFL_SIZE < 16 && nn == 16 * (nn / MTFL_SIZE) + nn % MTFL_SIZE
      ensures 0 <= base[nn / MTFL_SIZE] && base[nn / MTFL_SIZE] + 15 < MTFA_SIZE
    {
      assert Lowest(base, nn / MTFL_SIZE) <= base[nn / MTFL_SIZE];
      GroupsApart(a, base, 0, nn / MTFL_SIZE);
      FirstGroup(a, base);
    }

    /** Return entry nn of the list and move it to the front. */
    method Take(nn: nat) returns (uc: int)
      requires Valid() && nn < 256
      modifies mtfa, mtfbase
      ensures Valid() && uc == old(List())[nn] && List() == ToFront(old(List()), nn)
    {
      hide ToFront, Spread, ListOf;
      if nn < MTFL_SIZE {
        uc := TakeNear(nn);
      } else {
        uc := TakeFar(nn);
      }
    }
  }

  /** Entries above number i have been moved up; groups above ii have their new base. */
  ghost predicate Repacked(a: seq<int>, base': seq<int>, was: seq<int>, base: seq<int>, ii: int, i: int) {
    Spread(was, base) && |a| == MTFA_SIZE && |base'| == 16 &&
    (forall k {:trigger base'[k]} | 0 <= k < 16 :: base'[k] == if k > ii then MTFA_SIZE - 256 + 16 * k else base[k]) &&
    forall k, o {:trigger Cell(was, base, k, o)} | 0 <= k < 16 && 0 <= o < 16 ::
      At(a, if 16 * k + o > i then MTFA_SIZE - 256 + 16 * k + o else base[k] + o, Cell(was, base, k, o))
  }

  /** The next entry moves up without touching one that is still to move. */
  lemma RepackStep(a: seq<int>, base': seq<int>, was: seq<int>, base: seq<int>, ii: int, jj: int)
    requires 0 <= ii < 16 && 0 <= jj < 16 && Repacked(a, base', was, base, ii, 16 * ii + jj)
    ensures 0 <= base'[ii] + jj < MTFA_SIZE
    ensures Repacked(a[MTFA_SIZE - 256 + 16 * ii + jj := a[base'[ii] + jj]], base', was, base, ii, 16 * ii + jj - 1)
  {
    hide Cell, At, Spread;
    RepackPlace(was, base, ii, jj, ii, jj);
    assert At(a, base[ii] + jj, Cell(was, base, ii, jj));
    var x := MTFA_SIZE - 256 + 16 * ii + jj;
    var a' := a[x := a[base'[ii] + jj]];
    AtPut(a, base[ii] + jj, Cell(was, base, ii, jj), x);
    forall k, o | 0 <= k < 16 && 0 <= o < 16
      ensures At(a', if 16 * k + o > 16 * ii + jj - 1 then MTFA_SIZE - 256 + 16 * k + o else base[k] + o, Cell(was, base, k, o)) {
      RepackPlace(was, base, ii, jj, k, o);
      if k != ii || o != jj {
        AtKept(a, if 16 * k + o > 16 * ii + jj then MTFA_SIZE - 256 + 16 * k + o else base[k] + o, Cell(was, base, k, o), x, a[base[ii] + jj]);
      }
    }
  }

  lemma AtPut(a: seq<int>, p: int, v: int, x: int)
    requires At(a, p, v) && 0 <= x < |a|
    ensures 0 <= p < |a| && At(a[x := a[p]], x, v)
  {
  }

  lemma AtKept(a: seq<int>, p: int, v: int, x: int, w: int)
    requires At(a, p, v) && 0 <= x < |a| && p != x
    ensures At(a[x := w], p, v)
  {
  }

  /** The place an entry moves to is not one where an earlier entry still stands, nor one already filled. */
  lemma RepackPlace(was: seq<int>, base: seq<int>, ii: int, jj: int, k: int, o: int)
    requires Spread(was, base) && 0 <= ii < 16 && 0 <= jj < 16 && 0 <= k < 16 && 0 <= o < 16
    ensures |was| == MTFA_SIZE && |base| == 16 && 0 <= base[ii] && base[ii] + jj < MTFA_SIZE
    ensures 16 * k + o < 16 * ii + jj ==> base[k] + o < MTFA_SIZE - 256 + 16 * ii + jj
  {
    assert Lowest(base, ii) <= base[ii];
    if 0 < ii { GroupsApart(was, base, 0, ii); }
    assert Lowest(base, 0) <= base[0] && Lowest(base, k) <= base[k];
  }

  lemma RepackEnd(a: seq<int>, base': seq<int>, was: seq<int>, base: seq<int>)
    requires Repacked(a, base', was, base, -1, -1)
    ensures Spread(a, base') && base'[0] >= 1 && ListOf(a, base') == ListOf(was, base)
  {
    forall i | 0 <= i < 256 ensures ListOf(a, base')[i] == ListOf(was, base)[i] {
      assert ListOf(was, base)[i] == Cell(was, base, i / 16, i % 16);
    }
  }

  /** Within group 0 nothing slides. */
  lemma ShiftedToFront(a: seq<int>, was: seq<int>, base: seq<int>, off: nat)
    requires Spread(was, base) && off < 16 && |a| == MTFA_SIZE
    requires forall x {:trigger a[x]} | 0 <= x < |a| ::
      a[x] == if x == base[0] then was[base[0] + off] else if base[0] < x <= base[0] + off then was[x - 1] else was[x]
    ensures ListOf(a, base) == ToFront(ListOf(was, base), off)
  {
    hide ToFront, Want, ListOf, Cell;
    forall i | 0 <= i < 256 ensures ListOf(a, base)[i] == ToFront(ListOf(was, base), 16 * 0 + off)[i] {
      var k, o := i / 16, i % 16;
      WantIsToFront(was, base, 0, off, k, o);
      ListAt(a, base, k, o);
      ShiftedCell(a, was, base, off, k, o);
    }
  }

  lemma ShiftedCell(a: seq<int>, was: seq<int>, base: seq<int>, off: nat, k: int, o: int)
    requires Spread(was, base) && off < 16 && |a| == MTFA_SIZE && 0 <= k < 16 && 0 <= o < 16
    requires forall x {:trigger a[x]} | 0 <= x < |a| ::
      a[x] == if x == base[0] then was[base[0] + off] else if base[0] < x <= base[0] + off then was[x - 1] else was[x]
    ensures 0 <= base[k] && base[k] + o < |a| && a[base[k] + o] == Want(was, base, 0, off, k, o)
  {
    assert Lowest(base, k) <= base[k];
    if k > 0 { GroupsApart(was, base, 0, k); }
  }

  /** Once the group has lost its entry, sliding can begin. */
  lemma ShiftedPlaced(a: seq<int>, base': seq<int>, was: seq<int>, base: seq<int>, g: int, off: nat)
    requires Spread(was, base) && 1 <= g < 16 && off < 16 && |a| == MTFA_SIZE && base[0] >= 1
    requires base' == base[g := base[g] + 1]
    requires forall x {:trigger a[x]} | 0 <= x < |a| ::
      a[x] == if base[g] < x <= base[g] + off then was[x - 1] else was[x]
    ensures AllPlaced(a, base', was, base, g, off, g)
  {
    forall k, o | 0 <= k < 16 && 0 <= o < 16 ensures Placed(a, base', was, base, g, off, g, k, o) {
      ShiftedPlacedAt(a, base', was, base, g, off, k, o);
    }
  }

  lemma ShiftedPlacedAt(a: seq<int>, base': seq<int>, was: seq<int>, base: seq<int>, g: int, off: nat, k: int, o: int)
    requires Spread(was, base) && 1 <= g < 16 && off < 16 && |a| == MTFA_SIZE && 0 <= k < 16 && 0 <= o < 16
    requires base' == base[g := base[g] + 1]
    requires forall x {:trigger a[x]} | 0 <= x < |a| ::
      a[x] == if base[g] < x <= base[g] + off then was[x - 1] else was[x]
    ensures Placed(a, base', was, base, g, off, g, k, o)
  {
    assert Lowest(base, k) <= base[k];
    if k < g { GroupsApart(was, base, k, g); }
    if g < k { GroupsApart(was, base, g, k); }
  }
}
