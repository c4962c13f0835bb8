// BZ2_blockSort: choosing a sorter for a block. Small blocks and blocks too repetitive for the main sort's work budget
// go to the fallback; the order that results is the same up to the place of equal rotations.
module BlockSort {
  import opened Permutations
  import opened Rotations
  import opened BitTable
  import opened MainCompare
  import FallbackSort
  import MainSort

  /** The block with room behind it, for the main sort. */
  method Widen(block: array<byte>) returns (wide: array<int>)
    ensures fresh(wide) && wide.Length == block.Length + N_OVERSHOOT && wide[..block.Length] == block[..]
  {
    wide := new int[block.Length + N_OVERSHOOT](_ => 0);
    for i := 0 to block.Length
      invariant forall k {:trigger wide[k]} | 0 <= k < i :: wide[k] == block[k]
    {
      wide[i] := block[i];
    }
    assert forall k | 0 <= k < block.Length :: wide[..block.Length][k] == block[..][k];
  }

  /** How much comparing the main sort may do: nblock times 0 to 33. */
  function WorkBudget(nblock: nat, workFactor: int): (budget: int)
    ensures 0 <= budget <= 33 * nblock
  {
    var wfact := if workFactor < 1 then 1 else if workFactor > 100 then 100 else workFactor;
    assert 0 <= (wfact - 1) / 3 <= 33;
    nblock * ((wfact - 1) / 3)
  }

  /** The rows of the block in order, and the row of the block itself (assertion 1003: there is one). */
  method SortBlock(block: array<byte>, workFactor: int) returns (ptr: array<int>, origPtr: nat)
    requires 0 < block.Length <= 900_000
    modifies block
    ensures fresh(ptr) && RowOrder(old(block[..]), ptr[..]) && block[..] == old(block[..])
    ensures origPtr < ptr.Length && ptr[origPtr] == 0
  {
    hide RowOrder;
    var nblock := block.Length;
    ptr := new int[nblock](_ => 0);
    var sorted := false;
    if nblock >= 10000 {
      var wide := Widen(block);
      var quadrant, ftab := new int[nblock + N_OVERSHOOT], new int[65537];
      var budget := MainSort.Sort(ptr, wide, quadrant, ftab, nblock, WorkBudget(nblock, workFactor), block[..]);
      sorted := budget >= 0;
    }
    if !sorted {
      var eclass := new int[nblock](_ => 0);
      var bhtab := new BhTab(nblock / 32 + 3);
      FallbackSort.Sort(ptr, eclass, bhtab, block);
    }
    origPtr := FindOrigin(ptr, old(block[..]));
  }

  method FindOrigin(ptr: array<int>, ghost b: seq<byte>) returns (origPtr: nat)
    requires RowOrder(b, ptr[..])
    ensures origPtr < ptr.Length && ptr[origPtr] == 0
  {
    ghost var p := ptr[..];
    ghost var at := IndexOf(p, 0);
    origPtr := 0;
    while ptr[origPtr] != 0
      invariant 0 <= origPtr <= at && ptr[..] == p
      decreases at - origPtr
    {
      origPtr := origPtr + 1;
    }
  }
}
