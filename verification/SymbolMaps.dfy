// The bytes that occur in a block, numbered in ascending order.
module SymbolMaps {
  import opened Permutations

  /** The bytes in use, in ascending order. */
  function Used(inUse: seq<bool>): (r: seq<int>)
    ensures |r| <= |inUse| && forall k | 0 <= k < |r| :: 0 <= r[k] < |inUse| && inUse[r[k]]
  {
    if inUse == [] then []
    else
      var n := |inUse| - 1;
      Used(inUse[..n]) + if inUse[n] then [n] else []
  }

  /** The number of a byte. */
  function Number(inUse: seq<bool>, c: int): (k: nat)
    requires 0 <= c < |inUse|
  {
    |Used(inUse[..c])|
  }

  lemma {:induction false} NumberedBack(inUse: seq<bool>, c: int)
    requires 0 <= c < |inUse| && inUse[c]
    ensures Number(inUse, c) < |Used(inUse)| && Used(inUse)[Number(inUse, c)] == c
  {
    var n := |inUse| - 1;
    if c < n {
      NumberedBack(inUse[..n], c);
      assert inUse[..n][..c] == inUse[..c];
    }
  }

  lemma UsedStep(inUse: seq<bool>, i: nat)
    requires i < |inUse|
    ensures Used(inUse[..i + 1]) == Used(inUse[..i]) + if inUse[i] then [i] else []
  {
    assert inUse[..i + 1][..i] == inUse[..i];
  }

  /** The encoder's map from bytes to numbers. */
  method MakeMapsE(inUse: array<bool>, unseqToSeq: array<int>) returns (nInUse: nat)
    requires inUse.Length == 256 && unseqToSeq.Length == 256
    modifies unseqToSeq
    ensures nInUse == |Used(inUse[..])|
    ensures forall c | 0 <= c < 256 && inUse[c] :: unseqToSeq[c] == Number(inUse[..], c)
  {
    nInUse := 0;
    var i := 0;
    ghost var u := inUse[..];
    while i < 256
      invariant 0 <= i <= 256 && nInUse == |Used(u[..i])|
      invariant forall c {:trigger unseqToSeq[c]} | 0 <= c < i && u[c] :: unseqToSeq[c] == Number(u, c)
    {
      UsedStep(u, i);
      if inUse[i] {
        unseqToSeq[i] := nInUse;
        nInUse := nInUse + 1;
      }
      i := i + 1;
    }
    assert u[..256] == u;
  }

  /** The decoder's map from numbers to bytes. */
  method MakeMapsD(inUse: array<bool>, seqToUnseq: array<int>) returns (nInUse: nat)
    requires inUse.Length == 256 && seqToUnseq.Length == 256
    modifies seqToUnseq
    ensures nInUse <= 256 && seqToUnseq[..nInUse] == Used(inUse[..])
    ensures seqToUnseq[nInUse..] == old(seqToUnseq[nInUse..])
  {
    nInUse := 0;
    var i := 0;
    ghost var u := inUse[..];
    while i < 256
      invariant 0 <= i <= 256 && nInUse <= i && seqToUnseq[..nInUse] == Used(u[..i])
      invariant seqToUnseq[nInUse..] == old(seqToUnseq[..])[nInUse..]
    {
      UsedStep(u, i);
      if inUse[i] {
        seqToUnseq[nInUse] := i;
        nInUse := nInUse + 1;
        assert seqToUnseq[..nInUse] == seqToUnseq[..nInUse - 1] + [i];
      }
      i := i + 1;
    }
    assert u[..256] == u;
  }
}
