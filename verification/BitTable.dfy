// The bucket-header table of the fallback sort: one flag a position, packed 32 to a word, scanned a
// whole word at a time. A word is modelled as its 32 flags, least significant first.
module BitTable {

  type Word = w: seq<bool> | |w| == 32 witness seq(32, _ => false)

  const ALL_SET: Word := seq(32, _ => true)
  const ALL_CLEAR: Word := seq(32, _ => false)

  class BhTab {
    const words: array<Word>
    ghost var Flags: seq<bool>

    constructor (size: nat)
      ensures Valid() && |Flags| == 32 * size && fresh(words)
    {
      words := new Word[size](_ => ALL_CLEAR);
      Flags := seq(32 * size, _ => false);
    }

    ghost predicate Valid()
      reads this, words
    {
      |Flags| == 32 * words.Length && forall z | 0 <= z < |Flags| :: Shows(z)
    }

    ghost predicate Shows(z: nat)
      requires |Flags| == 32 * words.Length && z < |Flags|
      reads this, words
    {
      Flags[z] == words[z / 32][z % 32]
    }

    predicate IsSet(z: nat)
      requires Valid() && z < |Flags|
      reads this, words
      ensures IsSet(z) == Flags[z]
    {
      assert Shows(z);
      words[z / 32][z % 32]
    }

    /** SET_BH and CLEAR_BH. */
    method Put(z: nat, on: bool)
      requires Valid() && z < |Flags|
      modifies this, words
      ensures Valid() && Flags == old(Flags)[z := on]
    {
      words[z / 32] := words[z / 32][z % 32 := on];
      Flags := Flags[z := on];
      forall y: nat | y < |Flags| ensures Shows(y) {
        assert old(Shows(y));
        if y != z && y / 32 == z / 32 {
          SameWord(y, z);
        }
      }
    }

    method ClearWord(i: nat)
      requires Valid() && i < words.Length
      modifies this, words
      ensures Valid() && |Flags| == old(|Flags|)
      ensures forall z | 0 <= z < |Flags| :: Flags[z] == if z / 32 == i then false else old(Flags[z])
    {
      ghost var before := Flags;
      words[i] := ALL_CLEAR;
      Flags := seq(|before|, z requires 0 <= z < |before| => if z / 32 == i then false else before[z]);
      forall z: nat | z < |Flags| ensures Shows(z) {
        assert old(Shows(z));
      }
    }

    lemma SameWord(y: nat, z: nat)
      requires y != z && y / 32 == z / 32
      ensures y % 32 != z % 32
    {
    }

    lemma WholeWord(k: nat)
      requires Valid() && k % 32 == 0 && k < |Flags|
      ensures k + 32 <= |Flags|
      ensures forall z | k <= z < k + 32 :: Flags[z] == words[k / 32][z - k]
    {
      forall z | k <= z < k + 32 ensures Flags[z] == words[k / 32][z - k] {
        assert Shows(z);
        assert z / 32 == k / 32 && z % 32 == z - k;
      }
    }

    /** The first position from k0 on whose flag is not `on`, skipping whole words where it can. */
    method Skip(k0: nat, on: bool, ghost stop: nat) returns (k: nat)
      requires Valid() && k0 <= stop < |Flags| && Flags[stop] != on
      ensures k0 <= k <= stop && Flags[k] != on && forall z | k0 <= z < k :: Flags[z] == on
    {
      k := k0;
      while IsSet(k) == on && k % 32 != 0
        invariant k0 <= k <= stop && forall z | k0 <= z < k :: Flags[z] == on
        decreases stop - k
      {
        k := k + 1;
      }
      if IsSet(k) == on {
        var full := if on then ALL_SET else ALL_CLEAR;
        while words[k / 32] == full
          invariant k0 <= k <= stop && k % 32 == 0 && forall z | k0 <= z < k :: Flags[z] == on
          decreases stop - k
        {
          WholeWord(k);
          assert forall z | k <= z < k + 32 :: Flags[z] == full[z - k] == on;
          k := k + 32;
        }
        while IsSet(k) == on
          invariant k0 <= k <= stop && forall z | k0 <= z < k :: Flags[z] == on
          decreases stop - k
        {
          k := k + 1;
        }
      }
    }
  }
}
