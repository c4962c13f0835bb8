// The small-memory inverse vector: 20-bit entries split over 16-bit words and shared nibbles, filled
// forwards and then reversed in place along the cycle through origPtr.
module SmallVector {
  import opened Permutations
  import opened Rotations
  import opened Bits
  import opened Counting
  import opened InverseBwt
  import opened Unsort

  /** Half of a byte of ll4: entry 2k is the low half of byte k, entry 2k+1 the high half. */
  function Nibble(w: nat, i: nat): nat {
    if i % 2 == 0 then w % 16 else (w / 16) % 16
  }

  /** A byte of ll4 with half i replaced and the other half kept. */
  function WithNibble(w: nat, i: nat, n: nat): nat {
    if i % 2 == 0 then 16 * (w / 16) + n else 16 * n + w % 16
  }

  function Entry(low: nat, high: nat): nat { low + 65536 * high }

  lemma EntryIsOr(low: nat, high: nat)
    requires low < 65536
    ensures Or(low, high * 65536) == Entry(low, high)
  {
    Pow2Values();
    OrDisjoint(high, low, 16);
  }

  lemma WithNibbleIsOr(w: nat, n: nat, i: nat)
    requires n < 16
    ensures WithNibble(w, i, n) == if i % 2 == 0 then Or(16 * (w / 16), n) else Or(w % 16, 16 * n)
  {
    Pow2Values();
    var low, high := w % 16, w / 16;
    OrDisjoint(high, n, 4);
    OrDisjoint(n, low, 4);
  }

  /** A byte made of two halves shows each half. */
  lemma NibbleHalves(high: nat, low: nat)
    requires high < 16 && low < 16
    ensures (16 * high + low) % 16 == low && ((16 * high + low) / 16) % 16 == high
  {
    ModUnique(16 * high + low, high, low, 16);
    ModUnique(high, 0, high, 16);
  }

  lemma NibbleStored(w: nat, n: nat, i: nat)
    requires w < 256 && n < 16
    ensures WithNibble(w, i, n) < 256
    ensures Nibble(WithNibble(w, i, n), i) == n
    ensures Nibble(WithNibble(w, i, n), i + 1) == Nibble(w, i + 1)
  {
    var high, low := w / 16, w % 16;
    NibbleHalves(high, low);
    NibbleHalves(high, n);
    NibbleHalves(n, low);
    ParityFlips(i);
  }

  lemma ParityFlips(i: nat)
    ensures (i + 1) % 2 == 1 - i % 2
  {
  }

  class PackedVector {
    const ll16: array<int>
    const ll4: array<int>
    ghost var Entries: seq<int>

    constructor (size: nat)
      ensures Valid() && |Entries| == size && fresh(ll16) && fresh(ll4)
    {
      ll16 := new int[size](_ => 0);
      ll4 := new int[(1 + size) / 2](_ => 0);
      Entries := seq(size, _ => 0);
    }

    ghost predicate Valid()
      reads this, ll16, ll4
    {
      ll16 != ll4 && ll16.Length == |Entries| && ll4.Length == (1 + |Entries|) / 2 &&
      (forall k | 0 <= k < |Entries| :: Holds(k)) &&
      forall k | 0 <= k < ll4.Length :: 0 <= ll4[k] < 256
    }

    /** Entry k is stored in its word and its nibble. */
    ghost predicate Holds(k: nat)
      requires ll16.Length == |Entries| && ll4.Length == (1 + |Entries|) / 2 && k < |Entries|
      reads this, ll16, ll4
    {
      0 <= ll16[k] < 65536 && 0 <= ll4[k / 2] && Entries[k] == Entry(ll16[k], Nibble(ll4[k / 2], k))
    }

    /** Puts a last-column byte in the word part; the nibble part is settled by Set. */
    method PutByte(i: nat, uc: byte)
      requires Valid() && i < |Entries|
      modifies this, ll16
      ensures Valid() && |Entries| == old(|Entries|) && Word(i) == uc
      ensures forall k: nat | k < |Entries| && k != i :: Entries[k] == old(Entries[k]) && Word(k) == old(Word(k))
    {
      assert Holds(i);
      ll16[i] := uc;
      Entries := Entries[i := Entry(uc, Nibble(ll4[i / 2], i))];
      forall k: nat | k < |Entries| && k != i ensures Holds(k) {
        assert old(Holds(k));
      }
    }

    function Word(i: nat): int
      requires i < ll16.Length
      reads ll16
    {
      ll16[i]
    }

    /** GET_LL. */
    method Get(i: nat) returns (n: nat)
      requires Valid() && i < |Entries|
      ensures n == Entries[i]
    {
      assert Holds(i);
      EntryIsOr(ll16[i], Nibble(ll4[i / 2], i));
      n := Or(ll16[i], Nibble(ll4[i / 2], i) * 65536);
    }

    /** SET_LL: entry i becomes n and no other entry changes, although nibbles share bytes. */
    method Set(i: nat, n: nat)
      requires Valid() && i < |Entries| && n < 0x10_0000
      modifies this, ll16, ll4
      ensures Valid() && Entries == old(Entries)[i := n]
      ensures forall k: nat | k < |Entries| && k != i :: Word(k) == old(Word(k))
    {
      NibbleStored(ll4[i / 2], n / 65536, i);
      ll16[i] := n % 65536;
      WithNibbleIsOr(ll4[i / 2], n / 65536, i);
      ll4[i / 2] := if i % 2 == 0 then Or(16 * (ll4[i / 2] / 16), n / 65536) else Or(ll4[i / 2] % 16, 16 * (n / 65536));
      Entries := Entries[i := n];
      forall k: nat | k < |Entries| ensures Holds(k) {
        if k != i {
          assert old(Holds(k));
          if k / 2 == i / 2 {
            assert k % 2 == (i + 1) % 2;
          }
        }
      }
    }
  }

  /** The vector v holds, on 0..|t|-1, the inverse of t. */
  ghost predicate Inverse(t: seq<int>, v: seq<int>) {
    |t| <= |v| && forall k | 0 <= k < |t| :: 0 <= v[k] < |t| && t[v[k]] == k
  }

  /** The vector T: entry k is the sorted place of last-column byte k. */
  method BuildSmall(v: PackedVector, cftabCopy: array<int>, nblock: nat, ghost l: seq<byte>)
    requires v.Valid() && |l| == nblock <= |v.Entries| && nblock <= 900_000
    requires cftabCopy != v.ll16 && cftabCopy != v.ll4
    requires v.ll16[..nblock] == l
    requires Cftab(cftabCopy[..], l)
    modifies v, v.ll16, v.ll4, cftabCopy
    ensures v.Valid() && |v.Entries| == old(|v.Entries|) && Inverse(SortOrder(l), v.Entries)
  {
    PointersStart(cftabCopy[..], l);
    for i := 0 to nblock
      invariant v.Valid() && |v.Entries| == old(|v.Entries|) && cftabCopy[..] == PointersAt(l, i)
      invariant forall k | i <= k < nblock :: v.Word(k) == l[k]
      invariant forall k | 0 <= k < i :: v.Entries[k] == NextSlot(l, k)
    {
      ghost var cf := cftabCopy[..];
      PointersStep(l, i);
      var uc := LowByte(v.Word(i));
      v.Set(i, cftabCopy[uc]);
      cftabCopy[uc] := cftabCopy[uc] + 1;
      assert cftabCopy[..] == cf[uc := cf[uc] + 1];
    }
    forall k | 0 <= k < nblock ensures SortOrder(l)[v.Entries[k]] == k {
      SlotsInvertOrder(l, k);
    }
  }

  /** Entries on cycle, which holds origPtr and is closed under t, have been turned round to t. */
  ghost predicate Reversed(t: seq<int>, v: seq<int>, origPtr: int, cycle: set<int>)
    requires |t| <= |v|
  {
    origPtr in cycle && (forall x | x in cycle :: 0 <= x < |t|) &&
    forall x {:trigger t[x]} | x in cycle :: t[x] in cycle && v[x] == t[x]
  }

  /** Mid-reversal: the entries in cycle are turned, i is the last of them, and only i leads on. */
  ghost predicate Turning(t: seq<int>, back: seq<int>, e: seq<int>, origPtr: int, i: int, cycle: set<int>)
    requires |t| <= |back|
  {
    |e| == |back| && 0 <= i < |t| && (forall x | x in cycle :: 0 <= x < |t|) && origPtr !in cycle && (i == origPtr || i in cycle) &&
    (forall x {:trigger t[x]} | x in cycle :: 0 <= t[x] < |t| && (t[x] == origPtr || t[x] in cycle) && t[x] != i) &&
    forall k {:trigger e[k]} | 0 <= k < |e| :: e[k] == if k in cycle then t[k] else back[k]
  }

  lemma TurnStep(t: seq<int>, back: seq<int>, e: seq<int>, origPtr: int, i: int, cycle: set<int>)
    requires Inverse(t, back) && 0 <= origPtr < |t|
    requires Turning(t, back, e, origPtr, i, cycle)
    ensures var j := back[i]; 0 <= j < |t| && j !in cycle && |cycle + {j}| == |cycle| + 1 <= |t|
    ensures var j := back[i]; t[j] == i
    ensures var j := back[i]; e[j] == back[j] && if j == origPtr then Reversed(t, e[j := i], origPtr, cycle + {j})
      else Turning(t, back, e[j := i], origPtr, j, cycle + {j})
  {
    var j := back[i];
    assert t[j] == i;
    assert j !in cycle;
    assert cycle + {j} <= Below(|t|);
    SubsetSize(cycle + {j}, Below(|t|));
    var e', cycle' := e[j := i], cycle + {j};
    assert forall k {:trigger e'[k]} | 0 <= k < |e'| :: e'[k] == if k in cycle' then t[k] else back[k];
    assert forall x | x in cycle' :: 0 <= t[x] < |t| && (t[x] == origPtr || t[x] in cycle');
    if j != origPtr {
      assert forall x | x in cycle' :: t[x] != j;
    }
  }

  /** Pointer reversal along the cycle through origPtr; entries off the cycle are left alone. */
  method ReverseCycle(v: PackedVector, origPtr: nat, ghost t: seq<int>) returns (ghost cycle: set<int>)
    requires v.Valid() && |t| <= |v.Entries| && |t| <= 900_000 && origPtr < |t|
    requires Inverse(t, v.Entries)
    modifies v, v.ll16, v.ll4
    ensures v.Valid() && |v.Entries| == old(|v.Entries|) && Reversed(t, v.Entries, origPtr, cycle)
    ensures forall k | 0 <= k < |v.Entries| && k !in cycle :: v.Entries[k] == old(v.Entries[k])
  {
    ghost var back := v.Entries;
    var i := origPtr;
    var j := v.Get(i);
    cycle := {};
    while true
      invariant v.Valid() && Turning(t, back, v.Entries, origPtr, i, cycle) && j == back[i]
      decreases |t| - |cycle|
    {
      TurnStep(t, back, v.Entries, origPtr, i, cycle);
      var tmp := v.Get(j);
      v.Set(j, i);
      cycle := cycle + {j};
      i := j;
      j := tmp;
      if i == origPtr { break; }
    }
  }

  ghost predicate InBucket(cf: seq<int>, x: int, c: int)
    requires |cf| == 257 && 0 <= c < 256
  {
    cf[c] <= x < cf[c + 1]
  }

  /** The buckets of cf say which byte heads each row of the sorted matrix. */
  ghost predicate Heads(cf: seq<int>, l: seq<byte>, t: seq<int>)
    requires |t| == |l| && InRange(t, |l|)
  {
    |cf| == 257 && cf[0] == 0 && cf[256] == |l| &&
    forall x, c {:trigger InBucket(cf, x, c)} | 0 <= x < |l| && 0 <= c < 256 && InBucket(cf, x, c) :: l[t[x]] == c
  }

  lemma CftabHeads(cf: seq<int>, l: seq<byte>)
    requires Cftab(cf, l)
    ensures Heads(cf, l, SortOrder(l))
  {
    CountBelowAll(l, 256);
    forall x, c | 0 <= x < |l| && 0 <= c < 256 && InBucket(cf, x, c) ensures l[SortOrder(l)[x]] == c {
      FirstColumn(l, x, c);
    }
  }

  /** Binary search for the byte whose bucket of the first column holds row indx. */
  method IndexIntoF(indx: nat, cftab: array<int>) returns (nb: nat)
    requires cftab.Length == 257 && cftab[0] <= indx < cftab[256]
    ensures nb < 256 && InBucket(cftab[..], indx, nb)
  {
    nb := 0;
    var na := 256;
    while na - nb != 1
      invariant 0 <= nb < na <= 256
      invariant cftab[nb] <= indx < cftab[na]
    {
      var mid := (nb + na) / 2;
      if indx >= cftab[mid] { nb := mid; } else { na := mid; }
    }
  }
}
