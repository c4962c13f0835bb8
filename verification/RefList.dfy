// Lua's references: values kept in a table under integer keys. Released keys are threaded into a free list through
// the table itself; its head is at key 0, and the last free key holds nothing at all.
module RefList {
  import opened Permutations

  datatype Value = Nil | Num(n: int) | Thing(id: nat)

  type Table = m: map<int, Value> | forall k | k in m :: m[k] != Nil

  const FREELIST := 0
  const REFNIL := -1
  const MAX_INT := 0x7fff_ffff

  function Get(t: Table, k: int): Value { if k in t then t[k] else Nil }

  function Put(t: Table, k: int, v: Value): (r: Table)
    ensures forall j {:trigger Get(r, j)} :: Get(r, j) == if j == k then v else Get(t, j)
  {
    if v == Nil then t - {k} else t[k := v]
  }

  function ToInteger(v: Value): int { if v.Num? then v.n else 0 }

  // ----- lua_rawlen

  /** A border: key n is present, or 0, and key n + 1 is not. A table with holes may have several. */
  ghost predicate Border(t: Table, n: int) {
    0 <= n && (n == 0 || Get(t, n) != Nil) && Get(t, n + 1) == Nil
  }

  lemma PresentCount(t: Table, n: nat)
    requires forall k {:trigger Get(t, k)} | 1 <= k <= n :: Get(t, k) != Nil
    ensures n <= |t|
  {
    var keys := Below(n + 1) - {0};
    assert forall k | k in keys :: Get(t, k) != Nil && k in t;
    SubsetSize(keys, t.Keys);
    assert |keys| == n;
  }

  /** unbound_search from 0: double until a key is absent, then halve the interval. */
  method RawLen(t: Table) returns (n: nat)
    ensures Border(t, n)
  {
    var i, j := 0, 1;
    while Get(t, j) != Nil
      invariant 0 <= i < j && (i == 0 || Get(t, i) != Nil) && i <= MAX_INT
      decreases MAX_INT - i
    {
      i := j;
      j := j * 2;
      if j > MAX_INT {
        i := 1;
        while Get(t, i) != Nil
          invariant 1 <= i && forall k {:trigger Get(t, k)} | 1 <= k < i :: Get(t, k) != Nil
          decreases |t| - i
        {
          PresentCount(t, i);
          i := i + 1;
        }
        return i - 1;
      }
    }
    while j - i > 1
      invariant 0 <= i < j && (i == 0 || Get(t, i) != Nil) && Get(t, j) == Nil
      decreases j - i
    {
      var m := (i + j) / 2;
      if Get(t, m) == Nil { j := m; } else { i := m; }
    }
    return i;
  }

  // ----- the free list

  ghost predicate KeysUpTo(used: set<int>, unused: set<int>, n: nat) {
    used !! unused && forall r :: r in used || r in unused <==> 1 <= r <= n
  }

  /** Keys 1..n are in use or free; the free ones hang together from key 0 on, and only the last holds nothing. */
  ghost predicate Threaded(t: Table, live: map<int, Value>, free: seq<int>, n: nat) {
    KeysUpTo(live.Keys, Elements(free), n) && Distinct(free) &&
    (forall r {:trigger Get(t, r)} | r in live :: Get(t, r) == live[r] != Nil) &&
    Get(t, FREELIST) == Link(free, 0) &&
    (forall i {:trigger free[i]} | 0 <= i < |free| :: Get(t, free[i]) == Link(free, i + 1)) &&
    forall k {:trigger Get(t, k)} | k > n :: Get(t, k) == Nil
  }

  /** What leads to entry i of the free list. */
  function Link(free: seq<int>, i: nat): Value
    requires i <= |free|
  {
    if i < |free| then Num(free[i]) else Nil
  }

  /** With no free key the table has no hole, and its only border is n. */
  lemma OneBorder(t: Table, live: map<int, Value>, n: nat, m: nat)
    requires Threaded(t, live, [], n)
    ensures Border(t, m) <==> m == n
  {
    if m < n { assert m + 1 in live && Get(t, m + 1) != Nil; }
    if n >= 1 { assert n in live && Get(t, n) != Nil; }
    assert Get(t, n + 1) == Nil;
    if m > n { assert Get(t, m) == Nil; }
  }

  /** A hole is the last free key, and nothing else. */
  lemma OneHole(t: Table, live: map<int, Value>, free: seq<int>, n: nat, k: int)
    requires Threaded(t, live, free, n) && 1 <= k <= n
    ensures Get(t, k) == Nil <==> free != [] && k == free[|free| - 1]
  {
    if k in Elements(free) {
      var i :| 0 <= i < |free| && free[i] == k;
      assert Get(t, free[i]) == Link(free, i + 1);
    } else {
      assert k in live;
    }
  }

  /** How many keys there are: the live ones and the free ones. */
  lemma KeyCount(t: Table, live: map<int, Value>, free: seq<int>, n: nat)
    requires Threaded(t, live, free, n)
    ensures n == |live| + |free|
  {
    DistinctSize(free);
    CountKeys(live.Keys, Elements(free), n);
    assert |live| == |live.Keys|;
  }

  lemma CountKeys(used: set<int>, unused: set<int>, n: nat)
    requires KeysUpTo(used, unused, n)
    ensures n == |used| + |unused|
  {
    assert used + unused == Below(n + 1) - {0};
    assert |used + unused| == |used| + |unused|;
    assert |Below(n + 1) - {0}| == n;
  }

  /** The first free key is taken off the list and holds v. */
  lemma TakenOff(t: Table, live: map<int, Value>, free: seq<int>, n: nat, v: Value)
    requires Threaded(t, live, free, n) && free != [] && v != Nil
    ensures ToInteger(Get(t, FREELIST)) == free[0] >= 1
    ensures Threaded(Put(Put(t, FREELIST, Get(t, free[0])), free[0], v), live[free[0] := v], free[1..], n)
  {
    var r, rest := free[0], free[1..];
    assert r in Elements(free) && Get(t, free[0]) == Link(free, 1) && 1 <= r <= n;
    assert Link(free, 1) == Link(rest, 0);
    var u := Put(Put(t, FREELIST, Get(t, r)), r, v);
    assert free == [r] + rest;
    assert Elements(rest) == Elements(free) - {r};
    assert live[r := v].Keys == live.Keys + {r};
    forall i | 0 <= i < |rest| ensures Get(u, rest[i]) == Link(rest, i + 1) {
      assert rest[i] == free[i + 1] && Get(t, free[i + 1]) == Link(free, i + 2);
      assert rest[i] in Elements(rest) && rest[i] in Elements(free);
    }
  }

  /** A key beyond all others holds v. */
  lemma Appended(t: Table, live: map<int, Value>, n: nat, v: Value)
    requires Threaded(t, live, [], n) && v != Nil
    ensures Threaded(Put(t, n + 1, v), live[n + 1 := v], [], n + 1) && n + 1 !in live
  {
    assert n + 1 !in live && live[n + 1 := v].Keys == live.Keys + {n + 1} && Elements<int>([]) == {};
  }

  lemma PrependedDistinct(free: seq<int>, r: int)
    requires Distinct(free) && r !in Elements(free)
    ensures Distinct([r] + free) && Elements([r] + free) == Elements(free) + {r}
  {
    var f := [r] + free;
    forall i, j | 0 <= i < j < |f| ensures f[i] != f[j] {
      assert f[j] == free[j - 1] && free[j - 1] in Elements(free);
    }
  }

  /** The list with r in front, after r has been made to lead to the old head. */
  lemma PrependedLinks(t: Table, free: seq<int>, r: int)
    requires r >= 1 && r !in Elements(free) && FREELIST !in Elements(free) && Get(t, FREELIST) == Link(free, 0)
    requires forall i {:trigger free[i]} | 0 <= i < |free| :: Get(t, free[i]) == Link(free, i + 1)
    ensures var f, u := [r] + free, Unreferenced(t, r);
      Get(u, FREELIST) == Link(f, 0) && forall i {:trigger f[i]} | 0 <= i < |f| :: Get(u, f[i]) == Link(f, i + 1)
  {
    hide Put;
    var f, u := [r] + free, Unreferenced(t, r);
    forall i {:trigger f[i]} | 0 <= i < |f| ensures Get(u, f[i]) == Link(f, i + 1) {
      if i > 0 {
        assert f[i] == free[i - 1] && Get(t, free[i - 1]) == Link(free, i);
        assert f[i] in Elements(free);
      }
    }
  }

  /** A live key is put in front of the free list. */
  lemma PutBack(t: Table, live: map<int, Value>, free: seq<int>, n: nat, r: int)
    requires Threaded(t, live, free, n) && r in live
    ensures Threaded(Unreferenced(t, r), live - {r}, [r] + free, n)
  {
    hide Put, Distinct, Elements, Link;
    assert (live - {r}).Keys == live.Keys - {r};
    PrependedDistinct(free, r);
    PrependedLinks(t, free, r);
  }

  lemma FreeNotLive(t: Table, live: map<int, Value>, free: seq<int>, n: nat)
    requires Threaded(t, live, free, n) && ToInteger(Get(t, FREELIST)) != 0
    ensures free != [] && free[0] !in live
  {
    assert free[0] in Elements(free);
  }

  lemma NoneFree(t: Table, live: map<int, Value>, free: seq<int>, n: nat)
    requires Threaded(t, live, free, n) && ToInteger(Get(t, FREELIST)) == 0
    ensures free == []
  {
    if free != [] { TakenOff(t, live, free, n, Num(0)); }
  }

  /** The references of one table, and what has been stored under the ones that are live. */
  class References {
    var t: Table
    ghost var live: map<int, Value>
    ghost var free: seq<int>
    // the most references that have ever been live at once
    ghost var peak: nat

    ghost predicate Valid()
      reads this
    {
      Threaded(t, live, free, peak)
    }

    /** An empty table. */
    constructor ()
      ensures Valid() && live == map[] && free == [] && peak == 0
    {
      t, live, free, peak := map[], map[], [], 0;
    }

    /** The first free key is taken off the list. */
    method TakeFree(ref: int, v: Value)
      requires Valid() && v != Nil && ref == ToInteger(Get(t, FREELIST)) != 0
      modifies this
      ensures Valid() && old(free) != [] && ref == old(free)[0] >= 1 && ref !in old(live)
      ensures live == old(live)[ref := v] && free == old(free)[1..] && peak == old(peak)
    {
      hide Threaded, Put, Link;
      FreeNotLive(t, live, free, peak);
      TakenOff(t, live, free, peak, v);
      t := Put(t, FREELIST, Get(t, ref));
      t := Put(t, ref, v);
      live, free := live[ref := v], free[1..];
    }

    /** With no free key, the key after all others is used. */
    method TakeNext(v: Value) returns (ref: int)
      requires Valid() && v != Nil && free == []
      modifies this
      ensures Valid() && ref == peak == old(peak) + 1 && ref !in old(live)
      ensures live == old(live)[ref := v] && free == []
    {
      hide Threaded, Put, Link, Border;
      var len := RawLen(t);
      OneBorder(t, live, peak, len);
      Appended(t, live, peak, v);
      ref := len + 1;
      t := Put(t, ref, v);
      live, peak := live[ref := v], peak + 1;
    }

    /** luaL_ref: no live reference is handed out again, and no more references are made than were ever live at once. */
    method Ref(v: Value) returns (ref: int)
      requires Valid()
      modifies this
      ensures Valid()
      ensures v == Nil ==> ref == REFNIL && live == old(live) && free == old(free) && t == old(t) && peak == old(peak)
      ensures v != Nil ==> ref >= 1 && ref !in old(live) && live == old(live)[ref := v]
      ensures v != Nil ==> free == if old(free) == [] then [] else old(free)[1..]
      ensures v != Nil && old(free) != [] ==> ref == old(free)[0]
      ensures peak == if |live| > old(peak) then |live| else old(peak)
    {
      hide Threaded;
      KeyCount(t, live, free, peak);
      if v == Nil { return REFNIL; }
      ref := ToInteger(Get(t, FREELIST));
      if ref != 0 {
        TakeFree(ref, v);
      } else {
        NoneFree(t, live, free, peak);
        ref := TakeNext(v);
      }
      KeyCount(t, live, free, peak);
    }

    /** luaL_unref, of a live reference or of a negative number. */
    method Unref(ref: int)
      requires Valid() && (ref < 0 || ref in live)
      modifies this
      ensures Valid() && peak == old(peak) && t == Unreferenced(old(t), ref)
      ensures ref < 0 ==> live == old(live) && free == old(free)
      ensures ref >= 0 ==> live == old(live) - {ref} && free == [ref] + old(free)
    {
      hide Threaded;
      if ref >= 0 {
        PutBack(t, live, free, peak, ref);
        t := Put(t, ref, Get(t, FREELIST));
        t := Put(t, FREELIST, Num(ref));
        live := live - {ref};
        free := [ref] + free;
      }
    }

    /** What a live reference stands for. */
    method Value(ref: int) returns (v: Value)
      requires Valid() && ref in live
      ensures v == live[ref]
    {
      v := Get(t, ref);
    }
  }

  function Unreferenced(t: Table, ref: int): Table {
    if ref < 0 then t else Put(Put(t, ref, Get(t, FREELIST)), FREELIST, Num(ref))
  }

  // ----- exactly which releases keep the list in order

  /** Some live references and some free list explain the table. */
  ghost predicate Explained(t: Table) {
    exists live, free, n :: Threaded(t, live, free, n)
  }

  /** The key that comes after all others may be released: it becomes a free key like any other. */
  lemma NextReleased(t: Table, live: map<int, Value>, free: seq<int>, n: nat)
    requires Threaded(t, live, free, n)
    ensures Threaded(Unreferenced(t, n + 1), live, [n + 1] + free, n + 1)
  {
    hide Put, Distinct, Elements, Link;
    PrependedDistinct(free, n + 1);
    PrependedLinks(t, free, n + 1);
  }

  /** After a key that was free has been released again, the list would have to run through the old one up to that key. */
  lemma {:induction false} RunsThrough(t: Table, live: map<int, Value>, free: seq<int>, n: nat, i: nat,
                                       live': map<int, Value>, free': seq<int>, n': nat, k: nat)
    requires Threaded(t, live, free, n) && i < |free| && k <= i && Threaded(Unreferenced(t, free[i]), live', free', n')
    ensures k + 1 < |free'| && free'[0] == free[i] && free'[k + 1] == free[k]
  {
    var u, r := Unreferenced(t, free[i]), free[i];
    assert r in Elements(free);
    assert Get(u, FREELIST) == Num(r) == Link(free', 0) && free'[0] == r;
    if k == 0 {
      assert Get(u, free'[0]) == Num(free[0]) == Link(free', 1);
    } else {
      RunsThrough(t, live, free, n, i, live', free', n', k - 1);
      assert free[k - 1] in Elements(free) && free[k - 1] != r;
      assert Get(t, free[k - 1]) == Link(free, k) == Num(free[k]);
      assert Get(u, free'[k]) == Num(free[k]) == Link(free', k + 1);
    }
  }

  lemma FreeReleased(t: Table, live: map<int, Value>, free: seq<int>, n: nat, i: nat)
    requires Threaded(t, live, free, n) && i < |free|
    ensures !Explained(Unreferenced(t, free[i]))
  {
    forall live', free', n' ensures !Threaded(Unreferenced(t, free[i]), live', free', n') {
      if Threaded(Unreferenced(t, free[i]), live', free', n') {
        RunsThrough(t, live, free, n, i, live', free', n', i);
        assert false;
      }
    }
  }

  lemma HeadReleased(t: Table, live: map<int, Value>, free: seq<int>, n: nat)
    requires Threaded(t, live, free, n)
    ensures !Explained(Unreferenced(t, FREELIST))
  {
    var u := Unreferenced(t, FREELIST);
    forall live', free', n' ensures !Threaded(u, live', free', n') {
      HeadIsKey(u, live', free', n');
    }
  }

  lemma HeadIsKey(t: Table, live: map<int, Value>, free: seq<int>, n: nat)
    ensures Threaded(t, live, free, n) ==> Get(t, FREELIST) != Num(FREELIST)
  {
    if Threaded(t, live, free, n) && free != [] { assert free[0] in Elements(free); }
  }

  /** A key further on leaves key n + 1 as a second hole. */
  lemma FarReleased(t: Table, live: map<int, Value>, free: seq<int>, n: nat, r: int)
    requires Threaded(t, live, free, n) && r > n + 1
    ensures !Explained(Unreferenced(t, r))
  {
    var u := Unreferenced(t, r);
    forall live', free', n' ensures !Threaded(u, live', free', n') {
      TwoHoles(t, live, free, n, r, live', free', n');
    }
  }

  lemma TwoHoles(t: Table, live: map<int, Value>, free: seq<int>, n: nat, r: int, live': map<int, Value>,
                 free': seq<int>, n': nat)
    requires Threaded(t, live, free, n) && r > n + 1
    ensures !Threaded(Unreferenced(t, r), live', free', n')
  {
    var u := Unreferenced(t, r);
    if Threaded(u, live', free', n') {
      assert Get(u, FREELIST) == Num(r) == Link(free', 0);
      assert free'[0] == r && r in Elements(free') && n' >= r;
      OneHole(u, live', free', n', n + 1);
      assert Get(u, n + 1) == Nil;
      if free == [] {
        assert Get(u, r) == Nil;
        OneHole(u, live', free', n', r);
      } else {
        var last := free[|free| - 1];
        assert last in Elements(free);
        OneHole(t, live, free, n, last);
        OneHole(u, live', free', n', last);
      }
    }
  }

  /** Releasing a number that is not negative leaves a table that live references and a free list explain if and only if
      the number is a live reference or the key after all that have been used. */
  lemma ReleaseExact(t: Table, live: map<int, Value>, free: seq<int>, n: nat, r: int)
    requires Threaded(t, live, free, n) && r >= 0
    ensures Explained(Unreferenced(t, r)) <==> r in live || r == n + 1
  {
    hide Threaded;
    if r in live {
      PutBack(t, live, free, n, r);
    } else if r == n + 1 {
      NextReleased(t, live, free, n);
    } else if r == FREELIST {
      HeadReleased(t, live, free, n);
    } else if r > n + 1 {
      FarReleased(t, live, free, n, r);
    } else {
      var i := FreeAt(t, live, free, n, r);
      FreeReleased(t, live, free, n, i);
    }
    NotBoth(t, live, free, n);
  }

  lemma NotBoth(t: Table, live: map<int, Value>, free: seq<int>, n: nat)
    requires Threaded(t, live, free, n)
    ensures FREELIST !in live && forall r {:trigger r in live} | r in live :: r <= n
  {
  }

  lemma FreeAt(t: Table, live: map<int, Value>, free: seq<int>, n: nat, r: int) returns (i: nat)
    requires Threaded(t, live, free, n) && 1 <= r <= n && r !in live
    ensures i < |free| && free[i] == r
  {
    assert r in Elements(free);
    i :| i < |free| && free[i] == r;
  }

  /** Releasing a reference twice in a row ties the free list into a knot: the key leads to itself. */
  lemma ReleasedTwice(t: Table, ref: int)
    requires ref >= 1
    ensures var u := Unreferenced(Unreferenced(t, ref), ref); Get(u, FREELIST) == Num(ref) && Get(u, ref) == Num(ref)
  {
  }
}
