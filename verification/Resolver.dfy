// gSOAP's id/href resolver: slots that refer to an id before it is defined hang together in a chain that runs through the
// slots themselves; soap_resolve follows the chains and puts the locations in.
module Resolver {
  import opened Permutations
  import opened IdTable

  /** What an address of the client's memory is used for. */
  datatype Use = RefOf(id: string) | CopyOf(id: string)

  /** The slots that wait for an id, the places that wait for a copy of it, and the slots that hold its location. */
  datatype Fact = Fact(refs: seq<int>, copies: seq<int>, held: set<int>)

  datatype Error = NoError | Href | DuplicateId | MissingId

  // ----- chains through memory

  function Next(slots: seq<int>, i: nat): int { if i < |slots| then slots[i] else 0 }

  /** From head, each slot leads to the next, and the last to 0. */
  ghost predicate Chain(mem: seq<int>, head: int, slots: seq<int>) {
    head == Next(slots, 0) && Distinct(slots) &&
    forall i {:trigger slots[i]} | 0 <= i < |slots| :: 0 < slots[i] < |mem| && mem[slots[i]] == Next(slots, i + 1)
  }

  /** No address behind q, within n, is in use. */
  ghost predicate Clear(owner: map<int, Use>, q: int, n: nat) {
    forall a {:trigger a in owner} | q < a < q + n :: a !in owner
  }

  ghost predicate Uses(owner: map<int, Use>, slots: set<int>, use: Use) {
    forall s {:trigger s in slots} | s in slots :: s in owner && owner[s] == use
  }

  ghost predicate RoomFor(mem: seq<int>, owner: map<int, Use>, copies: seq<int>, n: nat) {
    forall q {:trigger q in copies} | q in copies :: q + n <= |mem| && Clear(owner, q, n)
  }

  /** An entry and the memory agree on what waits and what is settled. */
  ghost predicate EntryOk(mem: seq<int>, e: Entry, f: Fact, owner: map<int, Use>) {
    Chain(mem, e.link, f.refs) && Chain(mem, e.copy, f.copies) &&
    Uses(owner, Elements(f.refs), RefOf(e.id)) && Uses(owner, f.held, RefOf(e.id)) && Uses(owner, Elements(f.copies), CopyOf(e.id)) &&
    RoomFor(mem, owner, f.copies, e.size) &&
    (forall s {:trigger s in f.held} | s in f.held :: 0 < s < |mem| && mem[s] == e.ptr) && (f.held != {} ==> e.ptr != 0)
  }

  predicate Marked(id: string) { id != "" && id[0] == '#' }

  /** Only ids with # have places that wait. */
  ghost predicate Named(facts: map<string, Fact>) {
    forall id {:trigger facts[id]} | id in facts && facts[id].copies != [] :: Marked(id)
  }

  /** All slots that refer to the id. */
  ghost function Slots(f: Fact): set<int> { Elements(f.refs) + f.held }

  /** Outside the places that wait for this id's copy. */
  ghost predicate Aside(p: int, copies: seq<int>, n: nat) {
    forall q {:trigger q in copies} | q in copies :: !(q < p < q + n)
  }

  /** A write to an address not yet in use does not touch an entry. */
  lemma EntryKept(mem: seq<int>, e: Entry, f: Fact, owner: map<int, Use>, p: int, v: int, u: Use)
    requires EntryOk(mem, e, f, owner) && 0 <= p < |mem| && p !in owner && Aside(p, f.copies, e.size)
    ensures EntryOk(mem[p := v], e, f, owner[p := u])
  {
    forall i | 0 <= i < |f.refs| ensures f.refs[i] != p {
      assert f.refs[i] in Elements(f.refs);
    }
    forall i | 0 <= i < |f.copies| ensures f.copies[i] != p {
      assert f.copies[i] in Elements(f.copies);
    }
  }

  lemma Prepended(mem: seq<int>, head: int, slots: seq<int>, p: int)
    requires Chain(mem, head, slots) && 0 < p < |mem| && p !in slots
    ensures Chain(mem[p := head], p, [p] + slots)
  {
    var s := [p] + slots;
    forall i | 0 <= i < |s| ensures 0 < s[i] < |mem| && mem[p := head][s[i]] == Next(s, i + 1) {
      if i > 0 { assert s[i] == slots[i - 1]; }
    }
  }

  ghost predicate AllOk(mem: seq<int>, view: map<string, Entry>, facts: map<string, Fact>, owner: map<int, Use>) {
    facts.Keys == view.Keys && forall id {:trigger view[id]} {:trigger facts[id]} | id in view ::
      view[id].id == id && EntryOk(mem, view[id], facts[id], owner)
  }

  /** One entry is entered or changed along with an address not in use. */
  lemma OneStored(mem: seq<int>, view: map<string, Entry>, facts: map<string, Fact>, owner: map<int, Use>,
                  e: Entry, f: Fact, p: int, v: int, u: Use)
    requires AllOk(mem, view, facts, owner) && 0 <= p < |mem| && p !in owner && EntryOk(mem[p := v], e, f, owner[p := u])
    requires forall id {:trigger facts[id]} | id in facts :: Aside(p, facts[id].copies, view[id].size)
    ensures AllOk(mem[p := v], view[e.id := e], facts[e.id := f], owner[p := u])
  {
    hide EntryOk, Aside;
    forall id {:trigger view[id]} | id in view && id != e.id ensures EntryOk(mem[p := v], view[id], facts[id], owner[p := u]) {
      EntryKept(mem, view[id], facts[id], owner, p, v, u);
    }
  }

  /** A slot joins the chain of those that wait. */
  lemma RefJoins(mem: seq<int>, e: Entry, f: Fact, owner: map<int, Use>, p: int)
    requires EntryOk(mem, e, f, owner) && 0 < p < |mem| && p !in owner && Aside(p, f.copies, e.size)
    ensures EntryOk(mem[p := e.link], e.(link := p), f.(refs := [p] + f.refs), owner[p := RefOf(e.id)])
    ensures Slots(f.(refs := [p] + f.refs)) == Slots(f) + {p}
  {
    hide Chain;
    assert p in f.refs <==> p in Elements(f.refs);
    Prepended(mem, e.link, f.refs, p);
    assert Elements([p] + f.refs) == Elements(f.refs) + {p};
    ChainKept(mem, e.copy, f.copies, p, e.link, owner, CopyOf(e.id));
  }

  lemma ChainKept(mem: seq<int>, head: int, slots: seq<int>, p: int, v: int, owner: map<int, Use>, u: Use)
    requires Chain(mem, head, slots) && Uses(owner, Elements(slots), u) && p !in owner && 0 <= p < |mem|
    ensures Chain(mem[p := v], head, slots)
  {
    forall i | 0 <= i < |slots| ensures slots[i] != p {
      assert slots[i] in Elements(slots);
    }
  }

  /** A slot gets the location at once. */
  lemma RefHeld(mem: seq<int>, e: Entry, f: Fact, owner: map<int, Use>, p: int)
    requires EntryOk(mem, e, f, owner) && 0 < p < |mem| && p !in owner && Aside(p, f.copies, e.size) && e.ptr != 0
    ensures EntryOk(mem[p := e.ptr], e, f.(held := f.held + {p}), owner[p := RefOf(e.id)])
    ensures Slots(f.(held := f.held + {p})) == Slots(f) + {p}
  {
    hide Chain;
    ChainKept(mem, e.link, f.refs, p, e.ptr, owner, RefOf(e.id));
    ChainKept(mem, e.copy, f.copies, p, e.ptr, owner, CopyOf(e.id));
  }

  /** A place joins the chain of those that wait for a copy. */
  lemma CopyJoins(mem: seq<int>, e: Entry, f: Fact, owner: map<int, Use>, p: int)
    requires EntryOk(mem, e, f, owner) && 0 < p < |mem| && p !in owner && Aside(p, f.copies, e.size)
    requires p + e.size <= |mem| && Clear(owner, p, e.size)
    ensures EntryOk(mem[p := e.copy], e.(copy := p), f.(copies := [p] + f.copies), owner[p := CopyOf(e.id)])
  {
    hide Chain;
    assert p in f.copies <==> p in Elements(f.copies);
    Prepended(mem, e.copy, f.copies, p);
    assert Elements([p] + f.copies) == Elements(f.copies) + {p};
    ChainKept(mem, e.link, f.refs, p, e.copy, owner, RefOf(e.id));
  }

  lemma NewEntry(mem: seq<int>, e: Entry, owner: map<int, Use>)
    requires e.link == 0 && e.copy == 0
    ensures EntryOk(mem, e, Fact([], [], {}), owner)
  {
  }

  /** The definition arrives. */
  lemma Defined(mem: seq<int>, e: Entry, f: Fact, owner: map<int, Use>, p: int, n: nat)
    requires EntryOk(mem, e, f, owner) && e.ptr == 0 && (e.copy == 0 || n == e.size)
    ensures EntryOk(mem, e.(ptr := p, size := n), f, owner)
  {
    assert f.copies != [] ==> f.copies[0] > 0;
  }

  class Soap {
    const mem: array<int>
    const iht: array<seq<Entry>>
    // the ids as a plain map, what is known of each, and the addresses in use
    ghost var view: map<string, Entry>
    ghost var facts: map<string, Fact>
    ghost var owner: map<int, Use>

    ghost predicate EntriesOk()
      reads this, mem
    {
      AllOk(mem[..], view, facts, owner)
    }

    ghost predicate Valid()
      reads this, mem, iht
    {
      Represents(iht[..], view) && EntriesOk() && Named(facts)
    }

    /** An address that nothing uses yet. */
    ghost predicate Usable(p: int)
      reads this
    {
      0 < p < mem.Length && p !in owner && facts.Keys == view.Keys &&
      forall id {:trigger facts[id]} | id in facts :: Aside(p, facts[id].copies, view[id].size)
    }

    /** Only id's own entry may change. */
    ghost predicate OthersKept(view0: map<string, Entry>, facts0: map<string, Fact>, id: string)
      reads this
    {
      view.Keys == view0.Keys + {id} && facts.Keys == facts0.Keys + {id} &&
      (forall j {:trigger view[j]} | j in view0 && j != id :: view[j] == view0[j]) &&
      forall j {:trigger facts[j]} | j in facts0 && j != id :: facts[j] == facts0[j]
    }

    /** What kind of object the id stands for: as first mentioned. */
    ghost predicate Kind(view0: map<string, Entry>, id: string, t: int, n: nat)
      reads this
    {
      id in view && view[id].typ == (if id in view0 then view0[id].typ else t) &&
      view[id].size == (if id in view0 then view0[id].size else n)
    }

    /** Id has gained slots that refer to it, and places that wait for a copy of it, and nothing else. */
    ghost predicate Joined(view0: map<string, Entry>, facts0: map<string, Fact>, id: string, slots: set<int>,
                           places: seq<int>)
      reads this
    {
      OthersKept(view0, facts0, id) && id in facts && id in view &&
      Slots(facts[id]) == (if id in facts0 then Slots(facts0[id]) else {}) + slots &&
      facts[id].copies == places + (if id in facts0 then facts0[id].copies else []) &&
      view[id].ptr == (if id in view0 then view0[id].ptr else 0)
    }

    constructor (memory: array<int>, buckets: nat)
      requires buckets > 0
      ensures Valid() && view == map[] && facts == map[] && owner == map[] && mem == memory && fresh(iht)
      ensures iht.Length == buckets
    {
      mem := memory;
      iht := new seq<Entry>[buckets](_ => []);
      view, facts, owner := map[], map[], map[];
    }

    /** Write v to an address not in use and enter or update one entry. */
    method Store(h: nat, i: nat, e: Entry, isNew: bool, p: int, v: int, ghost f: Fact, ghost u: Use)
      requires Valid() && Usable(p) && facts.Keys == view.Keys
      requires if isNew then e.id !in view && h == Hash(e.id, iht.Length)
               else h < iht.Length && i < |iht[h]| && iht[h][i].id == e.id && e.id in view
      requires EntryOk(mem[..][p := v], e, f, owner[p := u]) && (f.copies != [] ==> Marked(e.id))
      modifies this, mem, iht
      ensures Valid() && view == old(view)[e.id := e] && facts == old(facts)[e.id := f] && owner == old(owner)[p := u]
      ensures mem[..] == old(mem[..])[p := v]
    {
      hide EntryOk, Represents, AllOk, Hash, Aside;
      ghost var m, tab := mem[..], iht[..];
      TableLength(tab, view);
      if isNew {
        Entered(tab, view, e);
        iht[h] := [e] + iht[h];
        assert iht[..] == tab[h := [e] + tab[h]];
      } else {
        assert tab[h] == iht[h];
        Updated(tab, view, h, i, e);
        iht[h] := iht[h][i := e];
        assert iht[..] == tab[h := tab[h][i := e]];
      }
      OneStored(m, view, facts, owner, e, f, p, v, u);
      mem[p] := v;
      assert mem[..] == m[p := v];
      view, facts, owner := view[e.id := e], facts[e.id := f], owner[p := u];
    }

    lemma TableLength(tab: seq<seq<Entry>>, v: map<string, Entry>)
      requires Represents(tab, v)
      ensures |tab| > 0
    {
    }

    /** The slot p refers to an id that is known already. */
    method AnotherSlot(id: string, p: int, h: nat, i: nat)
      requires Valid() && Usable(p) && h < iht.Length && i < |iht[h]| && iht[h][i].id == id && id in view
      requires view[id] == iht[h][i]
      modifies this, mem, iht
      ensures Valid() && Joined(old(view), old(facts), id, {p}, [])
      ensures Kind(old(view), id, old(view)[id].typ, old(view)[id].size) && owner == old(owner)[p := RefOf(id)]
      ensures forall a {:trigger mem[a]} | 0 <= a < mem.Length && a != p :: mem[a] == old(mem[a])
    {
      hide EntryOk, HashFrom, Represents, Slots, Aside;
      ghost var m := mem[..];
      var e := iht[h][i];
      ghost var f := facts[id];
      if e.ptr != 0 {
        RefHeld(m, e, f, owner, p);
        Store(h, i, e, false, p, e.ptr, f.(held := f.held + {p}), RefOf(id));
      } else {
        RefJoins(m, e, f, owner, p);
        Store(h, i, e.(link := p), false, p, e.link, f.(refs := [p] + f.refs), RefOf(id));
      }
    }

    /** soap_id_lookup, at one and the same level: the slot p refers to id. */
    method IdLookup(id: string, p: int, t: int, n: nat) returns (r: int, err: Error)
      requires Valid() && (p == 0 || id == "" || Usable(p))
      modifies this, mem, iht
      ensures Valid() && (err == NoError ==> r == p) && (err == NoError || err == Href)
      ensures p == 0 || id == "" ==> err == NoError && view == old(view) && facts == old(facts) && owner == old(owner)
      ensures p != 0 && id != "" ==>
        (err == Href <==> id in old(view) && old(view)[id].ptr != 0 && old(view)[id].typ != t)
      ensures p != 0 && id != "" && err == NoError ==> Joined(old(view), old(facts), id, {p}, []) && Kind(old(view), id, t, n)
      ensures p != 0 && id != "" && err == NoError ==> owner == old(owner)[p := RefOf(id)]
      ensures forall a {:trigger mem[a]} | 0 <= a < mem.Length && (a != p || err != NoError) :: mem[a] == old(mem[a])
      ensures err != NoError ==> view == old(view) && facts == old(facts) && owner == old(owner)
    {
      hide EntryOk, HashFrom, Represents, Slots, Aside;
      r, err := p, NoError;
      if p == 0 || id == "" { return; }
      var found, h, i := Lookup(iht, id, view);
      ghost var m := mem[..];
      if !found {
        var e := Entry(id, t, n, 0, 0, 0);
        NewEntry(m, e, owner);
        NothingWaits(p, n);
        RefJoins(m, e, Fact([], [], {}), owner, p);
        Store(h, i, e.(link := p), true, p, 0, Fact([p] + [], [], {}), RefOf(id));
        return;
      }
      if iht[h][i].ptr != 0 && iht[h][i].typ != t { return 0, Href; }
      AnotherSlot(id, p, h, i);
    }

    lemma NothingWaits(p: int, n: nat)
      ensures Aside(p, [], n) && Slots(Fact([], [], {})) == {}
    {
    }

    /** soap_id_forward for an id with #, where the object is copied as it is: the place p waits for a copy. */
    method IdForward(href: string, p: int, st: int, n: nat) returns (r: int, err: Error)
      requires Valid() && (p == 0 || href == "" || (Marked(href) && Usable(p) && p + n <= mem.Length && Clear(owner, p, n)))
      modifies this, mem, iht
      ensures Valid() && (err == NoError ==> r == p) && (err == NoError || err == Href)
      ensures p == 0 || href == "" ==> err == NoError && view == old(view) && facts == old(facts) && owner == old(owner)
      ensures p != 0 && href != "" ==>
        (err == Href <==> href in old(view) && (old(view)[href].typ != st || old(view)[href].size != n))
      ensures p != 0 && href != "" && err == NoError ==> Joined(old(view), old(facts), href, {}, [p]) && Kind(old(view), href, st, n)
      ensures p != 0 && href != "" && err == NoError ==> owner == old(owner)[p := CopyOf(href)]
      ensures forall a {:trigger mem[a]} | 0 <= a < mem.Length && (a != p || err != NoError) :: mem[a] == old(mem[a])
      ensures err != NoError ==> view == old(view) && facts == old(facts) && owner == old(owner)
    {
      hide EntryOk, HashFrom, Represents, Aside, Clear;
      r, err := p, NoError;
      if p == 0 || href == "" { return; }
      var found, h, i := Lookup(iht, href, view);
      ghost var m := mem[..];
      if !found {
        var e := Entry(href, st, n, 0, 0, 0);
        NewEntry(m, e, owner);
        NothingWaits(p, n);
        CopyJoins(m, e, Fact([], [], {}), owner, p);
        Store(h, i, e.(copy := p), true, p, 0, Fact([], [p] + [], {}), CopyOf(href));
        return;
      }
      var e := iht[h][i];
      ghost var f := facts[href];
      if e.typ != st || e.size != n { return 0, Href; }
      CopyJoins(m, e, f, owner, p);
      Store(h, i, e.(copy := p), false, p, e.copy, f.(copies := [p] + f.copies), CopyOf(href));
    }

    /** soap_id_enter: the id is defined, at p. */
    method IdEnter(id: string, p: int, t: int, n: nat) returns (r: int, err: Error)
      requires Valid() && p > 0
      modifies this, iht
      ensures Valid() && (err == NoError ==> r == p) && owner == old(owner)
      ensures id == "" ==> err == NoError && view == old(view) && facts == old(facts)
      ensures id != "" ==> (err == DuplicateId <==> id in old(view) && old(view)[id].ptr != 0 && !Clash(old(view)[id], t, n))
      ensures id != "" ==> (err == Href <==> id in old(view) && Clash(old(view)[id], t, n)) && err != MissingId
      ensures id != "" && err == NoError ==> OthersKept(old(view), old(facts), id) && id in view && view[id].ptr == p && view[id].size == n
      ensures id != "" && err == NoError ==> view[id].typ == (if id in old(view) then old(view)[id].typ else t)
      ensures err != NoError ==> view == old(view) && facts == old(facts)
      ensures id != "" && err == NoError ==> facts[id] == (if id in old(facts) then old(facts)[id] else Fact([], [], {}))
    {
      hide EntryOk, Represents;
      r, err := p, NoError;
      if id == "" { return; }
      var found, h, i := Lookup(iht, id, view);
      ghost var m, tab := mem[..], iht[..];
      TableLength(tab, view);
      if !found {
        var e := Entry(id, t, n, 0, 0, p);
        NewEntry(m, e, owner);
        Entered(tab, view, e);
        iht[h] := [e] + iht[h];
        assert iht[..] == tab[h := [e] + tab[h]];
        view, facts := view[id := e], facts[id := Fact([], [], {})];
        return;
      }
      var e := iht[h][i];
      if (e.typ != t || e.size != n) && e.copy != 0 { return 0, Href; }
      if e.ptr != 0 { return 0, DuplicateId; }
      Defined(m, e, facts[id], owner, p, n);
      assert tab[h] == iht[h];
      Updated(tab, view, h, i, e.(ptr := p, size := n));
      iht[h] := iht[h][i := e.(ptr := p, size := n)];
      assert iht[..] == tab[h := tab[h][i := e.(ptr := p, size := n)]];
      view := view[id := e.(ptr := p, size := n)];
    }

    // ----- soap_resolve, first phase: the chains of slots

    /** Memory differs at these slots only, which all hold v. */
    ghost predicate Settled(mem0: seq<int>, slots: seq<int>, i: nat, v: int)
      requires i <= |slots|
      reads mem
    {
      |mem0| == mem.Length &&
      (forall k {:trigger slots[k]} | 0 <= k < i :: 0 < slots[k] < mem.Length && mem[slots[k]] == v) &&
      forall a {:trigger mem[a]} | 0 <= a < mem.Length && a !in Elements(slots[..i]) :: mem[a] == mem0[a]
    }

    /** Follow the chain from q and put r into every slot. */
    method FollowLink(q0: int, r: int, ghost slots: seq<int>)
      requires Chain(mem[..], q0, slots)
      modifies mem
      ensures SettledTo(old(mem[..]), mem[..], slots, r)
    {
      ghost var m, i := mem[..], 0;
      var q := q0;
      while q != 0
        invariant 0 <= i <= |slots| && q == Next(slots, i) && Settled(m, slots, i, r) && |m| == mem.Length
        decreases |slots| - i
      {
        assert 0 < slots[i] < |m| && m[slots[i]] == Next(slots, i + 1);
        NotBefore(slots, i);
        var p := mem[q];
        mem[q] := r;
        q := p;
        assert slots[..i + 1] == slots[..i] + [slots[i]];
        i := i + 1;
      }
      ChainEnds(m, q0, slots, i);
      assert slots[..i] == slots;
    }

    lemma NotBefore(slots: seq<int>, i: nat)
      requires Distinct(slots) && i < |slots|
      ensures slots[i] !in Elements(slots[..i])
      ensures Elements(slots[..i + 1]) == Elements(slots[..i]) + {slots[i]}
    {
      assert slots[..i + 1] == slots[..i] + [slots[i]];
    }

    lemma ChainEnds(m: seq<int>, head: int, slots: seq<int>, i: nat)
      requires Chain(m, head, slots) && i <= |slots| && Next(slots, i) == 0
      ensures i == |slots|
    {
    }

    /** The entry's chain is followed, and all of its slots hold the location. */
    method SettleEntry(h: nat, k: nat)
      requires Valid() && h < iht.Length && k < |iht[h]| && iht[h][k].ptr != 0
      modifies this`view, this`facts, mem, iht
      ensures Valid() && iht[..] == old(iht[..])[h := old(iht[..])[h][k := old(iht[h][k]).(link := 0)]]
      ensures old(iht[h][k]).id in old(facts) && facts.Keys == old(facts.Keys)
      ensures view == old(view)[old(iht[h][k]).id := old(iht[h][k]).(link := 0)]
      ensures facts == old(facts)[old(iht[h][k]).id := AllHeld(old(facts)[old(iht[h][k]).id])]
      ensures SettledTo(old(mem[..]), mem[..], old(facts)[old(iht[h][k]).id].refs, old(iht[h][k]).ptr)
    {
      hide EntryOk, Represents, Chain, Slots;
      ghost var m, tab, f := mem[..], iht[..], old(facts);
      var e := iht[h][k];
      assert tab[h] == iht[h];
      EntryAt(tab, view, h, k);
      EntryChain(m, e, facts[e.id], owner);
      FollowLink(e.link, e.ptr, facts[e.id].refs);
      AllSettled(m, mem[..], e, facts[e.id], owner);
      forall id {:trigger view[id]} | id in view && id != e.id ensures EntryOk(mem[..], view[id], facts[id], owner) {
        SlotsElsewhere(m, mem[..], view[id], facts[id], owner, facts[e.id].refs, e.id, e, facts[e.id]);
      }
      Updated(tab, view, h, k, e.(link := 0));
      iht[h] := iht[h][k := e.(link := 0)];
      assert iht[..] == tab[h := tab[h][k := e.(link := 0)]];
      view, facts := view[e.id := e.(link := 0)], facts[e.id := AllHeld(facts[e.id])];
    }

    /** What the first phase keeps of an id. */
    ghost predicate LinksOnly(view0: map<string, Entry>, facts0: map<string, Fact>)
      reads this`view, this`facts
    {
      view.Keys == view0.Keys == facts.Keys == facts0.Keys &&
      forall id {:trigger view[id]} {:trigger facts[id]} | id in view ::
        view[id] == view0[id].(link := view[id].link) && Slots(facts[id]) == Slots(facts0[id]) &&
        facts[id].copies == facts0[id].copies
    }

    /** Entries up to place k of bucket h have been dealt with. */
    ghost predicate Passed(h: nat, k: nat)
      reads this`view, this`facts, iht
    {
      h <= iht.Length &&
      forall g, i {:trigger iht[g][i]} | 0 <= g < iht.Length && 0 <= i < |iht[g]| && (g < h || (g == h && i < k)) ::
        PassedId(iht[g][i].id)
    }

    ghost predicate PassedId(id: string)
      reads this`view, this`facts
    {
      id in view && id in facts && (view[id].ptr != 0 ==> facts[id].refs == []) && (view[id].ptr == 0 ==> !Marked(id))
    }

    /** Follow the chain of the entry at place k of bucket h. */
    method LinkEntry(h: nat, k: nat, ghost mem0: seq<int>, ghost view0: map<string, Entry>, ghost facts0: map<string, Fact>)
      returns (missing: bool)
      requires Valid() && LinksOnly(view0, facts0) && h < iht.Length && k < |iht[h]| && Passed(h, k)
      requires SlotsOnly(mem0, mem[..], facts0)
      modifies this`view, this`facts, mem, iht
      ensures Valid() && LinksOnly(view0, facts0) && |iht[h]| == old(|iht[h]|) && SlotsOnly(mem0, mem[..], facts0)
      ensures missing ==> exists id {:trigger view[id]} :: id in view && view[id].ptr == 0 && Marked(id)
      ensures !missing ==> Passed(h, k + 1)
    {
      hide EntryOk, AllOk, Represents, Slots, Hash, HashFrom, SlotsOnly, SettledTo, Named;
      ghost var tab, e, m := iht[..], iht[h][k], mem[..];
      assert tab[h] == iht[h];
      EntryAt(tab, view, h, k);
      ghost var f := facts[e.id];
      missing := false;
      if iht[h][k].ptr != 0 {
        NowHeld(facts[e.id]);
        SettleEntry(h, k);
        SlotsStep(mem0, m, mem[..], facts0, e.id, f, e.ptr);
        assert iht[h] == tab[h][k := e.(link := 0)];
      } else if iht[h][k].id != "" && iht[h][k].id[0] == '#' {
        missing := true;
      }
    }

    /** Fill in all chains, unless an id with # is not defined. */
    method LinkPhase() returns (err: Error)
      requires Valid()
      modifies this`view, this`facts, mem, iht
      ensures Valid() && LinksOnly(old(view), old(facts)) && err in {NoError, MissingId}
      ensures SlotsOnly(old(mem[..]), mem[..], old(facts))
      ensures err == NoError ==> forall id {:trigger view[id]} | id in view :: PassedId(id)
      ensures err == MissingId ==> exists id {:trigger view[id]} :: id in view && view[id].ptr == 0 && Marked(id)
    {
      hide EntryOk, Represents, Slots, SlotsOnly;
      NothingWritten(mem[..], facts);
      var h := 0;
      while h < iht.Length
        invariant 0 <= h <= iht.Length && Valid() && LinksOnly(old(view), old(facts)) && Passed(h, 0)
        invariant SlotsOnly(old(mem[..]), mem[..], old(facts))
      {
        var k := 0;
        while k < |iht[h]|
          invariant h < iht.Length && 0 <= k <= |iht[h]| && Valid() && LinksOnly(old(view), old(facts)) && Passed(h, k)
          invariant SlotsOnly(old(mem[..]), mem[..], old(facts))
          decreases |iht[h]| - k
        {
          var missing := LinkEntry(h, k, old(mem[..]), old(view), old(facts));
          if missing { return MissingId; }
          k := k + 1;
        }
        h := h + 1;
      }
      AllPassed();
      err := NoError;
    }

    lemma SlotsStep(mem0: seq<int>, m: seq<int>, m': seq<int>, facts0: map<string, Fact>, id: string, f: Fact, v: int)
      requires SlotsOnly(mem0, m, facts0) && SettledTo(m, m', f.refs, v) && id in facts0 && Slots(facts0[id]) == Slots(f)
      ensures SlotsOnly(mem0, m', facts0)
    {
      forall a {:trigger m'[a]} | 0 <= a < |m'| && !InAnySlot(a, facts0) ensures m'[a] == mem0[a] {
        assert a !in Slots(facts0[id]);
        assert m[a] == mem0[a];
      }
    }

    lemma NowHeld(f: Fact)
      ensures Slots(AllHeld(f)) == Slots(f) && AllHeld(f).refs == [] && AllHeld(f).copies == f.copies
    {
    }

    lemma AllPassed()
      requires Represents(iht[..], view) && Passed(iht.Length, 0)
      ensures forall id {:trigger view[id]} | id in view :: PassedId(id)
    {
      forall id {:trigger view[id]} | id in view ensures PassedId(id) {
        var g := Hash(id, iht.Length);
        assert view[id] in iht[..][g];
        var i :| 0 <= i < |iht[..][g]| && iht[..][g][i] == view[id];
        assert iht[g][i].id == id;
      }
    }

    // ----- second phase: the chains of places that wait for a copy

    /** soap_has_copies: whether a place that waits lies from start to end - 1. */
    method HasCopies(start: int, end: int) returns (some: bool)
      requires Valid()
      ensures some <==> Waits(facts, start, end)
    {
      hide EntryOk, Represents, Chain;
      var h := 0;
      while h < iht.Length
        invariant 0 <= h <= iht.Length
        invariant forall g, i {:trigger iht[g][i]} | 0 <= g < h && 0 <= i < |iht[g]| :: !WaitsFor(facts, iht[g][i].id, start, end)
      {
        var k := 0;
        while k < |iht[h]|
          invariant 0 <= k <= |iht[h]|
          invariant forall i {:trigger iht[h][i]} | 0 <= i < k :: !WaitsFor(facts, iht[h][i].id, start, end)
          decreases |iht[h]| - k
        {
          assert iht[..][h] == iht[h];
          EntryAt(iht[..], view, h, k);
          var e := iht[h][k];
          CopyChain(mem[..], e, facts[e.id], owner);
          var found := InChain(e.copy, start, end, facts[e.id].copies);
          if found {
            assert WaitsFor(facts, e.id, start, end);
            return true;
          }
          k := k + 1;
        }
        h := h + 1;
      }
      NoneWaits(start, end);
      some := false;
    }

    method InChain(q0: int, start: int, end: int, ghost slots: seq<int>) returns (found: bool)
      requires Chain(mem[..], q0, slots)
      ensures found <==> exists q {:trigger q in slots} :: q in slots && start <= q < end
    {
      ghost var i := 0;
      var q := q0;
      while q != 0
        invariant 0 <= i <= |slots| && q == Next(slots, i) && forall k {:trigger slots[k]} | 0 <= k < i :: !(start <= slots[k] < end)
        decreases |slots| - i
      {
        assert 0 < slots[i] < mem.Length && mem[slots[i]] == Next(slots, i + 1);
        if start <= q < end {
          assert slots[i] in slots;
          return true;
        }
        q := mem[q];
        i := i + 1;
      }
      ChainEnds(mem[..], q0, slots, i);
      found := false;
    }

    lemma NoneWaits(start: int, end: int)
      requires Represents(iht[..], view) && facts.Keys == view.Keys
      requires forall g, i {:trigger iht[g][i]} | 0 <= g < iht.Length && 0 <= i < |iht[g]| :: !WaitsFor(facts, iht[g][i].id, start, end)
      ensures !Waits(facts, start, end)
    {
      forall id | id in facts ensures !WaitsFor(facts, id, start, end) {
        var g := Hash(id, iht.Length);
        assert view[id] in iht[..][g];
        var i :| 0 <= i < |iht[..][g]| && iht[..][g][i] == view[id];
        assert iht[g][i].id == id;
      }
    }

    /** memcpy, of stretches that do not overlap. */
    method MemCpy(q: int, src: int, n: nat)
      requires 0 <= q && 0 <= src && q + n <= mem.Length && src + n <= mem.Length && (q + n <= src || src + n <= q)
      modifies mem
      ensures CopiedOne(old(mem[..]), mem[..], q, src, n)
    {
      ghost var m := mem[..];
      for d := 0 to n
        invariant forall a {:trigger mem[a]} | 0 <= a < mem.Length :: mem[a] == if q <= a < q + d then m[src + (a - q)] else m[a]
      {
        mem[q + d] := mem[src + d];
      }
    }

    /** Follow the chain from q and copy the object to every place on it. */
    method FollowCopies(q0: int, src: int, n: nat, ghost slots: seq<int>)
      requires Chain(mem[..], q0, slots) && q0 != 0 && Apart(slots, n, src, mem.Length)
      modifies mem
      ensures CopiedTo(old(mem[..]), mem[..], slots, src, n)
    {
      hide Apart, CopiedOne, CopiedTo;
      ghost var m, i := mem[..], 0;
      var q := q0;
      NoneCopied(m, slots, src, n);
      while true
        invariant 0 <= i < |slots| && q == slots[i] && |m| == mem.Length && CopiedTo(m, mem[..], slots[..i], src, n)
        decreases |slots| - i
      {
        ghost var m1 := mem[..];
        PlaceFacts(m, m1, q0, slots, i, src, n);
        var p := mem[q];
        MemCpy(q, src, n);
        OneMore(m, m1, mem[..], slots, i, src, n);
        q := p;
        i := i + 1;
        if q == 0 { break; }
      }
      ChainEnds(m, q0, slots, i);
      assert slots[..i] == slots;
    }

    /** The entry's object is copied to all places on its chain. */
    method CopyEntry(h: nat, k: nat)
      requires Valid() && h < iht.Length && k < |iht[h]| && iht[h][k].ptr != 0 && iht[h][k].copy != 0
      requires LaidOut(view, facts, mem.Length) && !Waits(facts, iht[h][k].ptr, iht[h][k].ptr + iht[h][k].size)
      modifies this`view, this`facts, mem, iht
      ensures Valid() && iht[..] == old(iht[..])[h := old(iht[..])[h][k := old(iht[h][k]).(copy := 0)]]
      ensures old(iht[h][k]).id in old(facts) && old(iht[h][k]).id in old(view)
      ensures old(view)[old(iht[h][k]).id] == old(iht[h][k])
      ensures view == old(view)[old(iht[h][k]).id := old(iht[h][k]).(copy := 0)]
      ensures facts == Copied(old(facts), old(iht[h][k]).id) && old(facts)[old(iht[h][k]).id].copies != []
      ensures CopiedTo(old(mem[..]), mem[..], old(facts)[old(iht[h][k]).id].copies, old(iht[h][k]).ptr, old(iht[h][k]).size)
    {
      hide EntryOk, Represents, Chain, LaidOut, Waits, WaitsFor, CopiedTo, Apart;
      ghost var m, tab := mem[..], iht[..];
      var e := iht[h][k];
      assert tab[h] == iht[h];
      EntryAt(tab, view, h, k);
      ghost var places := facts[e.id].copies;
      CopyChain(m, e, facts[e.id], owner);
      PlacesApart(m, view, facts, owner, e.id);
      FollowCopies(e.copy, e.ptr, e.size, places);
      SelfCopied(m, mem[..], e, facts[e.id], owner);
      forall id {:trigger view[id]} | id in view && id != e.id ensures EntryOk(mem[..], view[id], facts[id], owner) {
        CopiesElsewhere(m, mem[..], view[id], facts[id], owner, e, facts[e.id]);
      }
      Updated(tab, view, h, k, e.(copy := 0));
      iht[h] := iht[h][k := e.(copy := 0)];
      assert iht[..] == tab[h := tab[h][k := e.(copy := 0)]];
      view, facts := view[e.id := e.(copy := 0)], Copied(facts, e.id);
    }

    /** What the second phase keeps, from its start on. */
    ghost predicate Going(mem0: seq<int>, view0: map<string, Entry>, facts0: map<string, Fact>)
      reads this, mem, iht
    {
      Valid() && CopiesKept(mem[..], view0, facts0, view, facts) && OutsideKept(mem0, mem[..], view0, facts0) &&
      PlacesOk(view0, facts0, owner, mem.Length) && LaidOut(view0, facts0, mem.Length) && Ordered(view0, facts0, facts)
    }

    lemma Begun()
      requires Valid() && LaidOut(view, facts, mem.Length)
      ensures Going(mem[..], view, facts)
    {
      hide EntryOk, LaidOut, PlacesOf, Represents;
      forall id {:trigger facts[id]} | id in facts ensures PlacesOf(facts[id].copies, id, view[id].size, owner, mem.Length) {
        assert view[id].id == id;
        PlacesFromEntry(mem[..], view[id], facts[id], owner);
      }
      assert Timed(map[], view, facts, facts);
    }

    /** The id has no copies to be made, or they cannot be made now. */
    ghost predicate Stuck(id: string)
      reads this`view, this`facts
    {
      id in view && id in facts &&
      (view[id].ptr == 0 || facts[id].copies == [] || Waits(facts, view[id].ptr, view[id].ptr + view[id].size))
    }

    ghost predicate StuckUpTo(h: nat, k: nat)
      reads this`view, this`facts, iht
    {
      h <= iht.Length &&
      forall g, i {:trigger iht[g][i]} | 0 <= g < iht.Length && 0 <= i < |iht[g]| && (g < h || (g == h && i < k)) :: Stuck(iht[g][i].id)
    }

    /** One entry in a round: copied, if nothing in its object waits. */
    method CopyTry(h: nat, k: nat, ghost mem0: seq<int>, ghost view0: map<string, Entry>, ghost facts0: map<string, Fact>)
      returns (flag: bool)
      requires Going(mem0, view0, facts0) && h < iht.Length && k < |iht[h]|
      modifies this`view, this`facts, mem, iht
      ensures Going(mem0, view0, facts0) && |iht[h]| == old(|iht[h]|)
      ensures flag ==> |Waiting(facts)| < |Waiting(old(facts))|
      ensures !flag ==> iht[..] == old(iht[..]) && view == old(view) && facts == old(facts) && Stuck(iht[h][k].id)
    {
      hide EntryOk, Represents, CopiesKept, OutsideKept, PlacesOk, LaidOut, Waits, Waiting, CopiedTo, Ordered;
      ghost var m, e := mem[..], iht[h][k];
      assert iht[..][h] == iht[h];
      EntryAt(iht[..], view, h, k);
      CopyChain(m, view[e.id], facts[e.id], owner);
      ChainEmpty(m, e.copy, facts[e.id].copies);
      flag := false;
      if iht[h][k].ptr != 0 {
        var some := HasCopies(iht[h][k].ptr, iht[h][k].ptr + iht[h][k].size);
        if !some && iht[h][k].copy != 0 {
          LaidOutKept(m, view0, facts0, view, facts, mem.Length);
          CopyStep0(m, view0, facts0, e.id);
          FewerWait(facts, e.id);
          ghost var view1, facts1 := view, facts;
          CopyEntry(h, k);
          CopyStep(m, mem[..], owner, view0, facts0, view1, facts1, e.id);
          OutsideStep(mem0, m, mem[..], view0, facts0, e.id, e.ptr);
          OrderedStep(m, view0, facts0, view1, facts1, e.id);
          flag := true;
        }
      }
    }

    lemma CopyStep0(m: seq<int>, view0: map<string, Entry>, facts0: map<string, Fact>, id: string)
      requires CopiesKept(m, view0, facts0, view, facts) && id in view
      ensures id in view0 && id in facts0 && view[id].size == view0[id].size && (facts[id].copies == [] || facts[id].copies == facts0[id].copies)
    {
    }

    /** One round over all buckets; flag says that something has been copied. */
    method CopyRound(ghost mem0: seq<int>, ghost view0: map<string, Entry>, ghost facts0: map<string, Fact>) returns (flag: bool)
      requires Going(mem0, view0, facts0)
      modifies this`view, this`facts, mem, iht
      ensures Going(mem0, view0, facts0)
      ensures flag ==> |Waiting(facts)| < |Waiting(old(facts))|
      ensures !flag ==> facts == old(facts) && forall id {:trigger view[id]} | id in view :: Stuck(id)
    {
      hide EntryOk, Represents, Waiting, Stuck, Soap.Going;
      flag := false;
      var h := 0;
      while h < iht.Length
        invariant 0 <= h <= iht.Length && Going(mem0, view0, facts0)
        invariant flag ==> |Waiting(facts)| < |Waiting(old(facts))|
        invariant !flag ==> facts == old(facts) && view == old(view) && StuckUpTo(h, 0)
      {
        var k := 0;
        while k < |iht[h]|
          invariant h < iht.Length && 0 <= k <= |iht[h]| && Going(mem0, view0, facts0)
          invariant flag ==> |Waiting(facts)| < |Waiting(old(facts))|
          invariant !flag ==> facts == old(facts) && view == old(view) && StuckUpTo(h, k)
          decreases |iht[h]| - k
        {
          ghost var tab := iht[..];
          var copied := CopyTry(h, k, mem0, view0, facts0);
          assert !copied ==> forall g {:trigger iht[g]} | 0 <= g < iht.Length :: iht[g] == tab[g];
          flag := flag || copied;
          k := k + 1;
        }
        h := h + 1;
      }
      if !flag { AllStuck(mem0, view0, facts0); }
    }

    lemma AllStuck(mem0: seq<int>, view0: map<string, Entry>, facts0: map<string, Fact>)
      requires Going(mem0, view0, facts0) && StuckUpTo(iht.Length, 0)
      ensures forall id {:trigger view[id]} | id in view :: Stuck(id)
    {
      hide EntryOk, CopiesKept, OutsideKept, PlacesOk, LaidOut, Waits, Ordered;
      forall id {:trigger view[id]} | id in view ensures Stuck(id) {
        var g := Hash(id, iht.Length);
        assert view[id] in iht[..][g];
        var i :| 0 <= i < |iht[..][g]| && iht[..][g][i] == view[id];
        assert iht[g][i].id == id;
      }
    }

    /** Rounds until nothing more can be copied. */
    method CopyPhase()
      requires Valid() && LaidOut(view, facts, mem.Length)
      modifies this`view, this`facts, mem, iht
      ensures Going(old(mem[..]), old(view), old(facts)) && forall id {:trigger view[id]} | id in view :: Stuck(id)
    {
      hide Soap.Going, Soap.Stuck, LaidOut, Waiting, Soap.Valid;
      ghost var mem0, view0, facts0 := mem[..], view, facts;
      Begun();
      while true
        invariant Going(mem0, view0, facts0)
        decreases |Waiting(facts)|
      {
        var flag := CopyRound(mem0, view0, facts0);
        if !flag { break; }
      }
    }

    /** All slots that refer to the id hold its location. */
    ghost predicate Linked(id: string)
      reads this`view, this`facts, mem
    {
      id in view && id in facts && view[id].ptr != 0 &&
      forall s {:trigger s in Slots(facts[id])} | s in Slots(facts[id]) :: 0 < s < mem.Length && mem[s] == view[id].ptr
    }

    /** The id's copies are all made, or an id that still waits has a place inside the id's object. */
    ghost predicate Propagated(id: string, facts0: map<string, Fact>)
      reads this`view, this`facts, mem
    {
      id in view && id in facts && id in facts0 &&
      ((facts[id].copies == [] && AllHold(mem[..], facts0[id].copies, view[id].ptr, view[id].size)) ||
       (facts[id].copies == facts0[id].copies != [] && Waits(facts, view[id].ptr, view[id].ptr + view[id].size)))
    }

    lemma LinkedAt(id: string)
      requires Valid() && id in view && facts[id].refs == [] && view[id].ptr != 0
      ensures Linked(id)
    {
      hide Chain, Represents;
      assert EntryOk(mem[..], view[id], facts[id], owner);
      assert Slots(facts[id]) == facts[id].held;
    }

    lemma PropagatedAt(id: string, e1: Entry, f1: Fact, facts0: map<string, Fact>)
      requires id in view && id in facts && CopyKept(mem[..], e1, f1, view[id], facts[id], facts) && Stuck(id)
      requires view[id].ptr != 0 && id in facts0 && facts0[id].copies == f1.copies
      ensures Propagated(id, facts0)
    {
      hide Waits, Holds;
    }

    /** What both phases together have done for an id that is defined. */
    lemma Settling(mem1: seq<int>, view1: map<string, Entry>, facts1: map<string, Fact>, facts0: map<string, Fact>,
                   id: string)
      requires Going(mem1, view1, facts1) && id in view && id in facts0 && Stuck(id) && view[id].ptr != 0
      requires facts1[id].refs == [] && facts1[id].copies == facts0[id].copies
      ensures Linked(id) && Propagated(id, facts0)
    {
      hide EntryOk, Represents, OutsideKept, PlacesOk, LaidOut, Waits, AllHold, Stuck, Soap.Linked, Soap.Propagated, Ordered;
      assert CopyKept(mem[..], view1[id], facts1[id], view[id], facts[id], facts);
      LinkedAt(id);
      PropagatedAt(id, view1[id], facts1[id], facts0);
    }

    /** Which ids there are, where, and which slots refer to them. */
    ghost predicate SameIds(view0: map<string, Entry>, facts0: map<string, Fact>)
      reads this`view, this`facts
    {
      view.Keys == view0.Keys == facts.Keys == facts0.Keys && forall id {:trigger view[id]} | id in view ::
        view[id].ptr == view0[id].ptr && view[id].size == view0[id].size && Slots(facts[id]) == Slots(facts0[id])
    }

    lemma SameAgain(mem1: seq<int>, view1: map<string, Entry>, facts1: map<string, Fact>, view0: map<string, Entry>,
                    facts0: map<string, Fact>)
      requires Going(mem1, view1, facts1) && view1.Keys == view0.Keys == facts1.Keys == facts0.Keys
      requires forall id {:trigger view1[id]} | id in view1 ::
        view1[id] == view0[id].(link := view1[id].link) && Slots(facts1[id]) == Slots(facts0[id])
      ensures SameIds(view0, facts0)
    {
      hide EntryOk, Represents, OutsideKept, PlacesOk, LaidOut, Waits, AllHold, Ordered;
      forall id {:trigger view[id]} | id in view ensures Slots(facts[id]) == Slots(facts0[id]) {
        assert CopyKept(mem[..], view1[id], facts1[id], view[id], facts[id], facts);
      }
    }

    /** After soap_resolve, if the objects are not nested in a circle, nothing waits for a copy. */
    lemma AllCopied(view0: map<string, Entry>, facts0: map<string, Fact>, rank: string -> nat)
      requires Valid() && SameIds(view0, facts0) && Nested(view0, facts0, rank)
      requires forall id {:trigger view[id]} | id in view :: (Marked(id) ==> view[id].ptr != 0) && (view[id].ptr != 0 ==> Propagated(id, facts0))
      ensures forall id {:trigger facts[id]} | id in facts :: facts[id].copies == []
    {
      hide EntryOk, AllOk, Represents, Waits, WaitsFor, AllHold, Nested, Slots;
      forall id {:trigger facts[id]} | id in facts
        ensures facts[id].copies == facts0[id].copies || facts[id].copies == []
        ensures facts[id].copies != [] ==> view[id].ptr != 0 && Waits(facts, view[id].ptr, view[id].ptr + view[id].size) {
        assert view[id].ptr != 0 ==> Propagated(id, facts0);
      }
      StillNested(view0, facts0, view, facts, rank);
      forall id {:trigger facts[id]} | id in facts ensures facts[id].copies == [] {
        NoneLeft(view, facts, rank, id);
      }
    }

    /** No chain of places is left: every copy that was asked for has been made. */
    ghost predicate NoCopyLeft()
      reads this`view
    {
      forall id {:trigger view[id]} | id in view :: view[id].copy == 0
    }

    lemma EmptyChains()
      requires Valid()
      ensures NoCopyLeft() <==> forall id {:trigger facts[id]} | id in facts :: facts[id].copies == []
    {
      hide EntryOk, Represents;
      forall id {:trigger view[id]} {:trigger facts[id]} | id in view ensures view[id].copy == 0 <==> facts[id].copies == [] {
        EmptyChain(id);
      }
    }

    lemma EmptyChain(id: string)
      requires Valid() && id in view
      ensures id in facts && (view[id].copy == 0 <==> facts[id].copies == [])
    {
      hide EntryOk, Chain, Represents;
      CopyChain(mem[..], view[id], facts[id], owner);
      ChainEmpty(mem[..], view[id].copy, facts[id].copies);
    }

    /** All copies are made if and only if the objects were not nested in a circle. */
    lemma CopiesMade(mem1: seq<int>, view1: map<string, Entry>, facts1: map<string, Fact>, view0: map<string, Entry>,
                     facts0: map<string, Fact>)
      requires Going(mem1, view1, facts1) && SameIds(view0, facts0) && view1.Keys == view0.Keys
      requires forall id {:trigger view1[id]} | id in view1 ::
        view1[id].ptr == view0[id].ptr && view1[id].size == view0[id].size && facts1[id].copies == facts0[id].copies
      requires forall id {:trigger view[id]} | id in view :: (Marked(id) ==> view[id].ptr != 0) && (view[id].ptr != 0 ==> Propagated(id, facts0))
      ensures NoCopyLeft() <==> exists rank: string -> nat :: Nested(view0, facts0, rank)
    {
      hide Soap.Valid, CopiesKept, OutsideKept, PlacesOk, LaidOut, Ordered, Nested, Soap.Propagated, Soap.NoCopyLeft, Slots;
      EmptyChains();
      if NoCopyLeft() {
        var rank := RankFromOrder(view1, facts1, facts);
        StillNested(view1, facts1, view0, facts0, rank);
      }
      if exists rank: string -> nat :: Nested(view0, facts0, rank) {
        var rank: string -> nat :| Nested(view0, facts0, rank);
        AllCopied(view0, facts0, rank);
      }
    }

    /** soap_resolve. */
    method Resolve() returns (err: Error)
      requires Valid() && LaidOut(view, facts, mem.Length)
      modifies this`view, this`facts, mem, iht
      ensures Valid() && err in {NoError, MissingId} && SameIds(old(view), old(facts))
      ensures err == MissingId <==> exists id {:trigger old(view)[id]} :: id in old(view) && old(view)[id].ptr == 0 && Marked(id)
      ensures err == NoError ==> forall id {:trigger view[id]} | id in view && view[id].ptr != 0 :: Linked(id) && Propagated(id, old(facts))
      ensures err == NoError ==> OnlyTheirs(old(mem[..]), mem[..], old(view), old(facts))
      ensures err == NoError ==> (NoCopyLeft() <==> exists rank: string -> nat :: Nested(old(view), old(facts), rank))
    {
      hide EntryOk, Represents, Slots, LaidOut, CopiesKept, OutsideKept, PlacesOk, SlotsOnly, Stuck, Soap.Linked,
        Soap.Propagated, OnlyTheirs, Ordered, Nested, Soap.NoCopyLeft;
      ghost var mem0, view0, facts0 := mem[..], view, facts;
      err := LinkPhase();
      assert err == NoError ==> forall id {:trigger old(view)[id]} | id in old(view) :: PassedId(id);
      if err == MissingId { return; }
      ghost var mem1, view1, facts1 := mem[..], view, facts;
      LaidOutLinks(view0, facts0, view1, facts1, mem.Length);
      CopyPhase();
      SameAgain(mem1, view1, facts1, view0, facts0);
      forall id {:trigger view[id]} | id in view && view[id].ptr != 0 ensures Linked(id) && Propagated(id, facts0) {
        Settling(mem1, view1, facts1, facts0, id);
      }
      BothPhases(mem0, mem1, mem[..], view0, facts0, view1, facts1);
      CopiesMade(mem1, view1, facts1, view0, facts0);
    }
  }

  // ----- the order in which ids were copied

  /** Where j waits inside i's object at the start, j has been copied before time w. */
  ghost predicate EarlierInside(when: map<string, nat>, view0: map<string, Entry>, facts0: map<string, Fact>,
                                i: string, w: nat) {
    i in view0 && forall j {:trigger facts0[j]} | j in facts0 && WaitsFor(facts0, j, view0[i].ptr, view0[i].ptr + view0[i].size) ::
      j in when && when[j] < w
  }

  /** Each id that has been copied was copied after all that waited inside its object. */
  ghost predicate Timed(when: map<string, nat>, view0: map<string, Entry>, facts0: map<string, Fact>,
                        facts: map<string, Fact>) {
    view0.Keys == facts0.Keys == facts.Keys &&
    (forall id {:trigger facts[id]} | id in facts :: id in when <==> facts0[id].copies != [] && facts[id].copies == []) &&
    forall i {:trigger when[i]} | i in when :: when[i] < |when| && EarlierInside(when, view0, facts0, i, when[i])
  }

  ghost predicate Ordered(view0: map<string, Entry>, facts0: map<string, Fact>, facts: map<string, Fact>) {
    exists when: map<string, nat> :: Timed(when, view0, facts0, facts)
  }

  lemma EarlierStill(when: map<string, nat>, view0: map<string, Entry>, facts0: map<string, Fact>, i: string, w: nat,
                     id: string, v: nat)
    requires EarlierInside(when, view0, facts0, i, w) && id !in when
    ensures EarlierInside(when[id := v], view0, facts0, i, w)
  {
    hide WaitsFor;
  }

  /** Whatever waited at the start inside an object in which nothing waits now has been copied. */
  lemma NowEarlier(when: map<string, nat>, mem: seq<int>, view0: map<string, Entry>, facts0: map<string, Fact>,
                   view: map<string, Entry>, facts: map<string, Fact>, id: string)
    requires Timed(when, view0, facts0, facts) && CopiesKept(mem, view0, facts0, view, facts)
    requires id in facts && !Waits(facts, view[id].ptr, view[id].ptr + view[id].size)
    ensures EarlierInside(when, view0, facts0, id, |when|)
  {
    hide CopyKept, WaitsFor, Waits, EarlierInside;
    KeptCopies(mem, view0[id], facts0[id], view[id], facts[id], facts);
    forall j {:trigger facts0[j]} | j in facts0 && WaitsFor(facts0, j, view0[id].ptr, view0[id].ptr + view0[id].size)
      ensures j in when && when[j] < |when| {
      WaitedInside(facts0, facts, j, view0[id].ptr, view0[id].ptr + view0[id].size);
      KeptCopies(mem, view0[j], facts0[j], view[j], facts[j], facts);
    }
    EarlierIs(when, view0, facts0, id, |when|);
  }

  lemma EarlierIs(when: map<string, nat>, view0: map<string, Entry>, facts0: map<string, Fact>, i: string, w: nat)
    requires i in view0
    requires forall j {:trigger facts0[j]} | j in facts0 && WaitsFor(facts0, j, view0[i].ptr, view0[i].ptr + view0[i].size) ::
      j in when && when[j] < w
    ensures EarlierInside(when, view0, facts0, i, w)
  {
  }

  /** An id is copied only when nothing waits inside its object. */
  lemma OrderedStep(mem: seq<int>, view0: map<string, Entry>, facts0: map<string, Fact>, view: map<string, Entry>,
                    facts: map<string, Fact>, id: string)
    requires Ordered(view0, facts0, facts) && CopiesKept(mem, view0, facts0, view, facts)
    requires id in facts && facts[id].copies != [] && !Waits(facts, view[id].ptr, view[id].ptr + view[id].size)
    ensures Ordered(view0, facts0, Copied(facts, id))
  {
    hide CopyKept, Waits, EarlierInside;
    var when: map<string, nat> :| Timed(when, view0, facts0, facts);
    NowEarlier(when, mem, view0, facts0, view, facts, id);
    KeptCopies(mem, view0[id], facts0[id], view[id], facts[id], facts);
    TimedStep(when, view0, facts0, facts, id);
  }

  lemma KeptCopies(mem: seq<int>, e0: Entry, f0: Fact, e: Entry, f: Fact, facts: map<string, Fact>)
    requires CopyKept(mem, e0, f0, e, f, facts)
    ensures (f.copies == f0.copies || f.copies == []) && e.ptr == e0.ptr && e.size == e0.size
  {
  }

  lemma TimedStep(when: map<string, nat>, view0: map<string, Entry>, facts0: map<string, Fact>, facts: map<string,
                  Fact>, id: string)
    requires Timed(when, view0, facts0, facts) && id in facts && facts[id].copies == facts0[id].copies != []
    requires EarlierInside(when, view0, facts0, id, |when|)
    ensures Ordered(view0, facts0, Copied(facts, id))
  {
    hide EarlierInside;
    var when' := when[id := |when|];
    assert id !in when && |when'| == |when| + 1;
    forall i {:trigger when'[i]} | i in when' ensures when'[i] < |when'| && EarlierInside(when', view0, facts0, i, when'[i]) {
      EarlierStill(when, view0, facts0, i, when'[i], id, |when|);
    }
    assert Timed(when', view0, facts0, Copied(facts, id));
  }

  lemma WaitedInside(facts0: map<string, Fact>, facts: map<string, Fact>, j: string, start: int, end: int)
    requires j in facts0 && j in facts && WaitsFor(facts0, j, start, end) && !Waits(facts, start, end)
    ensures facts0[j].copies != [] && facts[j].copies != facts0[j].copies
  {
    assert !WaitsFor(facts, j, start, end);
  }

  /** If all have been copied, the order of copying goes down with each step inside. */
  lemma RankFromOrder(view0: map<string, Entry>, facts0: map<string, Fact>, facts: map<string, Fact>) returns (rank: string -> nat)
    requires Ordered(view0, facts0, facts) && forall id {:trigger facts[id]} | id in facts :: facts[id].copies == []
    ensures Nested(view0, facts0, rank)
  {
    var when: map<string, nat> :| Timed(when, view0, facts0, facts);
    rank := (id: string) => if id in when then when[id] else |when|;
    forall i, j {:trigger rank(i), rank(j)} | i in facts0 && j in facts0 && view0[i].ptr != 0 &&
      WaitsFor(facts0, j, view0[i].ptr, view0[i].ptr + view0[i].size) ensures rank(j) < rank(i) {
      assert j in when && when[j] < |when|;
      assert i in when ==> EarlierInside(when, view0, facts0, i, when[i]);
    }
  }

  /** No place lies, over however many steps, inside the object it waits for: some order goes down with each step. */
  ghost predicate Nested(view: map<string, Entry>, facts: map<string, Fact>, rank: string -> nat) {
    facts.Keys == view.Keys && forall i, j {:trigger rank(i), rank(j)} | i in facts && j in facts && view[i].ptr != 0 &&
      WaitsFor(facts, j, view[i].ptr, view[i].ptr + view[i].size) :: rank(j) < rank(i)
  }

  /** What waits has an object in which something waits. */
  ghost predicate Blocked(view: map<string, Entry>, facts: map<string, Fact>) {
    facts.Keys == view.Keys && forall id {:trigger facts[id]} | id in facts && facts[id].copies != [] ::
      view[id].ptr != 0 && Waits(facts, view[id].ptr, view[id].ptr + view[id].size)
  }

  lemma StillNested(view0: map<string, Entry>, facts0: map<string, Fact>, view: map<string, Entry>,
                    facts: map<string, Fact>, rank: string -> nat)
    requires Nested(view0, facts0, rank) && view.Keys == view0.Keys == facts.Keys == facts0.Keys
    requires forall id {:trigger view[id]} | id in view :: view[id].ptr == view0[id].ptr && view[id].size == view0[id].size
    requires forall id {:trigger facts[id]} | id in facts :: facts[id].copies == facts0[id].copies || facts[id].copies == []
    ensures Nested(view, facts, rank)
  {
  }

  lemma {:induction false} NoneLeft(view: map<string, Entry>, facts: map<string, Fact>, rank: string -> nat, id: string)
    requires Nested(view, facts, rank) && Blocked(view, facts) && id in facts
    ensures facts[id].copies == []
    decreases rank(id)
  {
    if facts[id].copies != [] {
      var j :| j in facts && WaitsFor(facts, j, view[id].ptr, view[id].ptr + view[id].size);
      assert rank(j) < rank(id);
      NoneLeft(view, facts, rank, j);
    }
  }

  /** Neither slots nor places. */
  ghost predicate OnlyTheirs(mem0: seq<int>, mem: seq<int>, view: map<string, Entry>, facts: map<string, Fact>) {
    |mem| == |mem0| && forall a {:trigger mem[a]} | 0 <= a < |mem| && !InAnyPlace(a, view, facts) && !InAnySlot(a, facts) :: mem[a] == mem0[a]
  }

  lemma BothPhases(mem0: seq<int>, mem1: seq<int>, mem2: seq<int>, view0: map<string, Entry>, facts0: map<string, Fact>,
                   view1: map<string, Entry>, facts1: map<string, Fact>)
    requires SlotsOnly(mem0, mem1, facts0) && OutsideKept(mem1, mem2, view1, facts1)
    requires view0.Keys == view1.Keys == facts0.Keys == facts1.Keys
    requires forall id {:trigger view1[id]} | id in view1 :: view1[id].size == view0[id].size && facts1[id].copies == facts0[id].copies
    ensures OnlyTheirs(mem0, mem2, view0, facts0)
  {
    hide InPlace, InAnySlot;
    forall a {:trigger mem2[a]} | 0 <= a < |mem2| && !InAnyPlace(a, view0, facts0) && !InAnySlot(a, facts0) ensures mem2[a] == mem0[a] {
      assert !InAnyPlace(a, view1, facts1) by {
        forall id {:trigger facts1[id]} | id in facts1 && id in view1 ensures !InPlace(a, facts1[id].copies, view1[id].size) {
          assert !InPlace(a, facts0[id].copies, view0[id].size);
        }
      }
      assert mem2[a] == mem1[a];
    }
  }

  lemma LaidOutLinks(view0: map<string, Entry>, facts0: map<string, Fact>, view: map<string, Entry>,
                     facts: map<string, Fact>, size: nat)
    requires LaidOut(view0, facts0, size) && view.Keys == view0.Keys == facts.Keys == facts0.Keys
    requires forall id {:trigger view[id]} | id in view ::
      view[id].ptr == view0[id].ptr && view[id].size == view0[id].size && facts[id].copies == facts0[id].copies
    ensures LaidOut(view, facts, size)
  {
    forall id {:trigger view[id]} | id in view && view[id].ptr != 0 ensures OffPlaces(view, facts, view[id].ptr) {
      assert OffPlaces(view0, facts0, view0[id].ptr);
      forall j {:trigger facts[j]} | j in facts ensures Aside(view[id].ptr, facts[j].copies, view[j].size) {
        assert Aside(view0[id].ptr, facts0[j].copies, view0[j].size);
      }
    }
  }

  lemma EntryAt(tab: seq<seq<Entry>>, view: map<string, Entry>, h: nat, k: nat)
    requires Represents(tab, view) && h < |tab| && k < |tab[h]|
    ensures tab[h][k].id in view && view[tab[h][k].id] == tab[h][k]
  {
  }

  ghost predicate InAnySlot(a: int, facts: map<string, Fact>) {
    exists id {:trigger facts[id]} :: id in facts && a in Slots(facts[id])
  }

  /** Cells that are not slots are as they were. */
  ghost predicate SlotsOnly(mem0: seq<int>, mem: seq<int>, facts: map<string, Fact>) {
    |mem| == |mem0| && forall a {:trigger mem[a]} | 0 <= a < |mem| && !InAnySlot(a, facts) :: mem[a] == mem0[a]
  }

  lemma NothingWritten(mem: seq<int>, facts: map<string, Fact>)
    ensures SlotsOnly(mem, mem, facts)
  {
  }

  /** All slots hold the location. */
  ghost function AllHeld(f: Fact): Fact { Fact([], f.copies, f.held + Elements(f.refs)) }

  lemma EntryChain(mem: seq<int>, e: Entry, f: Fact, owner: map<int, Use>)
    requires EntryOk(mem, e, f, owner)
    ensures Chain(mem, e.link, f.refs)
  {
  }

  /** mem' differs from mem at these slots only, which hold v. */
  ghost predicate SettledTo(mem: seq<int>, mem': seq<int>, slots: seq<int>, v: int) {
    |mem'| == |mem| && (forall k {:trigger slots[k]} | 0 <= k < |slots| :: 0 < slots[k] < |mem| && mem'[slots[k]] == v) &&
    forall a {:trigger mem'[a]} | 0 <= a < |mem| && a !in Elements(slots) :: mem'[a] == mem[a]
  }

  lemma AllSettled(mem: seq<int>, mem': seq<int>, e: Entry, f: Fact, owner: map<int, Use>)
    requires EntryOk(mem, e, f, owner) && SettledTo(mem, mem', f.refs, e.ptr) && e.ptr != 0
    ensures EntryOk(mem', e.(link := 0), AllHeld(f), owner)
  {
    forall s | s in AllHeld(f).held ensures 0 < s < |mem'| && mem'[s] == e.ptr {
      if s in Elements(f.refs) {
        var k :| 0 <= k < |f.refs| && f.refs[k] == s;
      }
    }
    forall i | 0 <= i < |f.copies| ensures f.copies[i] !in Elements(f.refs) {
      assert f.copies[i] in Elements(f.copies);
    }
  }

  /** Another id's slots and places are not among those that have been filled in. */
  lemma SlotsElsewhere(mem: seq<int>, mem': seq<int>, e: Entry, f: Fact, owner: map<int, Use>, slots: seq<int>, id: string,
                       e': Entry, f': Fact)
    requires EntryOk(mem, e, f, owner) && e.id != id && e'.id == id && EntryOk(mem, e', f', owner) && slots == f'.refs
    requires SettledTo(mem, mem', slots, e'.ptr)
    ensures EntryOk(mem', e, f, owner)
  {
    forall i | 0 <= i < |f.refs| ensures f.refs[i] !in Elements(slots) {
      assert f.refs[i] in Elements(f.refs);
    }
    forall i | 0 <= i < |f.copies| ensures f.copies[i] !in Elements(slots) {
      assert f.copies[i] in Elements(f.copies);
    }
    forall s | s in f.held ensures s !in Elements(slots) {
    }
  }

  // ----- copying

  ghost predicate WaitsFor(facts: map<string, Fact>, id: string, start: int, end: int) {
    id in facts && exists q {:trigger q in facts[id].copies} :: q in facts[id].copies && start <= q < end
  }

  /** A place from start to end - 1 waits for a copy. */
  ghost predicate Waits(facts: map<string, Fact>, start: int, end: int) {
    exists id {:trigger facts[id]} :: id in facts && WaitsFor(facts, id, start, end)
  }

  lemma CopyChain(mem: seq<int>, e: Entry, f: Fact, owner: map<int, Use>)
    requires EntryOk(mem, e, f, owner)
    ensures Chain(mem, e.copy, f.copies)
  {
  }

  ghost predicate CopiedOne(mem: seq<int>, mem': seq<int>, q: int, src: int, n: nat) {
    |mem'| == |mem| && 0 <= src && src + n <= |mem| &&
    forall a {:trigger mem'[a]} | 0 <= a < |mem| :: mem'[a] == if q <= a < q + n then mem[src + (a - q)] else mem[a]
  }

  /** The places lie inside memory, apart from each other and from the object. */
  ghost predicate Apart(slots: seq<int>, n: nat, src: int, size: nat) {
    0 <= src && src + n <= size &&
    (forall i {:trigger slots[i]} | 0 <= i < |slots| :: 0 < slots[i] && slots[i] + n <= size && (slots[i] + n <= src || src + n <= slots[i])) &&
    forall i, j {:trigger slots[i], slots[j]} | 0 <= i < j < |slots| ::
      slots[i] != slots[j] && (slots[i] + n <= slots[j] || slots[j] + n <= slots[i])
  }

  ghost predicate InPlace(a: int, slots: seq<int>, n: nat) {
    exists k {:trigger slots[k]} :: 0 <= k < |slots| && slots[k] <= a < slots[k] + n
  }

  /** n cells from q on hold what the cells of mem from src on hold. */
  ghost predicate Holds(mem': seq<int>, q: int, mem: seq<int>, src: int, n: nat) {
    0 <= q && q + n <= |mem'| && 0 <= src && src + n <= |mem| && mem'[q..q + n] == mem[src..src + n]
  }

  /** Every place holds what the object holds, and nothing else has changed. */
  ghost predicate CopiedTo(mem: seq<int>, mem': seq<int>, slots: seq<int>, src: int, n: nat) {
    |mem'| == |mem| && (forall k {:trigger slots[k]} | 0 <= k < |slots| :: Holds(mem', slots[k], mem, src, n)) &&
    forall a {:trigger mem'[a]} | 0 <= a < |mem| && !InPlace(a, slots, n) :: mem'[a] == mem[a]
  }

  lemma NoneCopied(mem: seq<int>, slots: seq<int>, src: int, n: nat)
    ensures CopiedTo(mem, mem, slots[..0], src, n)
  {
  }

  /** A stretch apart from all places is as it was. */
  lemma StretchKept(m: seq<int>, m': seq<int>, slots: seq<int>, src: int, n: nat, r: int, w: nat)
    requires CopiedTo(m, m', slots, src, n) && 0 <= r && r + w <= |m|
    requires forall k {:trigger slots[k]} | 0 <= k < |slots| :: slots[k] + n <= r || r + w <= slots[k]
    ensures m'[r..r + w] == m[r..r + w]
  {
    forall a | r <= a < r + w ensures m'[a] == m[a] {
      assert !InPlace(a, slots, n);
    }
  }

  /** The place copied to next, and its link, which is still there. */
  lemma PlaceFacts(m: seq<int>, m1: seq<int>, head: int, slots: seq<int>, i: nat, src: int, n: nat)
    requires Chain(m, head, slots) && Apart(slots, n, src, |m|) && i < |slots| && CopiedTo(m, m1, slots[..i], src, n)
    ensures 0 < slots[i] < |m1| == |m| && m1[slots[i]] == Next(slots, i + 1)
    ensures slots[i] + n <= |m| && 0 <= src && src + n <= |m| && (slots[i] + n <= src || src + n <= slots[i])
  {
    assert m[slots[i]] == Next(slots, i + 1);
    assert !InPlace(slots[i], slots[..i], n);
  }

  lemma OneMore(m: seq<int>, m1: seq<int>, m2: seq<int>, slots: seq<int>, i: nat, src: int, n: nat)
    requires Apart(slots, n, src, |m|) && i < |slots| && CopiedTo(m, m1, slots[..i], src, n)
    requires CopiedOne(m1, m2, slots[i], src, n)
    ensures CopiedTo(m, m2, slots[..i + 1], src, n)
  {
    StretchKept(m, m1, slots[..i], src, n, src, n);
    var all := slots[..i + 1];
    forall k | 0 <= k < |all| ensures Holds(m2, all[k], m, src, n) {
      if k < i {
        assert Holds(m1, slots[..i][k], m, src, n);
        assert m2[slots[k]..slots[k] + n] == m1[slots[k]..slots[k] + n];
      } else {
        assert m2[slots[i]..slots[i] + n] == m1[src..src + n];
      }
    }
    forall a | 0 <= a < |m| && !InPlace(a, all, n) ensures m2[a] == m[a] {
      InPlaceMore(a, slots, i, n);
    }
  }

  lemma InPlaceMore(a: int, slots: seq<int>, i: nat, n: nat)
    requires i < |slots|
    ensures InPlace(a, slots[..i + 1], n) <==> InPlace(a, slots[..i], n) || slots[i] <= a < slots[i] + n
  {
    var all, few := slots[..i + 1], slots[..i];
    assert all[i] == slots[i] && forall k {:trigger all[k]} {:trigger few[k]} | 0 <= k < i :: all[k] == few[k];
    if InPlace(a, few, n) {
      var k :| 0 <= k < i && few[k] <= a < few[k] + n;
      assert all[k] <= a < all[k] + n;
    }
    if InPlace(a, all, n) {
      var k :| 0 <= k < i + 1 && all[k] <= a < all[k] + n;
      assert k < i ==> few[k] <= a < few[k] + n;
    }
  }

  /** No place that waits has p strictly inside. */
  ghost predicate OffPlaces(view: map<string, Entry>, facts: map<string, Fact>, p: int) {
    facts.Keys == view.Keys && forall id {:trigger facts[id]} | id in facts :: Aside(p, facts[id].copies, view[id].size)
  }

  /** What is defined lies in memory, and does not begin inside a place that is to be overwritten. */
  ghost predicate LaidOut(view: map<string, Entry>, facts: map<string, Fact>, size: nat) {
    facts.Keys == view.Keys && forall id {:trigger view[id]} | id in view && view[id].ptr != 0 ::
      0 < view[id].ptr && view[id].ptr + view[id].size <= size && OffPlaces(view, facts, view[id].ptr)
  }

  /** The id's places wait no more. */
  ghost function Copied(facts: map<string, Fact>, id: string): map<string, Fact>
    requires id in facts
  {
    facts[id := facts[id].(copies := [])]
  }

  /** Places and an object that does not begin inside one, and in which none begins, do not overlap. */
  lemma OffObject(places: seq<int>, n: nat, src: int, w: nat)
    requires Aside(src, places, n) && forall q {:trigger q in places} | q in places :: !(src <= q < src + w)
    ensures forall k {:trigger places[k]} | 0 <= k < |places| :: places[k] + n <= src || src + w <= places[k]
  {
    forall k {:trigger places[k]} | 0 <= k < |places| ensures places[k] + n <= src || src + w <= places[k] {
      assert places[k] in places;
    }
  }

  lemma NotWaiting(facts: map<string, Fact>, id: string, start: int, end: int)
    requires !Waits(facts, start, end) && id in facts
    ensures forall q {:trigger q in facts[id].copies} | q in facts[id].copies :: !(start <= q < end)
  {
    assert !WaitsFor(facts, id, start, end);
  }

  /** Two places are apart. */
  lemma TwoApart(owner: map<int, Use>, q: int, n: nat, q': int, n': nat)
    requires Clear(owner, q, n) && Clear(owner, q', n') && q in owner && q' in owner && q != q'
    ensures q + n <= q' || q' + n' <= q
  {
  }

  lemma ChainEmpty(mem: seq<int>, head: int, slots: seq<int>)
    requires Chain(mem, head, slots)
    ensures (slots == [] <==> head == 0) && Distinct(slots) && forall i {:trigger slots[i]} | 0 <= i < |slots| :: 0 < slots[i]
  {
  }

  lemma PlacesDistinct(owner: map<int, Use>, places: seq<int>, n: nat, size: nat, id: string)
    requires Distinct(places) && Uses(owner, Elements(places), CopyOf(id))
    requires forall q {:trigger q in places} | q in places :: q + n <= size && Clear(owner, q, n)
    ensures forall i, j {:trigger places[i], places[j]} | 0 <= i < j < |places| ::
      places[i] != places[j] && (places[i] + n <= places[j] || places[j] + n <= places[i])
  {
    hide Clear;
    forall i, j {:trigger places[i], places[j]} | 0 <= i < j < |places|
      ensures places[i] != places[j] && (places[i] + n <= places[j] || places[j] + n <= places[i]) {
      assert places[i] in Elements(places) && places[j] in Elements(places);
      TwoApart(owner, places[i], n, places[j], n);
    }
  }

  lemma PlacesApart(mem: seq<int>, view: map<string, Entry>, facts: map<string, Fact>, owner: map<int, Use>, id: string)
    requires id in view && id in facts && EntryOk(mem, view[id], facts[id], owner) && LaidOut(view, facts, |mem|)
    requires view[id].ptr != 0 && !Waits(facts, view[id].ptr, view[id].ptr + view[id].size)
    ensures Apart(facts[id].copies, view[id].size, view[id].ptr, |mem|)
    ensures facts[id].copies == [] <==> view[id].copy == 0
  {
    hide Waits, WaitsFor, Clear, Chain, Uses, Aside, Distinct, Elements;
    var e, places := view[id], facts[id].copies;
    NotWaiting(facts, id, e.ptr, e.ptr + e.size);
    assert OffPlaces(view, facts, e.ptr);
    OffObject(places, e.size, e.ptr, e.size);
    ChainEmpty(mem, e.copy, places);
    PlacesDistinct(owner, places, e.size, |mem|, e.id);
    forall i {:trigger places[i]} | 0 <= i < |places| ensures 0 < places[i] && places[i] + e.size <= |mem| {
      assert places[i] in places;
    }
  }

  /** An address in use for something else is not overwritten. */
  lemma OwnedKept(owner: map<int, Use>, places: seq<int>, id: string, n: nat, a: int)
    requires Uses(owner, Elements(places), CopyOf(id)) && a in owner && owner[a] != CopyOf(id)
    requires forall q {:trigger q in places} | q in places :: Clear(owner, q, n)
    ensures !InPlace(a, places, n)
  {
    forall k {:trigger places[k]} | 0 <= k < |places| ensures !(places[k] <= a < places[k] + n) {
      assert places[k] in places && places[k] in Elements(places);
    }
  }

  lemma ChainCopied(mem: seq<int>, mem': seq<int>, head: int, slots: seq<int>, u: Use, owner: map<int, Use>,
                    places: seq<int>, id: string, src: int, n: nat)
    requires Chain(mem, head, slots) && Uses(owner, Elements(slots), u) && u != CopyOf(id)
    requires CopiedTo(mem, mem', places, src, n) && Uses(owner, Elements(places), CopyOf(id))
    requires RoomFor(mem, owner, places, n)
    ensures Chain(mem', head, slots)
  {
    hide InPlace, Clear;
    forall i {:trigger slots[i]} | 0 <= i < |slots| ensures 0 < slots[i] < |mem'| && mem'[slots[i]] == Next(slots, i + 1) {
      assert slots[i] in Elements(slots);
      OwnedKept(owner, places, id, n, slots[i]);
    }
  }

  lemma HeldCopied(mem: seq<int>, mem': seq<int>, e: Entry, f: Fact, owner: map<int, Use>,
                   places: seq<int>, id: string, src: int, n: nat)
    requires EntryOk(mem, e, f, owner)
    requires CopiedTo(mem, mem', places, src, n) && Uses(owner, Elements(places), CopyOf(id))
    requires RoomFor(mem, owner, places, n)
    ensures forall s {:trigger s in f.held} | s in f.held :: 0 < s < |mem'| && mem'[s] == e.ptr
  {
    hide InPlace, Clear, Chain;
    forall s {:trigger s in f.held} | s in f.held ensures 0 < s < |mem'| && mem'[s] == e.ptr {
      OwnedKept(owner, places, id, n, s);
    }
  }

  lemma CopiesElsewhere(mem: seq<int>, mem': seq<int>, e': Entry, f': Fact, owner: map<int, Use>, e: Entry, f: Fact)
    requires EntryOk(mem, e', f', owner) && EntryOk(mem, e, f, owner) && e'.id != e.id
    requires CopiedTo(mem, mem', f.copies, e.ptr, e.size)
    ensures EntryOk(mem', e', f', owner)
  {
    hide InPlace, Clear, Chain;
    ChainCopied(mem, mem', e'.link, f'.refs, RefOf(e'.id), owner, f.copies, e.id, e.ptr, e.size);
    ChainCopied(mem, mem', e'.copy, f'.copies, CopyOf(e'.id), owner, f.copies, e.id, e.ptr, e.size);
    HeldCopied(mem, mem', e', f', owner, f.copies, e.id, e.ptr, e.size);
  }

  lemma SelfCopied(mem: seq<int>, mem': seq<int>, e: Entry, f: Fact, owner: map<int, Use>)
    requires EntryOk(mem, e, f, owner) && CopiedTo(mem, mem', f.copies, e.ptr, e.size)
    ensures EntryOk(mem', e.(copy := 0), f.(copies := []), owner)
  {
    hide InPlace, Clear, Chain;
    ChainCopied(mem, mem', e.link, f.refs, RefOf(e.id), owner, f.copies, e.id, e.ptr, e.size);
    HeldCopied(mem, mem', e, f, owner, f.copies, e.id, e.ptr, e.size);
    NoChain(mem');
  }

  lemma NoChain(mem: seq<int>)
    ensures Chain(mem, 0, [])
  {
  }

  // ----- what the rounds of copying keep

  ghost predicate AllHold(mem: seq<int>, places: seq<int>, src: int, n: nat) {
    forall q {:trigger q in places} | q in places :: Holds(mem, q, mem, src, n)
  }

  /** An id still waits for all of its copies, or has them all, and nothing in its object waits. */
  ghost predicate CopyKept(mem: seq<int>, e0: Entry, f0: Fact, e: Entry, f: Fact, facts: map<string, Fact>) {
    e == e0.(copy := e.copy) && f == f0.(copies := f.copies) &&
    (f.copies == f0.copies ||
     (f.copies == [] && e.ptr != 0 && AllHold(mem, f0.copies, e.ptr, e.size) && !Waits(facts, e.ptr, e.ptr + e.size)))
  }

  ghost predicate InAnyPlace(a: int, view: map<string, Entry>, facts: map<string, Fact>) {
    exists id {:trigger facts[id]} :: id in facts && id in view && InPlace(a, facts[id].copies, view[id].size)
  }

  /** Cells outside the places that waited are as they were. */
  ghost predicate OutsideKept(mem0: seq<int>, mem: seq<int>, view0: map<string, Entry>, facts0: map<string, Fact>) {
    |mem| == |mem0| && forall a {:trigger mem[a]} | 0 <= a < |mem| && !InAnyPlace(a, view0, facts0) :: mem[a] == mem0[a]
  }

  ghost predicate CopiesKept(mem: seq<int>, view0: map<string, Entry>, facts0: map<string, Fact>,
                             view: map<string, Entry>, facts: map<string, Fact>) {
    view.Keys == view0.Keys == facts.Keys == facts0.Keys && forall id {:trigger view[id]} {:trigger facts[id]} | id in view ::
      CopyKept(mem, view0[id], facts0[id], view[id], facts[id], facts)
  }

  /** Every place belongs to its id, has room, and nothing else in use lies behind it. */
  ghost predicate PlacesOk(view: map<string, Entry>, facts: map<string, Fact>, owner: map<int, Use>, size: nat) {
    facts.Keys == view.Keys && forall id {:trigger facts[id]} | id in facts :: PlacesOf(facts[id].copies, id, view[id].size, owner, size)
  }

  ghost predicate PlacesOf(places: seq<int>, id: string, n: nat, owner: map<int, Use>, size: nat) {
    forall q {:trigger q in places} | q in places :: 0 < q && q + n <= size && q in owner && owner[q] == CopyOf(id) && Clear(owner, q, n)
  }

  lemma PlacesFromEntry(mem: seq<int>, e: Entry, f: Fact, owner: map<int, Use>)
    requires EntryOk(mem, e, f, owner)
    ensures PlacesOf(f.copies, e.id, e.size, owner, |mem|)
  {
    hide Clear;
    forall q {:trigger q in f.copies} | q in f.copies ensures 0 < q && q in owner && owner[q] == CopyOf(e.id) {
      assert q in Elements(f.copies);
      var i :| 0 <= i < |f.copies| && f.copies[i] == q;
    }
  }

  /** What waits only gets less. */
  lemma WaitsLess(facts: map<string, Fact>, id: string, start: int, end: int)
    requires id in facts && !Waits(facts, start, end)
    ensures !Waits(Copied(facts, id), start, end)
  {
    hide WaitsFor;
    var facts' := Copied(facts, id);
    forall j {:trigger facts'[j]} | j in facts' ensures !WaitsFor(facts', j, start, end) {
      WaitsForLess(facts, id, j, start, end);
    }
  }

  lemma WaitsForLess(facts: map<string, Fact>, id: string, j: string, start: int, end: int)
    requires id in facts && j in facts
    ensures WaitsFor(Copied(facts, id), j, start, end) ==> j != id && WaitsFor(facts, j, start, end) && facts[j].copies != []
    ensures WaitsFor(facts, j, start, end) ==> Waits(facts, start, end)
  {
  }

  /** The object and a copy of it are untouched when other places are filled in. */
  lemma CopyStays(mem: seq<int>, mem': seq<int>, owner: map<int, Use>, q: int, id: string, ptr: int, size: nat,
                  places: seq<int>, id': string, src: int, n: nat)
    requires CopiedTo(mem, mem', places, src, n) && Holds(mem, q, mem, ptr, size)
    requires q in owner && owner[q] == CopyOf(id) && Clear(owner, q, size) && id != id'
    requires PlacesOf(places, id', n, owner, |mem|)
    requires Aside(ptr, places, n) && forall r {:trigger r in places} | r in places :: !(ptr <= r < ptr + size)
    ensures Holds(mem', q, mem', ptr, size)
  {
    hide CopiedTo, Clear;
    OffObject(places, n, ptr, size);
    forall k {:trigger places[k]} | 0 <= k < |places| ensures places[k] + n <= q || q + size <= places[k] {
      assert places[k] in places;
      TwoApart(owner, q, size, places[k], n);
    }
    SameLength(mem, mem', places, src, n);
    StretchKept(mem, mem', places, src, n, ptr, size);
    StretchKept(mem, mem', places, src, n, q, size);
  }

  lemma SameLength(mem: seq<int>, mem': seq<int>, places: seq<int>, src: int, n: nat)
    requires CopiedTo(mem, mem', places, src, n)
    ensures |mem'| == |mem|
  {
  }

  /** An id keeps its state while the places of another are filled in. */
  lemma OtherKept(mem: seq<int>, mem': seq<int>, owner: map<int, Use>, e0: Entry, f0: Fact, e: Entry, f: Fact, id: string,
                  facts: map<string, Fact>, id': string, src: int, n: nat)
    requires CopyKept(mem, e0, f0, e, f, facts) && id != id' && id' in facts
    requires CopiedTo(mem, mem', facts[id'].copies, src, n)
    requires PlacesOf(f0.copies, id, e.size, owner, |mem|) && PlacesOf(facts[id'].copies, id', n, owner, |mem|)
    requires Aside(e.ptr, facts[id'].copies, n) || e.ptr == 0
    ensures CopyKept(mem', e0, f0, e, f, Copied(facts, id'))
  {
    hide CopiedTo, Clear, Waits, WaitsFor, Holds, Copied, Aside;
    if f.copies != f0.copies {
      WaitsLess(facts, id', e.ptr, e.ptr + e.size);
      NotWaiting(facts, id', e.ptr, e.ptr + e.size);
      forall q {:trigger q in f0.copies} | q in f0.copies ensures Holds(mem', q, mem', e.ptr, e.size) {
        CopyStays(mem, mem', owner, q, id, e.ptr, e.size, facts[id'].copies, id', src, n);
      }
    }
  }

  /** The id whose places have just been filled in. */
  lemma NowCopied(mem: seq<int>, mem': seq<int>, e0: Entry, f0: Fact, e: Entry, f: Fact, facts: map<string, Fact>,
                  id: string)
    requires CopyKept(mem, e0, f0, e, f, facts) && id in facts && facts[id] == f && f.copies != []
    requires CopiedTo(mem, mem', f.copies, e.ptr, e.size) && e.ptr != 0 && Aside(e.ptr, f.copies, e.size)
    requires !Waits(facts, e.ptr, e.ptr + e.size) && 0 <= e.ptr && e.ptr + e.size <= |mem|
    ensures CopyKept(mem', e0, f0, e.(copy := 0), f.(copies := []), Copied(facts, id))
  {
    hide Waits, WaitsFor, Aside, Copied;
    WaitsLess(facts, id, e.ptr, e.ptr + e.size);
    NotWaiting(facts, id, e.ptr, e.ptr + e.size);
    OffObject(f.copies, e.size, e.ptr, e.size);
    StretchKept(mem, mem', f.copies, e.ptr, e.size, e.ptr, e.size);
    forall q {:trigger q in f.copies} | q in f.copies ensures Holds(mem', q, mem', e.ptr, e.size) {
      var k :| 0 <= k < |f.copies| && f.copies[k] == q;
      assert Holds(mem', f.copies[k], mem, e.ptr, e.size);
    }
  }

  /** One entry's copies keep it all. */
  lemma CopyStep(mem: seq<int>, mem': seq<int>, owner: map<int, Use>, view0: map<string, Entry>, facts0: map<string, Fact>,
                 view: map<string, Entry>, facts: map<string, Fact>, id: string)
    requires CopiesKept(mem, view0, facts0, view, facts) && PlacesOk(view0, facts0, owner, |mem|)
    requires LaidOut(view0, facts0, |mem|)
    requires id in view && facts[id].copies != [] && view[id].ptr != 0
    requires !Waits(facts, view[id].ptr, view[id].ptr + view[id].size)
    requires CopiedTo(mem, mem', facts[id].copies, view[id].ptr, view[id].size)
    ensures CopiesKept(mem', view0, facts0, view[id := view[id].(copy := 0)], Copied(facts, id))
  {
    hide CopiedTo, Waits, Aside, AllHold, PlacesOf;
    var view', facts' := view[id := view[id].(copy := 0)], Copied(facts, id);
    var src, n := view[id].ptr, view[id].size;
    forall j {:trigger view'[j]} | j in view' ensures CopyKept(mem', view0[j], facts0[j], view'[j], facts'[j], facts') {
      assert view0[j].ptr != 0 ==> OffPlaces(view0, facts0, view0[j].ptr);
      assert facts0[id].copies == facts[id].copies && PlacesOf(facts0[id].copies, id, view0[id].size, owner, |mem|);
      if j == id {
        NowCopied(mem, mem', view0[id], facts0[id], view[id], facts[id], facts, id);
      } else {
        assert PlacesOf(facts0[j].copies, j, view0[j].size, owner, |mem|);
        OtherKept(mem, mem', owner, view0[j], facts0[j], view[j], facts[j], j, facts, id, src, n);
      }
    }
  }

  lemma OutsideStep(mem0: seq<int>, mem: seq<int>, mem': seq<int>, view0: map<string, Entry>, facts0: map<string, Fact>,
                    id: string, src: int)
    requires OutsideKept(mem0, mem, view0, facts0) && id in view0 && id in facts0
    requires CopiedTo(mem, mem', facts0[id].copies, src, view0[id].size)
    ensures OutsideKept(mem0, mem', view0, facts0)
  {
    hide InPlace, Holds;
  }

  /** The ids that wait for copies. */
  ghost function Waiting(facts: map<string, Fact>): set<string> { set id | id in facts && facts[id].copies != [] }

  lemma FewerWait(facts: map<string, Fact>, id: string)
    requires id in facts && facts[id].copies != []
    ensures |Waiting(Copied(facts, id))| < |Waiting(facts)|
  {
    assert Waiting(Copied(facts, id)) == Waiting(facts) - {id};
    assert id in Waiting(facts);
  }

  lemma LaidOutKept(mem: seq<int>, view0: map<string, Entry>, facts0: map<string, Fact>,
                    view: map<string, Entry>, facts: map<string, Fact>, size: nat)
    requires CopiesKept(mem, view0, facts0, view, facts) && LaidOut(view0, facts0, size)
    ensures LaidOut(view, facts, size)
  {
    hide Waits, AllHold;
    forall id {:trigger view[id]} | id in view && view[id].ptr != 0 ensures OffPlaces(view, facts, view[id].ptr) {
      assert OffPlaces(view0, facts0, view0[id].ptr);
      forall j {:trigger facts[j]} | j in facts ensures Aside(view[id].ptr, facts[j].copies, view[j].size) {
        assert Aside(view0[id].ptr, facts0[j].copies, view0[j].size);
      }
    }
  }

  /** A definition that does not fit what places already wait for. */
  predicate Clash(e: Entry, t: int, n: nat) { (e.typ != t || e.size != n) && e.copy != 0 }
}
