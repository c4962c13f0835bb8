// Whole runs of the resolver: references, forwards and definitions in any order, and soap_resolve at the end. A plain map
// from ids to what is known of them says what each call answers and what the memory holds afterwards.
module ResolverRun {
  import opened Permutations
  import opened IdTable
  import opened Resolver

  /** soap_id_lookup, soap_id_forward and soap_id_enter, at address p, for an object of type t and size n. */
  datatype Op =
    | Refer(id: string, p: int, t: int, n: nat)
    | Forward(id: string, p: int, t: int, n: nat)
    | Define(id: string, p: int, t: int, n: nat)

  // ----- what the calls mean, in terms of a plain map

  datatype Known = Known(typ: int, size: nat, ptr: int, slots: set<int>, places: seq<int>)

  datatype Outcome = Accepted(ids: map<string, Known>) | Refused(error: Error)

  /** A call without an id or without an address does nothing. */
  predicate Idle(op: Op) { op.id == "" || (!op.Define? && op.p == 0) }

  function Step(ids: map<string, Known>, op: Op): (r: Outcome)
    ensures r.Refused? ==> r.error in {Href, DuplicateId}
  {
    if Idle(op) then Accepted(ids)
    else if op.id !in ids then Accepted(ids[op.id := First(op)])
    else
      var k := ids[op.id];
      match op
      case Refer(id, p, t, n) =>
        if k.ptr != 0 && k.typ != t then Refused(Href) else Accepted(ids[id := k.(slots := k.slots + {p})])
      case Forward(id, p, t, n) =>
        if k.typ != t || k.size != n then Refused(Href) else Accepted(ids[id := k.(places := [p] + k.places)])
      case Define(id, p, t, n) =>
        if k.places != [] && (k.typ != t || k.size != n) then Refused(Href)
        else if k.ptr != 0 then Refused(DuplicateId)
        else Accepted(ids[id := k.(ptr := p, size := n)])
  }

  /** What is known of an id after it is first mentioned. */
  function First(op: Op): Known {
    match op
    case Refer(id, p, t, n) => Known(t, n, 0, {p}, [])
    case Forward(id, p, t, n) => Known(t, n, 0, {}, [p])
    case Define(id, p, t, n) => Known(t, n, p, {}, [])
  }

  /** The calls one after the other, up to the first that is refused. */
  function After(ops: seq<Op>): (r: Outcome)
    ensures r.Refused? ==> r.error in {Href, DuplicateId}
  {
    if ops == [] then Accepted(map[])
    else
      match After(ops[..|ops| - 1])
      case Refused(e) => Refused(e)
      case Accepted(ids) => Step(ids, ops[|ops| - 1])
  }

  /** What the run as a whole answers. */
  ghost function Verdict(ops: seq<Op>): Error {
    match After(ops)
    case Refused(e) => e
    case Accepted(ids) => if exists id :: id in ids && ids[id].ptr == 0 && Marked(id) then MissingId else NoError
  }

  // ----- the calls of a run

  ghost predicate Referred(ops: seq<Op>, id: string, s: int) {
    exists k {:trigger ops[k]} :: 0 <= k < |ops| && !Idle(ops[k]) && ops[k].Refer? && ops[k].id == id && ops[k].p == s
  }

  ghost predicate Forwarded(ops: seq<Op>, id: string, q: int, n: nat) {
    exists k {:trigger ops[k]} :: 0 <= k < |ops| && !Idle(ops[k]) && ops[k].Forward? && ops[k].id == id && ops[k].p == q && ops[k].n == n
  }

  ghost predicate DefinedAt(ops: seq<Op>, id: string, p: int, n: nat) {
    exists k {:trigger ops[k]} :: 0 <= k < |ops| && !Idle(ops[k]) && ops[k].Define? && ops[k].id == id && ops[k].p == p && ops[k].n == n
  }

  lemma ReferredSnoc(ops: seq<Op>, op: Op, id: string, s: int)
    ensures Referred(ops + [op], id, s) <==> Referred(ops, id, s) || (!Idle(op) && op.Refer? && op.id == id && op.p == s)
  {
    var all := ops + [op];
    assert all[|ops|] == op && forall k {:trigger all[k]} {:trigger ops[k]} | 0 <= k < |ops| :: all[k] == ops[k];
  }

  lemma ForwardedSnoc(ops: seq<Op>, op: Op, id: string, q: int, n: nat)
    ensures Forwarded(ops + [op], id, q, n) <==>
            Forwarded(ops, id, q, n) || (!Idle(op) && op.Forward? && op.id == id && op.p == q && op.n == n)
  {
    var all := ops + [op];
    assert all[|ops|] == op && forall k {:trigger all[k]} {:trigger ops[k]} | 0 <= k < |ops| :: all[k] == ops[k];
  }

  lemma DefinedSnoc(ops: seq<Op>, op: Op, id: string, p: int, n: nat)
    ensures DefinedAt(ops + [op], id, p, n) <==>
            DefinedAt(ops, id, p, n) || (!Idle(op) && op.Define? && op.id == id && op.p == p && op.n == n)
  {
    var all := ops + [op];
    assert all[|ops|] == op && forall k {:trigger all[k]} {:trigger ops[k]} | 0 <= k < |ops| :: all[k] == ops[k];
  }

  /** What is known of an id is what the calls said. */
  ghost predicate Told(ops: seq<Op>, id: string, k: Known) {
    (forall s {:trigger s in k.slots} {:trigger Referred(ops, id, s)} :: s in k.slots <==> Referred(ops, id, s)) &&
    (forall q {:trigger q in k.places} | q in k.places :: Forwarded(ops, id, q, k.size)) &&
    (forall q, n {:trigger Forwarded(ops, id, q, n)} | Forwarded(ops, id, q, n) :: q in k.places && n == k.size) &&
    (k.ptr != 0 ==> DefinedAt(ops, id, k.ptr, k.size)) &&
    (forall p, n {:trigger DefinedAt(ops, id, p, n)} | DefinedAt(ops, id, p, n) :: k.ptr == p != 0 && n == k.size)
  }

  ghost predicate NotTold(ops: seq<Op>, id: string) {
    (forall s {:trigger Referred(ops, id, s)} :: !Referred(ops, id, s)) &&
    (forall q, n {:trigger Forwarded(ops, id, q, n)} :: !Forwarded(ops, id, q, n)) &&
    forall p, n {:trigger DefinedAt(ops, id, p, n)} :: !DefinedAt(ops, id, p, n)
  }

  ghost predicate AllTold(ops: seq<Op>, ids: map<string, Known>) {
    (forall id {:trigger ids[id]} | id in ids :: Told(ops, id, ids[id])) &&
    forall id {:trigger id in ids} | id !in ids :: NotTold(ops, id)
  }

  // ----- where the addresses lie

  /** The cells from p on that a slot or a place takes up. */
  function Cells(op: Op): nat { if op.Forward? && op.n > 0 then op.n else 1 }

  /** The address lies in memory. */
  predicate InMemory(op: Op, size: nat) {
    if op.Define? then 0 < op.p && op.p + op.n <= size
    else Idle(op) || (0 < op.p && op.p + Cells(op) <= size && (op.Forward? ==> Marked(op.id)))
  }

  /** Slots and places are apart from each other; an object does not begin inside a place. */
  predicate ApartFrom(a: Op, b: Op) {
    Idle(a) || Idle(b) ||
    match a
    case Define(_, p, _, _) => b.Forward? ==> !(b.p < p < b.p + b.n)
    case _ => b.Define? || a.p + Cells(a) <= b.p || b.p + Cells(b) <= a.p
  }

  ghost predicate WellPlaced(ops: seq<Op>, size: nat) {
    (forall k {:trigger ops[k]} | 0 <= k < |ops| :: InMemory(ops[k], size)) &&
    forall i, j {:trigger ops[i], ops[j]} | 0 <= i < |ops| && 0 <= j < |ops| && i != j :: ApartFrom(ops[i], ops[j])
  }

  // ----- what the calls said is what is known

  lemma ToldElsewhere(ops: seq<Op>, op: Op, id: string, k: Known)
    requires Told(ops, id, k) && (Idle(op) || op.id != id)
    ensures Told(ops + [op], id, k)
  {
    hide Referred, Forwarded, DefinedAt;
    forall s {:trigger Referred(ops + [op], id, s)} ensures Referred(ops + [op], id, s) <==> Referred(ops, id, s) {
      ReferredSnoc(ops, op, id, s);
    }
    forall q, n {:trigger Forwarded(ops + [op], id, q, n)} ensures Forwarded(ops + [op], id, q, n) <==> Forwarded(ops, id, q, n) {
      ForwardedSnoc(ops, op, id, q, n);
    }
    forall p, n {:trigger DefinedAt(ops + [op], id, p, n)} ensures DefinedAt(ops + [op], id, p, n) <==> DefinedAt(ops, id, p, n) {
      DefinedSnoc(ops, op, id, p, n);
    }
  }

  lemma NotToldElsewhere(ops: seq<Op>, op: Op, id: string)
    requires NotTold(ops, id) && (Idle(op) || op.id != id)
    ensures NotTold(ops + [op], id)
  {
    hide Referred, Forwarded, DefinedAt;
    forall s ensures !Referred(ops + [op], id, s) {
      ReferredSnoc(ops, op, id, s);
    }
    forall q, n ensures !Forwarded(ops + [op], id, q, n) {
      ForwardedSnoc(ops, op, id, q, n);
    }
    forall p, n ensures !DefinedAt(ops + [op], id, p, n) {
      DefinedSnoc(ops, op, id, p, n);
    }
  }

  /** The first mention of an id. */
  lemma ToldFirst(ops: seq<Op>, op: Op)
    requires NotTold(ops, op.id) && !Idle(op) && (op.Define? ==> op.p != 0)
    ensures Told(ops + [op], op.id, First(op))
  {
    hide Referred, Forwarded, DefinedAt;
    forall s {:trigger Referred(ops + [op], op.id, s)} ensures Referred(ops + [op], op.id, s) <==> op.Refer? && op.p == s {
      ReferredSnoc(ops, op, op.id, s);
    }
    forall q, n {:trigger Forwarded(ops + [op], op.id, q, n)}
      ensures Forwarded(ops + [op], op.id, q, n) <==> op.Forward? && op.p == q && op.n == n {
      ForwardedSnoc(ops, op, op.id, q, n);
    }
    forall p, n {:trigger DefinedAt(ops + [op], op.id, p, n)}
      ensures DefinedAt(ops + [op], op.id, p, n) <==> op.Define? && op.p == p && op.n == n {
      DefinedSnoc(ops, op, op.id, p, n);
    }
  }

  /** A later one that is accepted. */
  lemma ToldMore(ops: seq<Op>, op: Op, ids: map<string, Known>)
    requires !Idle(op) && op.id in ids && Told(ops, op.id, ids[op.id]) && Step(ids, op).Accepted? && (op.Define? ==> op.p != 0)
    ensures Told(ops + [op], op.id, Step(ids, op).ids[op.id])
  {
    hide Referred, Forwarded, DefinedAt;
    forall s {:trigger Referred(ops + [op], op.id, s)}
      ensures Referred(ops + [op], op.id, s) <==> Referred(ops, op.id, s) || (op.Refer? && op.p == s) {
      ReferredSnoc(ops, op, op.id, s);
    }
    forall q, n {:trigger Forwarded(ops + [op], op.id, q, n)}
      ensures Forwarded(ops + [op], op.id, q, n) <==> Forwarded(ops, op.id, q, n) || (op.Forward? && op.p == q && op.n == n) {
      ForwardedSnoc(ops, op, op.id, q, n);
    }
    forall p, n {:trigger DefinedAt(ops + [op], op.id, p, n)}
      ensures DefinedAt(ops + [op], op.id, p, n) <==> DefinedAt(ops, op.id, p, n) || (op.Define? && op.p == p && op.n == n) {
      DefinedSnoc(ops, op, op.id, p, n);
    }
  }

  lemma ToldStep(ops: seq<Op>, op: Op, ids: map<string, Known>)
    requires AllTold(ops, ids) && Step(ids, op).Accepted? && (op.Define? ==> op.p != 0)
    ensures AllTold(ops + [op], Step(ids, op).ids)
  {
    hide Told, NotTold;
    var ids' := Step(ids, op).ids;
    forall id {:trigger ids'[id]} | id in ids' ensures Told(ops + [op], id, ids'[id]) {
      if Idle(op) || id != op.id {
        ToldElsewhere(ops, op, id, ids[id]);
      } else if id in ids {
        ToldMore(ops, op, ids);
      } else {
        ToldFirst(ops, op);
      }
    }
    forall id {:trigger id in ids'} | id !in ids' ensures NotTold(ops + [op], id) {
      NotToldElsewhere(ops, op, id);
    }
  }

  lemma NothingTold()
    ensures AllTold([], map[])
  {
  }

  // ----- one call

  ghost predicate Same(e: Entry, f: Fact, k: Known) {
    e.typ == k.typ && e.size == k.size && e.ptr == k.ptr && Slots(f) == k.slots && f.copies == k.places
  }

  ghost predicate Agree(view: map<string, Entry>, facts: map<string, Fact>, ids: map<string, Known>) {
    view.Keys == facts.Keys == ids.Keys && forall id {:trigger ids[id]} | id in ids :: Same(view[id], facts[id], ids[id])
  }

  ghost predicate Agrees(s: Soap, ids: map<string, Known>)
    reads s
  {
    Agree(s.view, s.facts, ids)
  }

  ghost predicate UsedBy(ops: seq<Op>, a: int) {
    exists k {:trigger ops[k]} :: 0 <= k < |ops| && !Idle(ops[k]) && !ops[k].Define? && ops[k].p == a
  }

  ghost predicate OwnedBy(ops: seq<Op>, owner: map<int, Use>) {
    forall a {:trigger a in owner} | a in owner :: UsedBy(ops, a)
  }

  lemma UsedBySnoc(ops: seq<Op>, op: Op, a: int)
    requires UsedBy(ops, a) || (!Idle(op) && !op.Define? && op.p == a)
    ensures UsedBy(ops + [op], a)
  {
    var all := ops + [op];
    assert all[|ops|] == op && forall k {:trigger all[k]} {:trigger ops[k]} | 0 <= k < |ops| :: all[k] == ops[k];
  }

  /** A slot or place of the next call lies apart from those of the calls before. */
  lemma NextApart(ops: seq<Op>, op: Op, size: nat, a: int)
    requires WellPlaced(ops + [op], size) && UsedBy(ops, a) && !Idle(op) && !op.Define?
    ensures !(op.p <= a < op.p + Cells(op))
  {
    var all := ops + [op];
    var k :| 0 <= k < |ops| && !Idle(ops[k]) && !ops[k].Define? && ops[k].p == a;
    assert all[k] == ops[k] && all[|ops|] == op;
    assert ApartFrom(all[|ops|], all[k]);
  }

  lemma NextAside(ops: seq<Op>, op: Op, size: nat, id: string, q: int, n: nat)
    requires WellPlaced(ops + [op], size) && Forwarded(ops, id, q, n) && !Idle(op)
    ensures !(q < op.p < q + n)
  {
    var all := ops + [op];
    var k :| 0 <= k < |ops| && !Idle(ops[k]) && ops[k].Forward? && ops[k].id == id && ops[k].p == q && ops[k].n == n;
    assert all[k] == ops[k] && all[|ops|] == op;
    assert ApartFrom(all[|ops|], all[k]);
  }

  lemma NextUsable(s: Soap, ops: seq<Op>, op: Op, ids: map<string, Known>)
    requires Agrees(s, ids) && AllTold(ops, ids) && OwnedBy(ops, s.owner) && WellPlaced(ops + [op], s.mem.Length)
    requires !Idle(op) && !op.Define?
    ensures s.Usable(op.p) && (op.Forward? ==> Marked(op.id) && op.p + op.n <= s.mem.Length && Clear(s.owner, op.p, op.n))
  {
    hide UsedBy, Forwarded, Referred, DefinedAt, WellPlaced;
    NextInMemory(ops, op, s.mem.Length);
    if op.p in s.owner { NextApart(ops, op, s.mem.Length, op.p); }
    forall a {:trigger a in s.owner} | op.p < a < op.p + op.n && op.Forward? ensures a !in s.owner {
      if a in s.owner { NextApart(ops, op, s.mem.Length, a); }
    }
    forall id {:trigger s.facts[id]} | id in s.facts ensures Aside(op.p, s.facts[id].copies, s.view[id].size) {
      assert Told(ops, id, ids[id]) && Same(s.view[id], s.facts[id], ids[id]);
      forall q {:trigger q in s.facts[id].copies} | q in s.facts[id].copies ensures !(q < op.p < q + s.view[id].size) {
        NextAside(ops, op, s.mem.Length, id, q, ids[id].size);
      }
    }
  }

  lemma NextInMemory(ops: seq<Op>, op: Op, size: nat)
    requires WellPlaced(ops + [op], size)
    ensures InMemory(op, size) && WellPlaced(ops, size)
  {
    var all := ops + [op];
    assert all[|ops|] == op && forall k {:trigger all[k]} {:trigger ops[k]} | 0 <= k < |ops| :: all[k] == ops[k];
  }

  /** A slot or a place has joined an id's. */
  lemma AgreesJoined(s: Soap, view0: map<string, Entry>, facts0: map<string, Fact>, ids: map<string, Known>, op: Op)
    requires Agree(view0, facts0, ids) && !Idle(op) && !op.Define? && Step(ids, op).Accepted?
    requires s.Joined(view0, facts0, op.id, if op.Refer? then {op.p} else {}, if op.Forward? then [op.p] else [])
    requires s.Kind(view0, op.id, op.t, op.n)
    ensures Agrees(s, Step(ids, op).ids)
  {
    hide Slots;
    var ids' := Step(ids, op).ids;
    assert op.id in ids ==> Same(view0[op.id], facts0[op.id], ids[op.id]);
    forall id {:trigger ids'[id]} | id in ids' ensures Same(s.view[id], s.facts[id], ids'[id]) {
      if id != op.id { assert Same(view0[id], facts0[id], ids[id]); }
    }
  }

  /** An id has been defined. */
  lemma AgreesDefined(s: Soap, view0: map<string, Entry>, facts0: map<string, Fact>, ids: map<string, Known>, op: Op)
    requires Agree(view0, facts0, ids) && !Idle(op) && op.Define? && Step(ids, op).Accepted?
    requires s.OthersKept(view0, facts0, op.id) && op.id in s.view && s.view[op.id].ptr == op.p && s.view[op.id].size == op.n
    requires s.view[op.id].typ == (if op.id in view0 then view0[op.id].typ else op.t)
    requires s.facts[op.id] == if op.id in facts0 then facts0[op.id] else Fact([], [], {})
    ensures Agrees(s, Step(ids, op).ids)
  {
    var ids' := Step(ids, op).ids;
    assert op.id in ids ==> Same(view0[op.id], facts0[op.id], ids[op.id]);
    forall id {:trigger ids'[id]} | id in ids' ensures Same(s.view[id], s.facts[id], ids'[id]) {
      if id != op.id { assert Same(view0[id], facts0[id], ids[id]); }
    }
  }

  /** What the entry says of the id, and what decides whether the call is accepted. */
  lemma EntryOf(s: Soap, ids: map<string, Known>, id: string)
    requires s.Valid() && Agrees(s, ids) && id in ids
    ensures id in s.view && s.view[id].typ == ids[id].typ && s.view[id].size == ids[id].size && s.view[id].ptr == ids[id].ptr
    ensures s.view[id].copy == 0 <==> ids[id].places == []
  {
    hide Soap.Valid, Slots;
    assert Same(s.view[id], s.facts[id], ids[id]);
    s.EmptyChain(id);
  }

  method Perform(s: Soap, op: Op, ghost ops: seq<Op>, ghost ids: map<string, Known>) returns (err: Error)
    requires s.Valid() && Agrees(s, ids) && AllTold(ops, ids) && OwnedBy(ops, s.owner)
    requires WellPlaced(ops + [op], s.mem.Length)
    modifies s, s.mem, s.iht
    ensures s.Valid()
    ensures match Step(ids, op)
            case Refused(e) => err == e
            case Accepted(ids') => err == NoError && Agrees(s, ids') && OwnedBy(ops + [op], s.owner)
  {
    hide Soap.Valid, AllTold, UsedBy, WellPlaced, Slots, Soap.Usable, Clear, Agree, Soap.Joined, Soap.Kind, Soap.OthersKept;
    NextInMemory(ops, op, s.mem.Length);
    if !Idle(op) && !op.Define? { NextUsable(s, ops, op, ids); }
    SomeOwned(ops, op, s.owner);
    assert op.id in s.view <==> op.id in ids by { SameKeys(s, ids); }
    if op.id in ids { EntryOf(s, ids, op.id); }
    ghost var view0, facts0 := s.view, s.facts;
    var r;
    match op
    case Refer(id, p, t, n) =>
      r, err := s.IdLookup(id, p, t, n);
      if !Idle(op) && err == NoError { AgreesJoined(s, view0, facts0, ids, op); }
    case Forward(id, p, t, n) =>
      r, err := s.IdForward(id, p, t, n);
      if !Idle(op) && err == NoError { AgreesJoined(s, view0, facts0, ids, op); }
    case Define(id, p, t, n) =>
      r, err := s.IdEnter(id, p, t, n);
      if !Idle(op) && err == NoError { AgreesDefined(s, view0, facts0, ids, op); }
  }

  lemma SameKeys(s: Soap, ids: map<string, Known>)
    requires Agrees(s, ids)
    ensures s.view.Keys == ids.Keys
  {
  }

  lemma SomeOwned(ops: seq<Op>, op: Op, owner: map<int, Use>)
    requires OwnedBy(ops, owner)
    ensures OwnedBy(ops + [op], owner)
    ensures !Idle(op) && !op.Define? ==> forall u: Use {:trigger owner[op.p := u]} :: OwnedBy(ops + [op], owner[op.p := u])
  {
    hide UsedBy;
    forall a {:trigger a in owner} | a in owner ensures UsedBy(ops + [op], a) {
      UsedBySnoc(ops, op, a);
    }
    if !Idle(op) && !op.Define? { UsedBySnoc(ops, op, op.p); }
  }

  // ----- before soap_resolve

  lemma DefinedInMemory(ops: seq<Op>, size: nat, id: string, p: int, n: nat)
    requires WellPlaced(ops, size) && DefinedAt(ops, id, p, n)
    ensures 0 < p && p + n <= size
  {
  }

  lemma DefinedAside(ops: seq<Op>, size: nat, id: string, p: int, n: nat, j: string, q: int, m: nat)
    requires WellPlaced(ops, size) && DefinedAt(ops, id, p, n) && Forwarded(ops, j, q, m)
    ensures !(q < p < q + m)
  {
    var i :| 0 <= i < |ops| && !Idle(ops[i]) && ops[i].Define? && ops[i].id == id && ops[i].p == p && ops[i].n == n;
    var k :| 0 <= k < |ops| && !Idle(ops[k]) && ops[k].Forward? && ops[k].id == j && ops[k].p == q && ops[k].n == m;
    assert ApartFrom(ops[i], ops[k]);
  }

  lemma RunLaidOut(s: Soap, ops: seq<Op>, ids: map<string, Known>)
    requires Agrees(s, ids) && AllTold(ops, ids) && WellPlaced(ops, s.mem.Length)
    ensures LaidOut(s.view, s.facts, s.mem.Length)
  {
    hide WellPlaced, Referred, Forwarded, DefinedAt, Slots;
    forall id {:trigger s.view[id]} | id in s.view && s.view[id].ptr != 0
      ensures 0 < s.view[id].ptr && s.view[id].ptr + s.view[id].size <= s.mem.Length
      ensures OffPlaces(s.view, s.facts, s.view[id].ptr) {
      assert Told(ops, id, ids[id]) && Same(s.view[id], s.facts[id], ids[id]);
      DefinedInMemory(ops, s.mem.Length, id, ids[id].ptr, ids[id].size);
      forall j {:trigger s.facts[j]} | j in s.facts ensures Aside(s.view[id].ptr, s.facts[j].copies, s.view[j].size) {
        assert Told(ops, j, ids[j]) && Same(s.view[j], s.facts[j], ids[j]);
        forall q {:trigger q in s.facts[j].copies} | q in s.facts[j].copies ensures !(q < s.view[id].ptr < q + s.view[j].size) {
          DefinedAside(ops, s.mem.Length, id, ids[id].ptr, ids[id].size, j, q, ids[j].size);
        }
      }
    }
  }

  /** No object contains, over however many steps, a place that waits for a copy of it: some order goes down with each. */
  ghost predicate NestedRun(ops: seq<Op>, rank: string -> nat) {
    forall i, j, p, n: nat, q, m: nat {:trigger DefinedAt(ops, i, p, n), Forwarded(ops, j, q, m)} |
      DefinedAt(ops, i, p, n) && Forwarded(ops, j, q, m) && p <= q < p + n :: rank(j) < rank(i)
  }

  lemma NestedIs(ops: seq<Op>, view: map<string, Entry>, facts: map<string, Fact>, ids: map<string, Known>,
                 rank: string -> nat)
    requires Agree(view, facts, ids) && AllTold(ops, ids)
    ensures Nested(view, facts, rank) <==> NestedRun(ops, rank)
  {
    hide Referred, Forwarded, DefinedAt, Slots;
    if Nested(view, facts, rank) {
      forall i, j, p, n: nat, q, m: nat {:trigger DefinedAt(ops, i, p, n), Forwarded(ops, j, q, m)} |
        DefinedAt(ops, i, p, n) && Forwarded(ops, j, q, m) && p <= q < p + n ensures rank(j) < rank(i) {
        BothKnown(ops, ids, i, j, p, n, q, m);
        assert Same(view[i], facts[i], ids[i]) && Same(view[j], facts[j], ids[j]);
        assert q in facts[j].copies && WaitsFor(facts, j, view[i].ptr, view[i].ptr + view[i].size);
      }
    }
    if NestedRun(ops, rank) {
      forall i, j {:trigger rank(i), rank(j)} | i in facts && j in facts && view[i].ptr != 0 &&
        WaitsFor(facts, j, view[i].ptr, view[i].ptr + view[i].size) ensures rank(j) < rank(i) {
        assert Same(view[i], facts[i], ids[i]) && Same(view[j], facts[j], ids[j]);
        assert Told(ops, i, ids[i]) && Told(ops, j, ids[j]);
        var q :| q in facts[j].copies && view[i].ptr <= q < view[i].ptr + view[i].size;
        assert DefinedAt(ops, i, ids[i].ptr, ids[i].size) && Forwarded(ops, j, q, ids[j].size);
      }
    }
  }

  lemma BothKnown(ops: seq<Op>, ids: map<string, Known>, i: string, j: string, p: int, n: nat, q: int, m: nat)
    requires AllTold(ops, ids) && DefinedAt(ops, i, p, n) && Forwarded(ops, j, q, m)
    ensures i in ids && ids[i].ptr == p != 0 && ids[i].size == n && j in ids && q in ids[j].places && ids[j].size == m
  {
    hide Referred, Forwarded, DefinedAt;
    assert i !in ids ==> NotTold(ops, i);
    assert j !in ids ==> NotTold(ops, j);
    assert i in ids ==> Told(ops, i, ids[i]);
    assert j in ids ==> Told(ops, j, ids[j]);
  }

  // ----- the whole run

  /** Every slot that refers to an id that is defined holds the location of the definition. */
  ghost predicate SlotsFilled(ops: seq<Op>, mem: seq<int>) {
    forall id, a, p, n: nat {:trigger Referred(ops, id, a), DefinedAt(ops, id, p, n)} |
      Referred(ops, id, a) && DefinedAt(ops, id, p, n) :: 0 < a < |mem| && mem[a] == p
  }

  /** Every place that was to get a copy holds what the object holds. */
  ghost predicate PlacesFilled(ops: seq<Op>, mem: seq<int>) {
    forall id, q, m: nat, p, n: nat {:trigger Forwarded(ops, id, q, m), DefinedAt(ops, id, p, n)} |
      Forwarded(ops, id, q, m) && DefinedAt(ops, id, p, n) :: Holds(mem, q, mem, p, n)
  }

  lemma SlotsAre(s: Soap, ops: seq<Op>, ids: map<string, Known>)
    requires AllTold(ops, ids) && s.view.Keys == s.facts.Keys == ids.Keys
    requires forall id {:trigger ids[id]} | id in ids :: s.view[id].ptr == ids[id].ptr && Slots(s.facts[id]) == ids[id].slots
    requires forall id {:trigger s.view[id]} | id in s.view && s.view[id].ptr != 0 :: s.Linked(id)
    ensures SlotsFilled(ops, s.mem[..])
  {
    hide Referred, Forwarded, DefinedAt, Slots;
    forall id, a, p, n: nat {:trigger Referred(ops, id, a), DefinedAt(ops, id, p, n)} | Referred(ops, id, a) && DefinedAt(ops, id, p, n)
      ensures 0 < a < s.mem.Length && s.mem[a] == p {
      assert id !in ids ==> NotTold(ops, id);
      assert Told(ops, id, ids[id]);
      assert s.view[id].ptr != 0 && a in Slots(s.facts[id]);
      assert s.Linked(id);
    }
  }

  lemma PlacesAre(s: Soap, ops: seq<Op>, ids: map<string, Known>, facts0: map<string, Fact>)
    requires AllTold(ops, ids) && s.view.Keys == s.facts.Keys == facts0.Keys == ids.Keys
    requires forall id {:trigger ids[id]} | id in ids ::
      s.view[id].ptr == ids[id].ptr && s.view[id].size == ids[id].size && facts0[id].copies == ids[id].places
    requires forall id {:trigger s.view[id]} | id in s.view && s.view[id].ptr != 0 :: s.Propagated(id, facts0)
    requires s.Valid() && s.NoCopyLeft()
    ensures PlacesFilled(ops, s.mem[..])
  {
    hide Referred, Forwarded, DefinedAt, Slots, Soap.Valid, Holds, Waits;
    s.EmptyChains();
    forall id, q, m: nat, p, n: nat {:trigger Forwarded(ops, id, q, m), DefinedAt(ops, id, p, n)} | Forwarded(ops, id, q, m) && DefinedAt(ops, id, p, n)
      ensures Holds(s.mem[..], q, s.mem[..], p, n) {
      BothKnown(ops, ids, id, id, p, n, q, m);
      assert s.view[id].ptr != 0 && s.Propagated(id, facts0);
    }
  }

  /** All the calls, up to the first that is refused; then soap_resolve. */
  method RunAll(s: Soap, ops: seq<Op>) returns (err: Error)
    requires s.Valid() && s.view == map[] && s.facts == map[] && s.owner == map[] && WellPlaced(ops, s.mem.Length)
    modifies s, s.mem, s.iht
    ensures s.Valid() && err == Verdict(ops)
    ensures err == NoError ==> SlotsFilled(ops, s.mem[..])
    ensures err == NoError ==> (s.NoCopyLeft() <==> exists rank: string -> nat :: NestedRun(ops, rank))
    ensures err == NoError && s.NoCopyLeft() ==> PlacesFilled(ops, s.mem[..])
  {
    hide Soap.Valid, AllTold, WellPlaced, Agree, LaidOut, Told, Step;
    ghost var ids: map<string, Known> := map[];
    NothingTold();
    NothingAgrees();
    var i := 0;
    while i < |ops|
      invariant 0 <= i <= |ops| && s.Valid() && After(ops[..i]) == Accepted(ids)
      invariant Agrees(s, ids) && AllTold(ops[..i], ids) && OwnedBy(ops[..i], s.owner)
    {
      Prefix(ops, i, s.mem.Length);
      err := Perform(s, ops[i], ops[..i], ids);
      if err != NoError {
        RefusedStays(ops, i + 1);
        return;
      }
      ToldStep(ops[..i], ops[i], ids);
      ids := Step(ids, ops[i]).ids;
      i := i + 1;
    }
    assert ops[..i] == ops;
    RunLaidOut(s, ops, ids);
    ghost var view0, facts0 := s.view, s.facts;
    err := s.Resolve();
    Concluded(s, ops, ids, view0, facts0, err);
  }

  lemma NothingAgrees()
    ensures Agree(map[], map[], map[]) && OwnedBy([], map[])
  {
  }

  lemma Prefix(ops: seq<Op>, i: nat, size: nat)
    requires WellPlaced(ops, size) && i < |ops|
    ensures ops[..i] + [ops[i]] == ops[..i + 1] && WellPlaced(ops[..i] + [ops[i]], size)
    ensures ops[..i + 1][..i] == ops[..i] && (ops[i].Define? ==> ops[i].p != 0)
  {
    assert InMemory(ops[i], size);
  }

  lemma {:induction false} RefusedStays(ops: seq<Op>, i: nat)
    requires i <= |ops| && After(ops[..i]).Refused?
    ensures After(ops) == After(ops[..i])
    decreases |ops|
  {
    if i < |ops| {
      var n := |ops| - 1;
      assert ops[..n][..i] == ops[..i];
      RefusedStays(ops[..n], i);
    } else {
      assert ops[..i] == ops;
    }
  }

  /** What soap_resolve has done, in terms of the run. */
  lemma Concluded(s: Soap, ops: seq<Op>, ids: map<string, Known>, view0: map<string, Entry>, facts0: map<string,
                  Fact>, err: Error)
    requires s.Valid() && After(ops) == Accepted(ids) && AllTold(ops, ids) && Agree(view0, facts0, ids)
    requires s.SameIds(view0, facts0)
    requires err in {NoError, MissingId}
    requires err == MissingId <==> exists id {:trigger view0[id]} :: id in view0 && view0[id].ptr == 0 && Marked(id)
    requires err == NoError ==> forall id {:trigger s.view[id]} | id in s.view && s.view[id].ptr != 0 ::
      s.Linked(id) && s.Propagated(id, facts0)
    requires err == NoError ==> (s.NoCopyLeft() <==> exists rank: string -> nat :: Nested(view0, facts0, rank))
    ensures err == Verdict(ops)
    ensures err == NoError ==> SlotsFilled(ops, s.mem[..])
    ensures err == NoError ==> (s.NoCopyLeft() <==> exists rank: string -> nat :: NestedRun(ops, rank))
    ensures err == NoError && s.NoCopyLeft() ==> PlacesFilled(ops, s.mem[..])
  {
    hide Soap.Valid, AllTold, After, Slots, Nested, NestedRun, Soap.NoCopyLeft, Soap.Linked, Soap.Propagated,
      SlotsFilled, PlacesFilled;
    forall id {:trigger ids[id]} | id in ids ensures s.view[id].ptr == ids[id].ptr && s.view[id].size == ids[id].size &&
      Slots(s.facts[id]) == ids[id].slots && facts0[id].copies == ids[id].places && view0[id].ptr == ids[id].ptr {
      assert Same(view0[id], facts0[id], ids[id]);
    }
    if err == NoError {
      SlotsAre(s, ops, ids);
      if s.NoCopyLeft() {
        PlacesAre(s, ops, ids, facts0);
        var rank: string -> nat :| Nested(view0, facts0, rank);
        NestedIs(ops, view0, facts0, ids, rank);
      }
      if rank: string -> nat :| NestedRun(ops, rank) {
        NestedIs(ops, view0, facts0, ids, rank);
      }
    }
  }

  lemma {:induction false} RunTold(ops: seq<Op>)
    requires After(ops).Accepted? && forall k {:trigger ops[k]} | 0 <= k < |ops| :: ops[k].Define? ==> ops[k].p != 0
    ensures AllTold(ops, After(ops).ids)
    decreases |ops|
  {
    hide AllTold, Step;
    if ops == [] {
      NothingTold();
    } else {
      var n := |ops| - 1;
      RunTold(ops[..n]);
      ToldStep(ops[..n], ops[n], After(ops[..n]).ids);
      assert ops[..n] + [ops[n]] == ops;
    }
  }

  /** When the run succeeds, every id with # that is referred to or copied has been defined. */
  lemma NothingMissing(ops: seq<Op>, id: string)
    requires Verdict(ops) == NoError && forall k {:trigger ops[k]} | 0 <= k < |ops| :: ops[k].Define? ==> ops[k].p != 0
    requires Marked(id) && ((exists s :: Referred(ops, id, s)) || exists q, n :: Forwarded(ops, id, q, n))
    ensures exists p, n :: DefinedAt(ops, id, p, n)
  {
    hide Referred, Forwarded, DefinedAt;
    RunTold(ops);
    var ids := After(ops).ids;
    assert id !in ids ==> NotTold(ops, id);
    assert Told(ops, id, ids[id]) && ids[id].ptr != 0;
  }

  // ----- which type counts

  /** Call k is the first that mentions the id. */
  ghost predicate FirstMention(ops: seq<Op>, id: string, k: nat) {
    k < |ops| && !Idle(ops[k]) && ops[k].id == id && forall i {:trigger ops[i]} | 0 <= i < k :: Idle(ops[i]) || ops[i].id != id
  }

  lemma {:induction false} NotYetKnown(ops: seq<Op>, id: string)
    requires After(ops).Accepted? && forall i {:trigger ops[i]} | 0 <= i < |ops| :: Idle(ops[i]) || ops[i].id != id
    ensures id !in After(ops).ids
    decreases |ops|
  {
    if ops != [] {
      var n := |ops| - 1;
      assert forall i {:trigger ops[..n][i]} | 0 <= i < n :: ops[..n][i] == ops[i];
      NotYetKnown(ops[..n], id);
    }
  }

  /** An id keeps the type it was first mentioned with, whatever the definition says. */
  lemma {:induction false} TypeIsFirst(ops: seq<Op>, id: string, k: nat)
    requires After(ops).Accepted? && FirstMention(ops, id, k)
    ensures id in After(ops).ids && After(ops).ids[id].typ == ops[k].t
    decreases |ops|
  {
    var n := |ops| - 1;
    assert forall i {:trigger ops[..n][i]} | 0 <= i < n :: ops[..n][i] == ops[i];
    if k < n {
      TypeIsFirst(ops[..n], id, k);
    } else {
      NotYetKnown(ops[..n], id);
    }
  }

  lemma OneCallMore(ops: seq<Op>, op: Op)
    requires After(ops).Accepted?
    ensures After(ops + [op]) == Step(After(ops).ids, op)
  {
    var all := ops + [op];
    assert all[..|all| - 1] == ops && all[|all| - 1] == op;
  }

  /** A reference that comes after the definition is refused if and only if its type is not that of the first mention. */
  lemma LaterReference(ops: seq<Op>, id: string, k: nat, j: nat, p: int, t: int, n: nat)
    requires After(ops).Accepted? && FirstMention(ops, id, k) && j < |ops| && ops[j].Define? && ops[j].id == id && p != 0
    requires forall i {:trigger ops[i]} | 0 <= i < |ops| :: ops[i].Define? ==> ops[i].p != 0
    ensures After(ops + [Refer(id, p, t, n)]) == Refused(Href) <==> t != ops[k].t
    ensures After(ops + [Refer(id, p, t, n)]).Accepted? <==> t == ops[k].t
  {
    hide Told;
    TypeIsFirst(ops, id, k);
    RunTold(ops);
    HasLocation(ops, id, After(ops).ids[id], j);
    OneCallMore(ops, Refer(id, p, t, n));
  }

  lemma HasLocation(ops: seq<Op>, id: string, known: Known, j: nat)
    requires Told(ops, id, known) && j < |ops| && ops[j].Define? && ops[j].id == id && id != ""
    ensures known.ptr != 0
  {
    assert DefinedAt(ops, id, ops[j].p, ops[j].n);
  }

  ghost predicate TypeChecked(ops: seq<Op>, id: string, t: int, t': int) {
    After(ops + [Refer(id, 1, t', 0)]).Refused? <==> t' != t
  }

  /** References after the definition are checked against the definition's type if and only if the id was first mentioned
      with that type. */
  lemma CheckedAgainstDefinition(ops: seq<Op>, id: string, k: nat, j: nat)
    requires After(ops).Accepted? && FirstMention(ops, id, k) && j < |ops| && ops[j].Define? && ops[j].id == id
    requires forall i {:trigger ops[i]} | 0 <= i < |ops| :: ops[i].Define? ==> ops[i].p != 0
    ensures (forall t' :: TypeChecked(ops, id, ops[j].t, t')) <==> ops[j].t == ops[k].t
  {
    hide After;
    forall t' ensures TypeChecked(ops, id, ops[j].t, t') <==> (t' != ops[k].t <==> t' != ops[j].t) {
      LaterReference(ops, id, k, j, 1, t', 0);
    }
    assert TypeChecked(ops, id, ops[j].t, ops[k].t) ==> ops[j].t == ops[k].t;
  }

  /** A definition with another type than the first mention is accepted if and only if no place waits for a copy. */
  lemma DefinedWithAnotherType(ops: seq<Op>, id: string, k: nat, p: int, t: int, n: nat)
    requires After(ops).Accepted? && FirstMention(ops, id, k) && p != 0 && t != ops[k].t
    requires forall i {:trigger ops[i]} | 0 <= i < |ops| :: ops[i].Define? ==> ops[i].p != 0
    requires forall d, m {:trigger DefinedAt(ops, id, d, m)} :: !DefinedAt(ops, id, d, m)
    ensures After(ops + [Define(id, p, t, n)]).Accepted? <==> forall q, m {:trigger Forwarded(ops, id, q, m)} :: !Forwarded(ops, id, q, m)
  {
    hide Forwarded, DefinedAt, Referred;
    TypeIsFirst(ops, id, k);
    RunTold(ops);
    OneCallMore(ops, Define(id, p, t, n));
    var known := After(ops).ids[id];
    assert Told(ops, id, known);
    if known.places != [] {
      assert known.places[0] in known.places && Forwarded(ops, id, known.places[0], known.size);
    }
    assert known.ptr == 0;
  }

  /** A slot of type 1 comes first, then the definition with type 2: a slot of the definition's own type is now refused,
      and one of type 1 accepted. */
  lemma TypeWitness(a: int, b: int, loc: int)
    requires a != 0 && b != 0 && loc != 0
    ensures After([Refer("#1", a, 1, 2), Define("#1", loc, 2, 2), Refer("#1", b, 2, 2)]) == Refused(Href)
    ensures After([Refer("#1", a, 1, 2), Define("#1", loc, 2, 2), Refer("#1", b, 1, 2)]).Accepted?
  {
    var r, d := Refer("#1", a, 1, 2), Define("#1", loc, 2, 2);
    assert After([]) == Accepted(map[]);
    OneCallMore([], r);
    assert [] + [r] == [r];
    OneCallMore([r], d);
    assert [r] + [d] == [r, d];
    OneCallMore([r, d], Refer("#1", b, 2, 2));
    OneCallMore([r, d], Refer("#1", b, 1, 2));
    assert [r, d] + [Refer("#1", b, 2, 2)] == [r, d, Refer("#1", b, 2, 2)];
    assert [r, d] + [Refer("#1", b, 1, 2)] == [r, d, Refer("#1", b, 1, 2)];
  }

  /** An element that carries an id and an href to that same id: the run succeeds, but its copy can never be made. */
  lemma CircleWitness(p: int, t: int, n: nat, size: nat)
    requires 0 < p && 0 < n && p + n <= size
    ensures var ops := [Define("#1", p, t, n), Forward("#1", p, t, n)];
      WellPlaced(ops, size) && Verdict(ops) == NoError && !exists rank: string -> nat :: NestedRun(ops, rank)
  {
    var d, f := Define("#1", p, t, n), Forward("#1", p, t, n);
    var ops := [d, f];
    assert After([]) == Accepted(map[]);
    OneCallMore([], d);
    assert [] + [d] == [d];
    OneCallMore([d], f);
    assert [d] + [f] == ops;
    assert ops[0] == d && ops[1] == f;
    assert DefinedAt(ops, "#1", p, n) && Forwarded(ops, "#1", p, n);
    forall rank: string -> nat ensures !NestedRun(ops, rank) {
      assert p <= p < p + n;
    }
  }
}
