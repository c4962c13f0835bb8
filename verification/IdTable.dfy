// The hashed table of ids: buckets of entries, new ones in front, and the plain map they stand for.
module IdTable {

  /** What is known of an id: the chains of slots that wait for its location (link) and of places that wait for a copy of
      it (copy), each threaded through the client's own memory, and its location, 0 while it is not defined. */
  datatype Entry = Entry(id: string, typ: int, size: nat, link: int, copy: int, ptr: int)

  /** soap_hash: characters are 8 bits, size_t is 64 bits wide. */
  function Hash(s: string, buckets: nat): (h: nat)
    requires buckets > 0
    ensures h < buckets
  {
    HashFrom(0, s) % buckets
  }

  function HashFrom(h: nat, s: string): nat
    decreases |s|
  {
    if s == [] then h else HashFrom((65599 * h + s[0] as int) % 0x1_0000_0000_0000_0000, s[1..])
  }

  /** Every entry is in its bucket, and there is one for every id of the map. */
  ghost predicate Represents(tab: seq<seq<Entry>>, view: map<string, Entry>) {
    |tab| > 0 &&
    (forall h, i {:trigger tab[h][i]} | 0 <= h < |tab| && 0 <= i < |tab[h]| ::
      tab[h][i].id in view && view[tab[h][i].id] == tab[h][i] && Hash(tab[h][i].id, |tab|) == h) &&
    (forall h, i, j {:trigger tab[h][i], tab[h][j]} | 0 <= h < |tab| && 0 <= i < j < |tab[h]| :: tab[h][i].id != tab[h][j].id) &&
    forall id {:trigger view[id]} | id in view :: view[id].id == id && view[id] in tab[Hash(id, |tab|)]
  }

  lemma Entered(tab: seq<seq<Entry>>, view: map<string, Entry>, e: Entry)
    requires Represents(tab, view) && e.id !in view
    ensures var h := Hash(e.id, |tab|); Represents(tab[h := [e] + tab[h]], view[e.id := e])
  {
    hide Hash;
    var h := Hash(e.id, |tab|);
    var tab': seq<seq<Entry>> := tab[h := [e] + tab[h]];
    var view' := view[e.id := e];
    forall g, i | 0 <= g < |tab'| && 0 <= i < |tab'[g]|
      ensures tab'[g][i].id in view' && view'[tab'[g][i].id] == tab'[g][i] && Hash(tab'[g][i].id, |tab'|) == g {
      if g == h && i > 0 { assert tab'[g][i] == tab[g][i - 1]; }
    }
    forall g, i, j | 0 <= g < |tab'| && 0 <= i < j < |tab'[g]| ensures tab'[g][i].id != tab'[g][j].id {
      if g == h {
        assert tab'[g][j] == tab[g][j - 1];
        if i > 0 { assert tab'[g][i] == tab[g][i - 1]; }
      }
    }
    forall id | id in view' ensures view'[id].id == id && view'[id] in tab'[Hash(id, |tab'|)] {
      if id == e.id {
        assert tab'[h][0] == e;
      } else {
        assert view[id] in tab[Hash(id, |tab|)];
      }
    }
  }

  lemma Updated(tab: seq<seq<Entry>>, view: map<string, Entry>, h: nat, i: nat, e: Entry)
    requires Represents(tab, view) && h < |tab| && i < |tab[h]| && e.id == tab[h][i].id
    ensures Represents(tab[h := tab[h][i := e]], view[e.id := e])
  {
    hide Hash;
    var tab': seq<seq<Entry>> := tab[h := tab[h][i := e]];
    var view' := view[e.id := e];
    assert tab[h][i].id in view;
    forall id | id in view' ensures view'[id].id == id && view'[id] in tab'[Hash(id, |tab'|)] {
      if id == e.id {
        assert tab'[h][i] == e;
      } else {
        var g := Hash(id, |tab|);
        assert view[id] in tab[g];
        var k :| 0 <= k < |tab[g]| && tab[g][k] == view[id];
        assert tab'[g][k] == view[id];
      }
    }
  }

  /** soap_lookup: the id's place in its bucket. */
  method Lookup(iht: array<seq<Entry>>, id: string, ghost view: map<string, Entry>) returns (found: bool, h: nat, i: nat)
    requires Represents(iht[..], view)
    ensures found <==> id in view
    ensures h == Hash(id, iht.Length) && (found ==> i < |iht[h]| && iht[h][i] == view[id] && iht[h][i].id == id)
  {
    hide HashFrom;
    h, i := Hash(id, iht.Length), 0;
    assert iht[..][h] == iht[h];
    while i < |iht[h]|
      invariant 0 <= i <= |iht[h]| && forall k | 0 <= k < i :: iht[h][k].id != id
    {
      if iht[h][i].id == id {
        assert iht[..][h][i].id in view;
        return true, h, i;
      }
      i := i + 1;
    }
    found := false;
  }
}
