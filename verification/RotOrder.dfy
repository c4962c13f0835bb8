// The order of rotations as a preorder, and the ways the main sort decides it: by bytes after a common beginning,
// or by what is already known about later positions.
module RotOrder {
  import opened Permutations
  import opened Rotations

  /** The rotation at x does not come after the one at y. */
  ghost predicate Leq(b: seq<byte>, x: int, y: int)
    requires b != []
  {
    !Less(Text(b, y, |b|), Text(b, x, |b|))
  }

  lemma LeqReflexive(b: seq<byte>, x: int)
    requires b != []
    ensures Leq(b, x, x)
  {
    LessTotal(Text(b, x, |b|), Text(b, x, |b|));
  }

  lemma LeqTransitive(b: seq<byte>, x: int, y: int, z: int)
    requires b != [] && Leq(b, x, y) && Leq(b, y, z)
    ensures Leq(b, x, z)
  {
    var s, t, u := Text(b, x, |b|), Text(b, y, |b|), Text(b, z, |b|);
    LessTotal(s, t);
    LessTotal(t, u);
    LessTotal(u, s);
    LessTransitive(u, s, t);
  }

  lemma LeqModulo(b: seq<byte>, x: int, y: int)
    requires b != []
    ensures Leq(b, x % |b|, y % |b|) <==> Leq(b, x, y)
  {
    TextModulo(b, x, |b|);
    TextModulo(b, y, |b|);
  }

  /** Comparing more than a whole rotation decides nothing else. */
  lemma LeqLonger(b: seq<byte>, x: int, y: int, g: nat)
    requires b != []
    ensures Leq(b, x, y) <==> !Less(Text(b, y, |b| + g), Text(b, x, |b| + g))
  {
    var n := |b|;
    TextSplit(b, x, n, g);
    TextSplit(b, y, n, g);
    LessAppend(Text(b, y, n), Text(b, y + n, g), Text(b, x, n), Text(b, x + n, g));
    if Text(b, x, n) == Text(b, y, n) {
      TextForever(b, x, y, n + g);
      assert Text(b, x + n, g) == Text(b, x, n + g)[n..] && Text(b, y + n, g) == Text(b, y, n + g)[n..];
      LessTotal(Text(b, x + n, g), Text(b, x + n, g));
    }
  }

  /** After a common beginning of h bytes the rest decides. */
  lemma LeqAfter(b: seq<byte>, x: int, y: int, h: nat)
    requires b != [] && Text(b, x, h) == Text(b, y, h)
    ensures Leq(b, x, y) <==> Leq(b, x + h, y + h)
  {
    var n := |b|;
    LeqLonger(b, x, y, h);
    TextSplit(b, x, h, n);
    TextSplit(b, y, h, n);
    LessAppend(Text(b, y, h), Text(b, y + h, n), Text(b, x, h), Text(b, x + h, n));
    LessTotal(Text(b, x, h), Text(b, y, h));
  }

  /** Different bytes after a common beginning decide. */
  lemma LeqByte(b: seq<byte>, x: int, y: int, h: nat)
    requires b != [] && Text(b, x, h) == Text(b, y, h) && Rot(b, x, h) < Rot(b, y, h)
    ensures Leq(b, x, y) && !Leq(b, y, x)
  {
    LeqAfter(b, x, y, h);
    LeqAfter(b, y, x, h);
    var s, t := Text(b, x + h, |b|), Text(b, y + h, |b|);
    assert s[0] == Rot(b, x, h) && t[0] == Rot(b, y, h);
  }

  /** Rotations that agree over the block are equal. */
  lemma LeqEqual(b: seq<byte>, x: int, y: int, h: nat)
    requires b != [] && h >= |b| && Text(b, x, h) == Text(b, y, h)
    ensures Leq(b, x, y) && Leq(b, y, x)
  {
    assert Text(b, x, |b|) == Text(b, x, h)[..|b|] && Text(b, y, |b|) == Text(b, y, h)[..|b|];
    LeqReflexive(b, x);
  }

  lemma TextSnoc(b: seq<byte>, x: int, h: nat)
    requires b != []
    ensures Text(b, x, h + 1) == Text(b, x, h) + [Rot(b, x, h)]
  {
  }
}
