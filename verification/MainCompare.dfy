// mainGtU: compare two rotations byte by byte and, from the thirteenth byte on, by what the quadrants cache.
module MainCompare {
  import opened Permutations
  import opened Rotations
  import opened RotOrder

  const N_OVERSHOOT := 34

  /** block is b with its first bytes again behind it. */
  ghost predicate Extended(b: seq<byte>, block: seq<int>) {
    |b| > N_OVERSHOOT && |block| == |b| + N_OVERSHOOT &&
    forall x {:trigger block[x]} | 0 <= x < |block| :: block[x] == Rot(b, x, 0)
  }

  /** Where bytes agree, a smaller quadrant means an earlier rotation, or an equal one. */
  ghost predicate Quadrants(b: seq<byte>, quadrant: seq<int>) {
    |b| > N_OVERSHOOT && |quadrant| == |b| + N_OVERSHOOT &&
    forall x, y {:trigger quadrant[x], quadrant[y]} | 0 <= x < |quadrant| && 0 <= y < |quadrant| ::
      Rot(b, x, 0) == Rot(b, y, 0) && quadrant[x] < quadrant[y] ==> Leq(b, x, y)
  }

  /** i1 and i2 have moved on by m bytes over text that agrees. */
  ghost predicate Level(b: seq<byte>, x1: int, x2: int, i1: int, i2: int, m: nat)
    requires b != []
  {
    0 <= i1 && 0 <= i2 && i1 % |b| == (x1 + m) % |b| && i2 % |b| == (x2 + m) % |b| && Text(b, x1, m) == Text(b, x2, m)
  }

  lemma LevelByte(b: seq<byte>, block: seq<int>, x1: int, x2: int, i1: int, i2: int, m: nat)
    requires Extended(b, block) && Level(b, x1, x2, i1, i2, m) && i1 < |block| && i2 < |block|
    ensures block[i1] == Rot(b, x1, m) && block[i2] == Rot(b, x2, m)
    ensures block[i1] == block[i2] ==> Level(b, x1, x2, i1 + 1, i2 + 1, m + 1)
    ensures block[i1] < block[i2] ==> Leq(b, x1, x2)
    ensures block[i1] > block[i2] ==> Leq(b, x2, x1)
  {
    var n := |b|;
    TextSnoc(b, x1, m);
    TextSnoc(b, x2, m);
    StepModulo(i1, x1 + m, n);
    StepModulo(i2, x2 + m, n);
    if block[i1] < block[i2] { LeqByte(b, x1, x2, m); }
    if block[i1] > block[i2] { LeqByte(b, x2, x1, m); }
  }

  lemma StepModulo(i: int, j: int, n: nat)
    requires n > 0 && i % n == j % n
    ensures (i + 1) % n == (j + 1) % n
  {
    ModCongruent(i, 1, n);
    ModCongruent(j, 1, n);
  }

  lemma LevelQuadrant(b: seq<byte>, quadrant: seq<int>, x1: int, x2: int, i1: int, i2: int, m: nat)
    requires Quadrants(b, quadrant) && Level(b, x1, x2, i1, i2, m) && i1 < |quadrant| && i2 < |quadrant|
    requires Rot(b, i1, 0) == Rot(b, i2, 0)
    ensures quadrant[i1] < quadrant[i2] ==> Leq(b, x1, x2)
    ensures quadrant[i1] > quadrant[i2] ==> Leq(b, x2, x1)
  {
    LeqAfter(b, x1, x2, m);
    LeqAfter(b, x2, x1, m);
    LeqModulo(b, i1, i2);
    LeqModulo(b, x1 + m, x2 + m);
    LeqModulo(b, i2, i1);
    LeqModulo(b, x2 + m, x1 + m);
  }

  lemma LevelWrap(b: seq<byte>, x1: int, x2: int, i1: int, i2: int, m: nat)
    requires b != [] && Level(b, x1, x2, i1, i2, m)
    ensures i1 >= |b| ==> Level(b, x1, x2, i1 - |b|, i2, m)
    ensures i2 >= |b| ==> Level(b, x1, x2, i1, i2 - |b|, m)
  {
    LessTurn(i1, |b|);
    LessTurn(i2, |b|);
  }

  lemma LessTurn(i: int, n: nat)
    requires n > 0
    ensures (i - n) % n == i % n
  {
    var q := i / n;
    assert i == n * q + i % n;
    assert i - n == n * (q - 1) + i % n;
    ModUnique(i - n, q - 1, i % n, n);
  }

  /** What a comparison that went this far says. */
  ghost predicate Decided(b: seq<byte>, x1: int, x2: int, gt: bool)
    requires b != []
  {
    if gt then Leq(b, x2, x1) else Leq(b, x1, x2)
  }

  /** Compare 12 bytes, then bytes and quadrants in steps of 8 until they differ or a whole rotation has gone by. */
  method MainGtU(x1: nat, x2: nat, block: array<int>, quadrant: array<int>, nblock: nat, budget0: int, ghost b: seq<byte>)
      returns (gt: bool, budget: int)
    requires |b| == nblock && Extended(b, block[..]) && Quadrants(b, quadrant[..])
    requires x1 < nblock + 15 && x2 < nblock + 15
    ensures Decided(b, x1, x2, gt) && budget <= budget0
  {
    hide Extended, Quadrants, Level, Leq;
    budget := budget0;
    var i1, i2 := x1, x2;
    ExtendedLength(b, block[..], quadrant[..]);
    LevelStart(b, x1, x2);
    var m := 0;
    while m < 12
      invariant 0 <= m <= 12 && i1 == x1 + m && i2 == x2 + m && Level(b, x1, x2, i1, i2, m)
    {
      LevelByte(b, block[..], x1, x2, i1, i2, m);
      var c1, c2 := block[i1], block[i2];
      if c1 != c2 { return c1 > c2, budget; }
      i1, i2, m := i1 + 1, i2 + 1, m + 1;
    }
    var k := nblock + 8;
    while true
      invariant 0 <= k <= nblock + 8 && m == 12 + (nblock + 8 - k) && budget <= budget0
      invariant 0 <= i1 < nblock + 27 && 0 <= i2 < nblock + 27 && Level(b, x1, x2, i1, i2, m)
      decreases k
    {
      var differ;
      i1, i2, m, differ, gt := CompareEight(x1, x2, i1, i2, m, block, quadrant, b);
      if differ { return gt, budget; }
      LevelWrap(b, x1, x2, i1, i2, m);
      if i1 >= nblock { i1 := i1 - nblock; }
      LevelWrap(b, x1, x2, i1, i2, m);
      if i2 >= nblock { i2 := i2 - nblock; }
      k := k - 8;
      budget := budget - 1;
      if k < 0 { break; }
    }
    LevelAll(b, x1, x2, i1, i2, m);
    gt := false;
  }

  lemma LevelStart(b: seq<byte>, x1: nat, x2: nat)
    requires b != []
    ensures Level(b, x1, x2, x1, x2, 0)
  {
  }

  lemma LevelAll(b: seq<byte>, x1: int, x2: int, i1: int, i2: int, m: nat)
    requires b != [] && Level(b, x1, x2, i1, i2, m) && m >= |b|
    ensures Leq(b, x1, x2)
  {
    LeqEqual(b, x1, x2, m);
  }

  lemma ExtendedLength(b: seq<byte>, block: seq<int>, quadrant: seq<int>)
    requires Extended(b, block) && Quadrants(b, quadrant)
    ensures |block| == |quadrant| == |b| + N_OVERSHOOT && |b| > N_OVERSHOOT
  {
  }

  lemma SameByte(b: seq<byte>, block: seq<int>, i1: int, i2: int)
    requires Extended(b, block) && 0 <= i1 < |block| && 0 <= i2 < |block| && block[i1] == block[i2]
    ensures Rot(b, i1, 0) == Rot(b, i2, 0)
  {
  }

  method CompareEight(x1: nat, x2: nat, j1: nat, j2: nat, m0: nat, block: array<int>, quadrant: array<int>,
                      ghost b: seq<byte>)
      returns (i1: nat, i2: nat, m: nat, differ: bool, gt: bool)
    requires Extended(b, block[..]) && Quadrants(b, quadrant[..]) && Level(b, x1, x2, j1, j2, m0)
    requires j1 < |b| + 27 && j2 < |b| + 27
    ensures differ ==> Decided(b, x1, x2, gt)
    ensures !differ ==> m == m0 + 8 && i1 == j1 + 8 && i2 == j2 + 8 && Level(b, x1, x2, i1, i2, m)
  {
    hide Extended, Quadrants, Level, Leq;
    i1, i2, m := j1, j2, m0;
    ExtendedLength(b, block[..], quadrant[..]);
    while m < m0 + 8
      invariant m0 <= m <= m0 + 8 && i1 == j1 + (m - m0) && i2 == j2 + (m - m0) && Level(b, x1, x2, i1, i2, m)
    {
      LevelByte(b, block[..], x1, x2, i1, i2, m);
      var c1, c2 := block[i1], block[i2];
      if c1 != c2 { return i1, i2, m, true, c1 > c2; }
      SameByte(b, block[..], i1, i2);
      LevelQuadrant(b, quadrant[..], x1, x2, i1, i2, m);
      var s1, s2 := quadrant[i1], quadrant[i2];
      if s1 != s2 { return i1, i2, m, true, s1 > s2; }
      i1, i2, m := i1 + 1, i2 + 1, m + 1;
    }
    differ, gt := false, false;
  }
}
