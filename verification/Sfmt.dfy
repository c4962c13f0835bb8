// The SFMT random number generator: an in-place recurrence over 128-bit words. Its outputs are the words of one
// sequence, the sequence never forgets its start, and the start is certified to have odd parity.
module Sfmt {

  // ----- words as bits, least significant first

  type Bits = seq<bool>

  function Xor(a: Bits, b: Bits): (r: Bits)
    requires |a| == |b|
    ensures |r| == |a|
  {
    seq(|a|, i requires 0 <= i < |a| => a[i] != b[i])
  }

  function And(a: Bits, b: Bits): (r: Bits)
    requires |a| == |b|
    ensures |r| == |a|
  {
    seq(|a|, i requires 0 <= i < |a| => a[i] && b[i])
  }

  /** Shift of a whole word towards the higher bits, and towards the lower ones. */
  function Up(a: Bits, k: nat): (r: Bits)
    ensures |r| == |a|
  {
    seq(|a|, i requires 0 <= i < |a| => i >= k && a[i - k])
  }

  function Down(a: Bits, k: nat): (r: Bits)
    ensures |r| == |a|
  {
    seq(|a|, i requires 0 <= i < |a| => i + k < |a| && a[i + k])
  }

  /** The same shifts within each 32-bit part. */
  function UpParts(a: Bits, k: nat): (r: Bits)
    ensures |r| == |a|
  {
    seq(|a|, i requires 0 <= i < |a| => i % 32 >= k && i >= k && a[i - k])
  }

  function DownParts(a: Bits, k: nat): (r: Bits)
    ensures |r| == |a|
  {
    seq(|a|, i requires 0 <= i < |a| => i % 32 + k < 32 && i + k < |a| && a[i + k])
  }

  function BitsOf(v: nat, n: nat): (r: Bits)
    ensures |r| == n
  {
    if n == 0 then [] else [v % 2 == 1] + BitsOf(v / 2, n - 1)
  }

  function ValueOf(a: Bits): nat {
    if a == [] then 0 else (if a[0] then 1 else 0) + 2 * ValueOf(a[1..])
  }

  function Quad(w0: nat, w1: nat, w2: nat, w3: nat): (r: Bits)
    ensures |r| == 128
  {
    BitsOf(w0, 32) + BitsOf(w1, 32) + BitsOf(w2, 32) + BitsOf(w3, 32)
  }

  // ----- the recurrence

  /** One parameter set: sizes, shifts, mask and period certification vector. */
  datatype Params = Params(n: nat, m: nat, sl1: nat, sl2: nat, sr1: nat, sr2: nat, mask: Bits, parity: Bits)

  ghost predicate Good(p: Params) {
    3 <= p.n && 1 <= p.m < p.n && 1 <= p.sl2 && |p.mask| == 128 && |p.parity| == 128 && true in p.parity
  }

  /** The parameters chosen (MEXP 11213). */
  function Chosen(): Params {
    Params(88, 68, 14, 3, 7, 3, Quad(0xeffff7fb, 0xffffffef, 0xdfdfbfff, 0x7fffdbfd), Quad(1, 0, 0xe8148000, 0xd0c7afa3))
  }

  lemma ChosenGood()
    ensures Good(Chosen())
  {
    LowBit(Chosen().parity);
  }

  lemma LowBit(q: Bits)
    requires q == Quad(1, 0, 0xe8148000, 0xd0c7afa3)
    ensures q[0]
  {
    var w: nat := 1;
    BitZero(w, 31);
    assert q[0] == BitsOf(w, 32)[0];
  }

  lemma BitZero(v: nat, n: nat)
    ensures BitsOf(v, n + 1)[0] == (v % 2 == 1)
  {
  }

  /** sfmt_recursion. */
  function Recursion(p: Params, a: Bits, b: Bits, c: Bits, d: Bits): (r: Bits)
    requires Good(p) && |a| == |b| == |c| == |d| == 128
    ensures |r| == 128
  {
    var b1 := And(DownParts(b, p.sr1), p.mask);
    var z1 := Xor(Xor(a, Up(a, 8 * p.sl2)), Down(c, 8 * p.sr2));
    Xor(z1, Xor(b1, UpParts(d, p.sl1)))
  }

  ghost predicate State(p: Params, s: seq<Bits>) {
    Good(p) && |s| == p.n && forall k {:trigger s[k]} | 0 <= k < p.n :: |s[k]| == 128
  }

  /** The sequence: words 0..n-1 are the start, each later one depends on four earlier ones. */
  ghost function W(p: Params, s: seq<Bits>, k: nat): (r: Bits)
    requires State(p, s)
    ensures |r| == 128
  {
    if k < p.n then s[k] else Recursion(p, W(p, s, k - p.n), W(p, s, k - p.n + p.m), W(p, s, k - 2), W(p, s, k - 1))
  }

  function Part(q: Bits, j: int): (r: Bits)
    requires |q| == 128 && 0 <= j < 4
    ensures |r| == 32
  {
    q[32 * j..32 * j + 32]
  }

  function WithPart(q: Bits, j: int, w: Bits): (r: Bits)
    requires |q| == 128 && 0 <= j < 4 && |w| == 32
    ensures |r| == 128
  {
    q[..32 * j] + w + q[32 * j + 32..]
  }

  /** The sequence as 32-bit words. */
  ghost function Word(p: Params, s: seq<Bits>, i: nat): Bits
    requires State(p, s)
  {
    Part(W(p, s, i / 4), i % 4)
  }

  // ----- it can be run backwards

  lemma XorCancel(a: Bits, b: Bits, c: Bits)
    requires |a| == |b| == |c| && Xor(a, c) == Xor(b, c)
    ensures a == b
  {
    forall i | 0 <= i < |a| ensures a[i] == b[i] {
      assert Xor(a, c)[i] == Xor(b, c)[i];
    }
  }

  /** x xor x shifted up determines x. */
  lemma {:induction false} Unmixed(a: Bits, b: Bits, k: nat, i: nat)
    requires |a| == |b| && k >= 1 && Xor(a, Up(a, k)) == Xor(b, Up(b, k)) && i <= |a|
    ensures a[..i] == b[..i]
  {
    if i > 0 {
      Unmixed(a, b, k, i - 1);
      var j := i - 1;
      assert Xor(a, Up(a, k))[j] == Xor(b, Up(b, k))[j];
      if j >= k { assert a[..j][j - k] == b[..j][j - k]; }
      assert a[..i] == a[..j] + [a[j]] && b[..i] == b[..j] + [b[j]];
    }
  }

  /** The oldest of the four words is known from the others and the new one. */
  lemma RecursionBack(p: Params, a: Bits, a': Bits, b: Bits, c: Bits, d: Bits)
    requires Good(p) && |a| == |a'| == |b| == |c| == |d| == 128 && Recursion(p, a, b, c, d) == Recursion(p, a', b, c, d)
    ensures a == a'
  {
    hide Xor, Up, Down, And, DownParts, UpParts;
    var y, e := Xor(And(DownParts(b, p.sr1), p.mask), UpParts(d, p.sl1)), Down(c, 8 * p.sr2);
    XorCancel(Xor(Xor(a, Up(a, 8 * p.sl2)), e), Xor(Xor(a', Up(a', 8 * p.sl2)), e), y);
    XorCancel(Xor(a, Up(a, 8 * p.sl2)), Xor(a', Up(a', 8 * p.sl2)), e);
    Unmixed(a, a', 8 * p.sl2, 128);
    assert a[..128] == a && a'[..128] == a';
  }

  lemma WNext(p: Params, s: seq<Bits>, k: nat)
    requires State(p, s)
    ensures W(p, s, k + p.n) == Recursion(p, W(p, s, k), W(p, s, k + p.m), W(p, s, k + p.n - 2), W(p, s, k + p.n - 1))
  {
    hide Recursion;
  }

  /** Starts whose sequences agree on n words in a row, however far on, are the same. */
  lemma {:induction false} NothingForgotten(p: Params, s: seq<Bits>, s': seq<Bits>, k: nat)
    requires State(p, s) && State(p, s')
    requires forall i {:trigger W(p, s, i)} | k <= i < k + p.n :: W(p, s, i) == W(p, s', i)
    ensures s == s'
  {
    hide Recursion;
    if k == 0 {
      forall i | 0 <= i < p.n ensures s[i] == s'[i] {
        assert W(p, s, i) == W(p, s', i);
      }
    } else {
      hide W;
      var j, l := k - 1, k - 1 + p.n;
      WNext(p, s, j);
      WNext(p, s', j);
      assert W(p, s, l) == W(p, s', l) && W(p, s, j + p.m) == W(p, s', j + p.m);
      assert W(p, s, l - 2) == W(p, s', l - 2) && W(p, s, l - 1) == W(p, s', l - 1);
      RecursionBack(p, W(p, s, j), W(p, s', j), W(p, s, j + p.m), W(p, s, l - 2), W(p, s, l - 1));
      NothingForgotten(p, s, s', j);
    }
  }

  // ----- parity

  /** Whether an odd number of bits are set. */
  predicate Odd(a: Bits) {
    if a == [] then false else a[0] != Odd(a[1..])
  }

  lemma {:induction false} OddXor(a: Bits, b: Bits)
    requires |a| == |b|
    ensures Odd(Xor(a, b)) == (Odd(a) != Odd(b))
  {
    if a != [] {
      OddXor(a[1..], b[1..]);
      assert Xor(a, b)[1..] == Xor(a[1..], b[1..]);
    }
  }

  lemma {:induction false} OddAppend(a: Bits, b: Bits)
    ensures Odd(a + b) == (Odd(a) != Odd(b))
  {
    if a == [] {
      assert a + b == b;
    } else {
      OddAppend(a[1..], b);
      assert (a + b)[1..] == a[1..] + b;
    }
  }

  /** One step of the fold: the lower half takes in the upper half. */
  lemma Folded(t: Bits, i: nat)
    requires 2 * i <= |t|
    ensures Odd(Xor(t, Down(t, i))[..i]) == Odd(t[..2 * i])
  {
    var a, b := t[..i], t[i..2 * i];
    assert t[..2 * i] == a + b;
    OddAppend(a, b);
    assert Xor(t, Down(t, i))[..i] == Xor(a, b);
    OddXor(a, b);
  }

  /** temp & 1 after folding: whether an odd number of temp's 32 bits are set. */
  method OddByFolding(temp0: Bits) returns (odd: bool)
    requires |temp0| == 32
    ensures odd == Odd(temp0)
  {
    var temp, i := temp0, 16;
    ghost var width := 32;
    assert temp[..32] == temp;
    while i > 0
      invariant i in {16, 8, 4, 2, 1, 0} && width == (if i == 0 then 1 else 2 * i) && |temp| == 32
      invariant Odd(temp[..width]) == Odd(temp0)
    {
      Folded(temp, i);
      temp := Xor(temp, Down(temp, i));
      width := i;
      i := i / 2;
    }
    assert temp[..1] == [temp[0]] && [temp[0]][1..] == [];
    odd := temp[0];
  }

  lemma {:induction false} OddFlip(a: Bits, b: nat)
    requires b < |a|
    ensures Odd(a[b := !a[b]]) == !Odd(a)
  {
    if b > 0 {
      OddFlip(a[1..], b - 1);
      assert a[b := !a[b]][1..] == a[1..][b - 1 := !a[1..][b - 1]];
    } else {
      assert a[0 := !a[0]][1..] == a[1..];
    }
  }

  /** The parity that certifies the period. */
  ghost predicate Certified(p: Params, q: Bits)
    requires Good(p) && |q| == 128
  {
    Odd(And(p.parity, q))
  }

  /** The lowest bit of the certification vector. */
  ghost function LowestBit(a: Bits): (b: nat)
    requires true in a
    ensures b < |a| && a[b] && forall i | 0 <= i < b :: !a[i]
  {
    if a[0] then 0 else 1 + LowestBit(a[1..])
  }

  /** The first word as Init2 makes it. */
  ghost function Adjusted(p: Params, q: Bits): (r: Bits)
    requires Good(p) && |q| == 128
    ensures |r| == 128
  {
    var b := LowestBit(p.parity);
    if Certified(p, q) then q else q[b := !q[b]]
  }

  lemma AdjustedCertified(p: Params, q: Bits)
    requires Good(p) && |q| == 128
    ensures Certified(p, Adjusted(p, q))
  {
    var b := LowestBit(p.parity);
    if !Certified(p, q) {
      var c := And(p.parity, q);
      OddFlip(c, b);
      assert And(p.parity, q[b := !q[b]]) == c[b := !c[b]];
    }
  }

  // ----- seeding

  const FACTOR := 1812433253

  /** Word i of the state for a seed. */
  function SeedWord(seed: nat, i: nat): (y: nat)
    requires seed < 0x1_0000_0000
    ensures y < 0x1_0000_0000
    decreases i
  {
    if i == 0 then seed else
    var y := SeedWord(seed, i - 1);
    (FACTOR * ValueOf(Xor(BitsOf(y, 32), Down(BitsOf(y, 32), 30))) + i) % 0x1_0000_0000
  }

  ghost predicate SeededTo(state: seq<Bits>, seed: nat, i: nat)
    requires seed < 0x1_0000_0000
  {
    (forall k {:trigger state[k]} | 0 <= k < |state| :: |state[k]| == 128) &&
    forall j {:trigger SeedWord(seed, j)} | 0 <= j < i && j / 4 < |state| :: Part(state[j / 4], j % 4) == BitsOf(SeedWord(seed, j), 32)
  }

  lemma PartPut(q: Bits, j: int, w: Bits, k: int)
    requires |q| == 128 && 0 <= j < 4 && 0 <= k < 4 && |w| == 32
    ensures Part(WithPart(q, j, w), k) == if k == j then w else Part(q, k)
  {
    var r := WithPart(q, j, w);
    forall i | 0 <= i < 32 ensures Part(r, k)[i] == (if k == j then w else Part(q, k))[i] {
      assert Part(r, k)[i] == r[32 * k + i];
    }
  }

  lemma SeedStep(state: seq<Bits>, seed: nat, i: nat)
    requires seed < 0x1_0000_0000 && SeededTo(state, seed, i) && i / 4 < |state|
    ensures SeededTo(state[i / 4 := WithPart(state[i / 4], i % 4, BitsOf(SeedWord(seed, i), 32))], seed, i + 1)
  {
    hide SeedWord, BitsOf, Part, WithPart;
    var q, w := state[i / 4], BitsOf(SeedWord(seed, i), 32);
    var state' := state[i / 4 := WithPart(q, i % 4, w)];
    forall j {:trigger SeedWord(seed, j)} | 0 <= j < i + 1 && j / 4 < |state'|
      ensures Part(state'[j / 4], j % 4) == BitsOf(SeedWord(seed, j), 32) {
      if j / 4 == i / 4 {
        PartPut(q, i % 4, w, j % 4);
        if j < i { assert Part(state[j / 4], j % 4) == BitsOf(SeedWord(seed, j), 32); }
      }
    }
  }

  // ----- the generator

  class Generator {
    const p: Params
    const state: array<Bits>
    var ix: nat
    // where the sequence starts, and where in it the state stands
    ghost var start: seq<Bits>
    ghost var off: nat

    /** The state is the words from off on. */
    ghost predicate Window(off: nat)
      requires State(p, start)
      reads this`start, state
    {
      state.Length == p.n && forall k {:trigger state[k]} | 0 <= k < p.n :: state[k] == W(p, start, off + k)
    }

    ghost predicate Valid()
      reads this, state
    {
      State(p, start) && Certified(p, start[0]) && off >= p.n && Window(off) && ix <= 4 * p.n
    }

    /** How many 32-bit words have been handed out. */
    ghost function Drawn(): int
      reads this
    {
      4 * (off - p.n) + ix
    }

    /** Halfway through: the first i words are new. */
    ghost predicate Midway(off: nat, i: nat)
      requires State(p, start)
      reads this`start, state
    {
      state.Length == p.n && i <= p.n &&
      forall k {:trigger state[k]} | 0 <= k < p.n :: state[k] == W(p, start, if k < i then off + p.n + k else off + k)
    }

    lemma NextWord(off: nat, i: nat, j: nat)
      requires State(p, start) && Midway(off, i) && i < p.n && j == (if i + p.m < p.n then i + p.m else i + p.m - p.n)
      ensures state[j] == W(p, start, off + i + p.m) && state[i] == W(p, start, off + i)
      ensures Recursion(p, state[i], state[j], W(p, start, off + p.n + i - 2), W(p, start, off + p.n + i - 1))
           == W(p, start, off + p.n + i)
    {
      hide Recursion, W;
      WNext(p, start, off + i);
    }

    /** Generate: n more words of the sequence, in place of the old ones. */
    method Generate()
      requires State(p, start) && Window(off)
      modifies this`ix, this`off, state
      ensures Window(off) && off == old(off) + p.n && ix == 0
    {
      hide Recursion, W;
      var r1, r2 := state[p.n - 2], state[p.n - 1];
      var i := 0;
      while i < p.n - p.m
        invariant 0 <= i <= p.n - p.m && off == old(off) && Midway(off, i)
        invariant r1 == W(p, start, off + p.n + i - 2) && r2 == W(p, start, off + p.n + i - 1)
      {
        NextWord(off, i, i + p.m);
        var r := Recursion(p, state[i], state[i + p.m], r1, r2);
        state[i] := r;
        r1, r2 := r2, r;
        i := i + 1;
      }
      while i < p.n
        invariant p.n - p.m <= i <= p.n && off == old(off) && Midway(off, i)
        invariant r1 == W(p, start, off + p.n + i - 2) && r2 == W(p, start, off + p.n + i - 1)
      {
        NextWord(off, i, i + p.m - p.n);
        var r := Recursion(p, state[i], state[i + p.m - p.n], r1, r2);
        state[i] := r;
        r1, r2 := r2, r;
        i := i + 1;
      }
      ix := 0;
      off := off + p.n;
    }

    /** The parity of the first word against the certification vector. */
    method FirstParity() returns (odd: bool)
      requires Good(p) && state.Length == p.n && |state[0]| == 128
      ensures odd == Certified(p, state[0])
    {
      hide Odd, And, Xor, Part, BitsOf;
      var q, temp := state[0], BitsOf(0, 32);
      ghost var c := And(p.parity, q);
      ZeroOdd(32);
      NothingOdd(c);
      for i := 0 to 4
        invariant |temp| == 32 && Odd(temp) == Odd(c[..32 * i])
      {
        var w := And(Part(p.parity, i), Part(q, i));
        OddXor(temp, w);
        ParityStep(p.parity, q, i);
        temp := Xor(temp, w);
      }
      assert c[..128] == c;
      odd := OddByFolding(temp);
    }

    /** Init2, before the first words are generated. */
    method Certify()
      requires Good(p) && state.Length == p.n && |state[0]| == 128
      modifies state
      ensures state[..] == old(state[..])[0 := Adjusted(p, old(state[0]))]
    {
      hide Adjusted, Certified;
      var odd := FirstParity();
      AdjustedIs(p, state[0]);
      ghost var low := LowestBit(p.parity);
      if !odd {
        var i := 0;
        while i < 4
          invariant 0 <= i <= 4 && low >= 32 * i
          invariant state[..] == old(state[..])
        {
          if true in Part(p.parity, i) {
            InPart(p.parity, i, low);
            var j := 0;
            while !p.parity[32 * i + j]
              invariant 0 <= j < 32 && 32 * i + j <= low < 32 * (i + 1)
              invariant state[..] == old(state[..])
              decreases 32 - j
            {
              j := j + 1;
            }
            assert 32 * i + j == low;
            state[0] := state[0][32 * i + j := !state[0][32 * i + j]];
            break;
          }
          NotInPart(p.parity, i, low);
          i := i + 1;
        }
      }
    }

    constructor (p: Params, seed: nat)
      requires Good(p) && seed < 0x1_0000_0000
      ensures Valid() && this.p == p && Drawn() == 0 && fresh(state) && StartsFrom(p, start, seed)
    {
      this.p := p;
      var zero := Quad(0, 0, 0, 0);
      state := new Bits[p.n](_ => zero);
      ix, start, off := 0, [], 0;
      new;
      RandomInit(seed);
    }

    /** Fill the state from a seed, one 32-bit word after the other. */
    method Fill(seed: nat)
      requires Good(p) && state.Length == p.n && seed < 0x1_0000_0000
      requires forall k {:trigger state[k]} | 0 <= k < p.n :: |state[k]| == 128
      modifies state
      ensures SeededTo(state[..], seed, 4 * p.n)
    {
      hide BitsOf, Part, WithPart, Xor, Down, ValueOf;
      var y, i := seed, 0;
      NotSeeded(state[..], seed);
      while i < 4 * p.n
        invariant 0 <= i <= 4 * p.n && SeededTo(state[..], seed, i) && y == SeedWord(seed, if i == 0 then 0 else i - 1)
      {
        if i > 0 {
          y := (FACTOR * ValueOf(Xor(BitsOf(y, 32), Down(BitsOf(y, 32), 30))) + i) % 0x1_0000_0000;
        }
        ghost var s := state[..];
        SeedStep(s, seed, i);
        state[i / 4] := WithPart(state[i / 4], i % 4, BitsOf(y, 32));
        assert state[..] == s[i / 4 := WithPart(s[i / 4], i % 4, BitsOf(SeedWord(seed, i), 32))];
        i := i + 1;
      }
    }

    /** Re-seed: the state is filled from the seed, certified, and the first words are generated. */
    method RandomInit(seed: nat)
      requires Good(p) && state.Length == p.n && seed < 0x1_0000_0000
      requires forall k {:trigger state[k]} | 0 <= k < p.n :: |state[k]| == 128
      modifies this, state
      ensures Valid() && Drawn() == 0 && StartsFrom(p, start, seed)
    {
      hide SeededTo, Certified, Adjusted;
      Fill(seed);
      ghost var filled := state[..];
      SeededQuads(filled, seed, 4 * p.n);
      AdjustedCertified(p, state[0]);
      Certify();
      start, off := state[..], 0;
      Generate();
    }

    /** 32 random bits: the next word of the sequence. */
    method BRandom() returns (y: nat)
      requires Valid()
      modifies this`ix, this`off, state
      ensures Valid() && y == ValueOf(Word(p, start, 4 * p.n + old(Drawn()))) && Drawn() == old(Drawn()) + 1
    {
      hide W, Certified;
      if ix >= 4 * p.n { Generate(); }
      assert state[ix / 4] == W(p, start, off + ix / 4);
      assert (4 * off + ix) / 4 == off + ix / 4 && (4 * off + ix) % 4 == ix % 4;
      y := ValueOf(Part(state[ix / 4], ix % 4));
      ix := ix + 1;
    }

    /** A number from min to max. */
    method URandom(min: nat, max: nat) returns (v: nat)
      requires Valid() && min < 0x1_0000_0000 && max < 0x1_0000_0000
      modifies this`ix, this`off, state
      ensures Valid() && (max <= min ==> v == (if max == min then min else 0) && Drawn() == old(Drawn()))
      ensures max > min ==> v == Scaled(ValueOf(Word(p, start, 4 * p.n + old(Drawn()))), min, max) && Drawn() == old(Drawn()) + 1
    {
      hide W, Certified, Word, Window;
      if max <= min { return if max == min then min else 0; }
      var interval := (max - min + 1) % 0x1_0000_0000;
      var bits := BRandom();
      v := (bits * interval / 0x1_0000_0000 + min) % 0x1_0000_0000;
    }
  }

  /** Where a generator starts from: the seed's words, with one bit flipped if the parity was even. */
  ghost predicate StartsFrom(p: Params, start: seq<Bits>, seed: nat)
    requires Good(p) && seed < 0x1_0000_0000
  {
    exists s: seq<Bits> {:trigger SeededTo(s, seed, 4 * p.n)} ::
      |s| == p.n && SeededTo(s, seed, 4 * p.n) && |s[0]| == 128 && start == s[0 := Adjusted(p, s[0])]
  }

  lemma NotSeeded(state: seq<Bits>, seed: nat)
    requires seed < 0x1_0000_0000 && forall k {:trigger state[k]} | 0 <= k < |state| :: |state[k]| == 128
    ensures SeededTo(state, seed, 0)
  {
  }

  lemma SeededQuads(state: seq<Bits>, seed: nat, i: nat)
    requires seed < 0x1_0000_0000 && SeededTo(state, seed, i)
    ensures forall k {:trigger state[k]} | 0 <= k < |state| :: |state[k]| == 128
  {
  }

  // ----- scaling to an interval

  /** The 32 random bits scaled to min..max. */
  function Scaled(bits: nat, min: nat, max: nat): nat
    requires min < max < 0x1_0000_0000
  {
    (HighWord(bits, (max - min + 1) % 0x1_0000_0000) + min) % 0x1_0000_0000
  }

  /** The high word of the 64-bit product. */
  function HighWord(bits: nat, interval: nat): nat { bits * interval / 0x1_0000_0000 }

  lemma ScaledBelow(bits: nat, interval: nat)
    requires bits < 0x1_0000_0000
    ensures interval > 0 ==> HighWord(bits, interval) < interval
    ensures HighWord(bits, 0) == 0
  {
    assert bits * interval <= 0xffff_ffff * interval;
  }

  /** Some bits are scaled to v. */
  ghost predicate Reached(v: nat, min: nat, max: nat)
    requires min < max < 0x1_0000_0000
  {
    exists bits: nat {:trigger Scaled(bits, min, max)} :: bits < 0x1_0000_0000 && Scaled(bits, min, max) == v
  }

  lemma NoWrap(bits: nat, min: nat, max: nat)
    requires min < max < 0x1_0000_0000 && !(min == 0 && max == 0xffff_ffff) && bits < 0x1_0000_0000
    ensures Scaled(bits, min, max) == HighWord(bits, max - min + 1) + min <= max
  {
    hide HighWord;
    ScaledBelow(bits, max - min + 1);
  }

  lemma FullRange(bits: nat)
    requires bits < 0x1_0000_0000
    ensures Scaled(bits, 0, 0xffff_ffff) == 0
  {
    hide HighWord;
    ScaledBelow(bits, 0);
  }

  /** The result lies in the interval, and every number of it comes up for some bits, except that the interval of all
      32-bit numbers wraps to nothing and yields its minimum only. */
  lemma ScaledRange(min: nat, max: nat)
    requires min < max < 0x1_0000_0000
    ensures forall bits: nat {:trigger Scaled(bits, min, max)} | bits < 0x1_0000_0000 :: min <= Scaled(bits, min, max) <= max
    ensures (forall v: nat {:trigger Reached(v, min, max)} | min <= v <= max :: Reached(v, min, max))
       <==> !(min == 0 && max == 0xffff_ffff)
  {
    hide Scaled, HighWord;
    var n := max - min + 1;
    if min == 0 && max == 0xffff_ffff {
      forall bits: nat | bits < 0x1_0000_0000 ensures Scaled(bits, min, max) == 0 {
        FullRange(bits);
      }
      assert !Reached(1, min, max);
    } else {
      forall bits: nat | bits < 0x1_0000_0000 ensures min <= Scaled(bits, min, max) <= max {
        NoWrap(bits, min, max);
      }
      forall v: nat {:trigger Reached(v, min, max)} | min <= v <= max ensures Reached(v, min, max) {
        var bits := Preimage(v - min, n);
        NoWrap(bits, min, max);
        assert Scaled(bits, min, max) == v;
      }
    }
  }

  /** The least of the m values that are scaled to k or more, where n values come out. */
  function LeastFor(k: nat, n: nat, m: nat): (b: nat)
    requires n > 0
  {
    (k * m + n - 1) / n
  }

  lemma LeastForIs(k: nat, n: nat, m: nat, bits: nat)
    requires n > 0
    ensures k * m <= n * LeastFor(k, n, m) < k * m + n
    ensures bits * n >= k * m <==> bits >= LeastFor(k, n, m)
  {
    var b := LeastFor(k, n, m);
    assert n * b <= k * m + n - 1 < n * b + n;
    if bits >= b {
      MulMonotone(b, bits, n);
    } else {
      MulMonotone(bits + 1, b, n);
    }
  }

  /** How many of the m values are scaled to k. */
  function Share(k: nat, n: nat, m: nat): int
    requires n > 0
  {
    LeastFor(k + 1, n, m) - LeastFor(k, n, m)
  }

  lemma Between(x: int, n: nat, q: int, r: nat)
    requires n > 0 && r < n && n * q + r - n < n * x < n * q + r + n
    ensures x == q || x == q + 1
    ensures r == 0 ==> x == q
  {
    MulOrder(x, q - 1, n);
    MulOrder(q + 2, x, n);
    MulOrder(q + 1, x, n);
  }

  lemma MulOrder(x: int, y: int, n: nat)
    ensures x <= y ==> n * x <= n * y
    ensures n * (x + 1) == n * x + n && n * (x - 1) == n * x - n
  {
    if x <= y { assert n * y == n * x + n * (y - x); }
  }

  /** Every share is m / n, rounded down or up. */
  lemma ShareRounded(k: nat, n: nat, m: nat)
    requires n > 0
    ensures Share(k, n, m) == m / n || Share(k, n, m) == m / n + 1
    ensures m % n == 0 ==> Share(k, n, m) == m / n
  {
    hide LeastFor;
    LeastForIs(k, n, m, 0);
    LeastForIs(k + 1, n, m, 0);
    Differ(k, n, m, LeastFor(k, n, m), LeastFor(k + 1, n, m));
  }

  lemma Differ(k: nat, n: nat, m: nat, a: nat, b: nat)
    requires n > 0 && k * m <= n * a < k * m + n && (k + 1) * m <= n * b < (k + 1) * m + n
    ensures b - a == m / n || b - a == m / n + 1
    ensures m % n == 0 ==> b - a == m / n
  {
    assert (k + 1) * m == k * m + m;
    assert n * (b - a) == n * b - n * a;
    Quotient(m, n);
    Between(b - a, n, m / n, m % n);
  }

  lemma Quotient(m: nat, n: nat)
    requires n > 0
    ensures m == n * (m / n) + m % n && 0 <= m % n < n
  {
  }

  lemma {:induction false} SharesSum(k: nat, n: nat, m: nat, c: nat)
    requires n > 0 && forall j: nat {:trigger Share(j, n, m)} | j < k :: Share(j, n, m) == c
    ensures LeastFor(k, n, m) == k * c
  {
    if k > 0 {
      SharesSum(k - 1, n, m, c);
      assert Share(k - 1, n, m) == c;
    }
  }

  /** The bits that are scaled to v are those from the least of v up to the least of the next. */
  ghost predicate InShare(bits: nat, min: nat, max: nat, v: nat)
    requires min < max < 0x1_0000_0000 && min <= v <= max
  {
    var n, m := max - min + 1, 0x1_0000_0000;
    Scaled(bits, min, max) == v <==> LeastFor(v - min, n, m) <= bits < LeastFor(v - min + 1, n, m)
  }

  /** The bits that are scaled to v are a stretch of length 2^32 / n, rounded down or up, where n is the size of the interval;
      all stretches are equally long if and only if n divides 2^32. */
  lemma ScaledShares(min: nat, max: nat)
    requires min < max < 0x1_0000_0000 && !(min == 0 && max == 0xffff_ffff)
    ensures var n, m := max - min + 1, 0x1_0000_0000;
      (forall v: nat, bits: nat {:trigger InShare(bits, min, max, v)} | min <= v <= max && bits < m :: InShare(bits, min, max, v)) &&
      LeastFor(0, n, m) == 0 && LeastFor(n, n, m) == m &&
      (forall k: nat {:trigger Share(k, n, m)} | k < n :: Share(k, n, m) == m / n || Share(k, n, m) == m / n + 1) &&
      ((forall k: nat {:trigger Share(k, n, m)} | k < n :: Share(k, n, m) == Share(0, n, m)) <==> m % n == 0)
  {
    hide LeastFor, Share, InShare;
    var n: nat, m: nat := max - min + 1, 0x1_0000_0000;
    forall v: nat, bits: nat {:trigger InShare(bits, min, max, v)} | min <= v <= max && bits < m ensures InShare(bits, min, max, v) {
      ScaledTo(bits, min, max, v);
    }
    forall k: nat {:trigger Share(k, n, m)} | k < n ensures Share(k, n, m) == m / n || Share(k, n, m) == m / n + 1 {
      ShareRounded(k, n, m);
    }
    EndsOfShares(n, m);
    EqualShares(n, m);
  }

  lemma ScaledTo(bits: nat, min: nat, max: nat, v: nat)
    requires min < max < 0x1_0000_0000 && !(min == 0 && max == 0xffff_ffff) && min <= v <= max && bits < 0x1_0000_0000
    ensures InShare(bits, min, max, v)
  {
    hide LeastFor, Scaled;
    var n: nat, m: nat, k: nat := max - min + 1, 0x1_0000_0000, v - min;
    NoWrap(bits, min, max);
    LeastForIs(k, n, m, bits);
    LeastForIs(k + 1, n, m, bits);
    QuotientIs(bits * n, m, k);
  }

  lemma QuotientIs(x: nat, m: nat, k: nat)
    requires m > 0
    ensures x / m == k <==> k * m <= x < (k + 1) * m
  {
    Quotient(x, m);
    MulOrder(x / m, k - 1, m);
    MulOrder(k + 1, x / m, m);
  }

  lemma EndsOfShares(n: nat, m: nat)
    requires n > 0
    ensures LeastFor(0, n, m) == 0 && LeastFor(n, n, m) == m
  {
    LeastForIs(n, n, m, m);
    if LeastFor(n, n, m) < m { MulMonotone(LeastFor(n, n, m) + 1, m, n); }
  }

  lemma EqualShares(n: nat, m: nat)
    requires n > 0
    ensures (forall k: nat {:trigger Share(k, n, m)} | k < n :: Share(k, n, m) == Share(0, n, m)) <==> m % n == 0
  {
    ShareRounded(0, n, m);
    if m % n == 0 {
      forall k: nat {:trigger Share(k, n, m)} | k < n ensures Share(k, n, m) == Share(0, n, m) {
        ShareRounded(k, n, m);
      }
    }
    if forall k: nat {:trigger Share(k, n, m)} | k < n :: Share(k, n, m) == Share(0, n, m) {
      SharesSum(n, n, m, Share(0, n, m));
      EndsOfShares(n, m);
      assert m == n * Share(0, n, m);
    }
  }

  lemma MulMonotone(a: nat, b: nat, c: nat)
    ensures a <= b ==> a * c <= b * c
  {
    if a <= b { assert b * c == a * c + (b - a) * c; }
  }

  /** The least bits that scale to k. */
  lemma Preimage(k: nat, n: nat) returns (bits: nat)
    requires k < n < 0x1_0000_0000
    ensures bits < 0x1_0000_0000 && HighWord(bits, n) == k
  {
    var m: nat := 0x1_0000_0000;
    bits := (k * m + n - 1) / n;
    assert n * bits <= k * m + n - 1 < n * bits + n;
    assert k * m <= bits * n < k * m + m;
    MulMonotone(m, bits, n);
    MulMonotone(k + 1, n, m);
  }

  lemma {:induction false} ZeroOdd(n: nat)
    ensures !Odd(BitsOf(0, n))
  {
    if n > 0 {
      ZeroOdd(n - 1);
      assert BitsOf(0, n)[1..] == BitsOf(0, n - 1);
    }
  }

  lemma AdjustedIs(p: Params, q: Bits)
    requires Good(p) && |q| == 128
    ensures Adjusted(p, q) == if Certified(p, q) then q else q[LowestBit(p.parity) := !q[LowestBit(p.parity)]]
  {
  }

  lemma PartHas(a: Bits, i: int, b: nat)
    requires |a| == 128 && 0 <= i < 4 && 32 * i <= b < 32 * (i + 1) && a[b]
    ensures true in Part(a, i)
  {
    assert Part(a, i)[b - 32 * i];
  }

  lemma NotInPart(a: Bits, i: int, low: nat)
    requires |a| == 128 && 0 <= i < 4 && true !in Part(a, i) && true in a && low == LowestBit(a) && low >= 32 * i
    ensures low >= 32 * (i + 1)
  {
    if low < 32 * (i + 1) { PartHas(a, i, low); }
  }

  lemma InPart(a: Bits, i: int, low: nat)
    requires |a| == 128 && 0 <= i < 4 && true in Part(a, i) && true in a && low == LowestBit(a) && low >= 32 * i
    ensures low < 32 * (i + 1)
  {
    var k :| 0 <= k < 32 && Part(a, i)[k];
    assert a[32 * i + k];
  }

  lemma NothingOdd(c: Bits)
    ensures !Odd(c[..0])
  {
  }

  /** One 32-bit part more. */
  lemma ParityStep(a: Bits, b: Bits, i: int)
    requires |a| == |b| == 128 && 0 <= i < 4
    ensures Odd(And(a, b)[..32 * (i + 1)]) == (Odd(And(a, b)[..32 * i]) != Odd(And(Part(a, i), Part(b, i))))
  {
    hide Odd;
    var c, w := And(a, b), And(Part(a, i), Part(b, i));
    assert c[32 * i..32 * (i + 1)] == w;
    OddAppend(c[..32 * i], w);
    assert c[..32 * (i + 1)] == c[..32 * i] + w;
  }
}
