// Bit strings, most significant bit first, and the encoder's bit buffer.
module BitIO {
  import opened Bits
  import opened Permutations

  type bit = b: int | 0 <= b <= 1

  /** The low n bits of v. */
  function ToBits(v: nat, n: nat): (b: seq<bit>)
    ensures |b| == n
    decreases n, v
  {
    if n == 0 then [] else ToBits(v / 2, n - 1) + [v % 2]
  }

  function FromBits(b: seq<bit>): nat {
    if b == [] then 0 else 2 * FromBits(b[..|b| - 1]) + b[|b| - 1]
  }

  lemma {:induction false} ReadBack(v: nat, n: nat)
    requires v < Pow2(n)
    ensures FromBits(ToBits(v, n)) == v
  {
    if n > 0 {
      ReadBack(v / 2, n - 1);
      assert ToBits(v, n)[..n - 1] == ToBits(v / 2, n - 1);
    }
  }

  lemma {:induction false} WriteBack(b: seq<bit>)
    ensures FromBits(b) < Pow2(|b|) && ToBits(FromBits(b), |b|) == b
  {
    if b != [] {
      WriteBack(b[..|b| - 1]);
      assert b == b[..|b| - 1] + [b[|b| - 1]];
    }
  }

  function BytesToBits(s: seq<byte>): (b: seq<bit>)
    ensures |b| == 8 * |s|
  {
    if s == [] then [] else BytesToBits(s[..|s| - 1]) + ToBits(s[|s| - 1] as int, 8)
  }

  lemma BytesToBitsSnoc(s: seq<byte>, c: byte)
    ensures BytesToBits(s + [c]) == BytesToBits(s) + ToBits(c as int, 8)
  {
    assert (s + [c])[..|s|] == s;
  }

  lemma {:induction false} BytesToBitsAppend(s: seq<byte>, t: seq<byte>)
    ensures BytesToBits(s + t) == BytesToBits(s) + BytesToBits(t)
  {
    if t == [] {
      assert s + t == s;
    } else {
      var n := |t| - 1;
      BytesToBitsAppend(s, t[..n]);
      assert (s + t)[..|s| + n] == s + t[..n];
    }
  }

  // ----- words as bit strings

  function Zeros(n: nat): seq<bit> {
    seq(n, i => 0)
  }

  function Shr(v: nat, n: nat): nat
    decreases n, v
  {
    if n == 0 then v else Shr(v / 2, n - 1)
  }

  function Shl(v: nat, n: nat): nat
    decreases n, v
  {
    if n == 0 then v else 2 * Shl(v, n - 1)
  }

  /** Shifting is division and multiplication by a power of 2. */
  lemma {:induction false} ShrDivides(v: nat, n: nat)
    ensures Shr(v, n) * Pow2(n) <= v < Shr(v, n) * Pow2(n) + Pow2(n)
  {
    if n > 0 {
      ShrDivides(v / 2, n - 1);
      MulAssoc(Shr(v, n), Pow2(n - 1), 2);
    }
  }

  lemma {:induction false} ShlMultiplies(v: nat, n: nat)
    ensures Shl(v, n) == v * Pow2(n)
  {
    if n > 0 {
      ShlMultiplies(v, n - 1);
      MulAssoc(v, Pow2(n - 1), 2);
    }
  }

  lemma {:induction false} ShlBelow(v: nat, m: nat, n: nat)
    requires v < Pow2(m)
    ensures Shl(v, n) < Pow2(m + n)
  {
    if n > 0 { ShlBelow(v, m, n - 1); }
  }

  lemma {:induction false} ShrBelow(v: nat, n: nat)
    requires v < Pow2(n)
    ensures Shr(v, n) == 0
  {
    if n > 0 { ShrBelow(v / 2, n - 1); }
  }

  /** The high and the low bits of a number. */
  lemma {:induction false} ToBitsSplit(v: nat, m: nat, n: nat)
    ensures ToBits(v, m + n) == ToBits(Shr(v, n), m) + ToBits(v, n)
  {
    if n > 0 {
      ToBitsSplit(v / 2, m, n - 1);
      assert ToBits(v, m + n) == ToBits(v / 2, m + n - 1) + [v % 2];
    }
  }

  lemma {:induction false} ToBitsZero(n: nat)
    ensures ToBits(0, n) == Zeros(n)
  {
    if n > 0 { ToBitsZero(n - 1); }
  }

  /** Shifting left appends zeros. */
  lemma {:induction false} ToBitsShift(v: nat, m: nat, n: nat)
    ensures ToBits(Shl(v, n), m + n) == ToBits(v, m) + Zeros(n)
  {
    if n == 0 {
      assert Zeros(0) == [];
    } else {
      ToBitsShift(v, m, n - 1);
    }
  }

  /** Only the low n bits of a number count. */
  lemma {:induction false} ToBitsLow(q: nat, n: nat, r: nat)
    ensures ToBits(Shl(q, n) + r, n) == ToBits(r, n)
  {
    if n > 0 {
      var w := Shl(q, n - 1);
      assert (2 * w + r) / 2 == w + r / 2;
      ToBitsLow(q, n - 1, r / 2);
    }
  }

  lemma {:induction false} OrBits(a: nat, b: nat, n: nat, i: nat)
    requires i < n
    ensures ToBits(Or(a, b), n)[i] == if ToBits(a, n)[i] == 1 then 1 else ToBits(b, n)[i]
  {
    if a == 0 {
      ToBitsZero(n);
    } else if b == 0 {
      ToBitsZero(n);
    } else if i < n - 1 {
      OrBits(a / 2, b / 2, n - 1, i);
    }
  }

  lemma {:induction false} OrBelow(a: nat, b: nat, n: nat)
    requires a < Pow2(n) && b < Pow2(n)
    ensures Or(a, b) < Pow2(n)
  {
    if a > 0 && b > 0 { OrBelow(a / 2, b / 2, n - 1); }
  }

  // ----- the encoder's bit buffer

  /** A 32-bit word whose top live bits are in use and whose other bits are 0. */
  ghost predicate Aligned(buff: nat, live: nat) {
    live <= 32 && buff < Pow2(32) && ToBits(buff, 32)[live..] == Zeros(32 - live)
  }

  ghost function LiveBits(buff: nat, live: nat): seq<bit>
    requires live <= 32
  {
    ToBits(buff, 32)[..live]
  }

  /** The word is moved up by a byte, the byte comes out at the top and zeros come in. */
  lemma ShiftByte(buff: nat)
    requires buff < Pow2(32)
    ensures buff / 0x100_0000 < 256
    ensures ToBits(buff, 32) == ToBits(buff / 0x100_0000, 8) + ToBits(buff, 24)
    ensures ToBits(buff * 256 % 0x1_0000_0000, 32) == ToBits(buff, 24) + Zeros(8)
  {
    hide ToBits, Shl, Shr, Pow2;
    Shifts(buff);
    ToBitsSplit(buff, 8, 24);
    ToBitsShift(buff, 24, 8);
    var q, r := buff / 0x100_0000, buff * 256 % 0x1_0000_0000;
    Shifts(q);
    ToBitsLow(q, 32, r);
    ByteSplit(buff);
  }

  lemma ByteSplit(buff: nat)
    ensures buff * 256 == (buff / 0x100_0000) * 0x1_0000_0000 + buff * 256 % 0x1_0000_0000
    ensures buff < Pow2(32) ==> buff / 0x100_0000 < 256
  {
    Pow2Values();
    var q, r := buff / 0x100_0000, buff % 0x100_0000;
    assert buff * 256 == q * 0x1_0000_0000 + r * 256 && r * 256 < 0x1_0000_0000;
  }

  lemma Shifts(v: nat)
    ensures Shr(v, 24) == v / 0x100_0000 && Shl(v, 8) == v * 256 && Shl(v, 32) == v * 0x1_0000_0000
  {
    Pow2Values();
    ShrDivides(v, 24);
    ShlMultiplies(v, 8);
    ShlMultiplies(v, 32);
    var high := Shr(v, 24);
    assert high * 0x100_0000 <= v < high * 0x100_0000 + 0x100_0000;
  }

  /** Moving a byte out leaves the rest of the live bits. */
  lemma TopByte(buff: nat, live: nat)
    requires Aligned(buff, live) && live >= 8
    ensures buff / 0x100_0000 < 256
    ensures Aligned(buff * 256 % 0x1_0000_0000, live - 8)
    ensures ToBits(buff / 0x100_0000, 8) + LiveBits(buff * 256 % 0x1_0000_0000, live - 8) == LiveBits(buff, live)
  {
    ShiftByte(buff);
    Pow2Values();
    var w, t, r := ToBits(buff, 32), ToBits(buff / 0x100_0000, 8), ToBits(buff, 24);
    forall i | live - 8 <= i < 32 ensures (r + Zeros(8))[i] == 0 {
      if i < 24 { assert r[i] == w[8 + i] == w[live..][8 + i - live]; }
    }
  }

  /** The last byte is padded with zeros. */
  lemma LastByte(buff: nat, live: nat)
    requires Aligned(buff, live) && 0 < live < 8
    ensures buff / 0x100_0000 < 256
    ensures Aligned(buff * 256 % 0x1_0000_0000, 0)
    ensures ToBits(buff / 0x100_0000, 8) == LiveBits(buff, live) + Zeros(8 - live)
  {
    ShiftByte(buff);
    Pow2Values();
    var w, t, r := ToBits(buff, 32), ToBits(buff / 0x100_0000, 8), ToBits(buff, 24);
    assert forall i {:trigger w[i]} | live <= i < 32 :: w[i] == w[live..][i - live] == 0;
    forall i | 0 <= i < 32 ensures (r + Zeros(8))[i] == 0 {
      if i < 24 { assert r[i] == w[8 + i]; }
    }
    assert t == w[..8];
  }

  function Above0(n: int): nat { if n < 0 then 0 else n }

  lemma NoLive(buff: nat)
    ensures LiveBits(buff, 0) == []
  {
  }

  lemma ByteOut(bytes: seq<byte>, buff: nat, live: int)
    requires live > 0 && Aligned(buff, live)
    ensures buff / 0x100_0000 < 256 && Aligned(buff * 256 % 0x1_0000_0000, Above0(live - 8))
    ensures BytesToBits(bytes + [buff / 0x100_0000]) + LiveBits(buff * 256 % 0x1_0000_0000, Above0(live - 8))
         == BytesToBits(bytes) + LiveBits(buff, live) + Zeros(Above0(8 - live))
  {
    hide ToBits, BytesToBits, Pow2, LiveBits;
    var b, l, l' := BytesToBits(bytes), LiveBits(buff, live), LiveBits(buff * 256 % 0x1_0000_0000, Above0(live - 8));
    if live >= 8 {
      TopByte(buff, live);
      Assoc(b, ToBits(buff / 0x100_0000, 8), l');
      Nothing(b + l);
    } else {
      LastByte(buff, live);
      Assoc(b, l, Zeros(8 - live));
      NoLive(buff * 256 % 0x1_0000_0000);
      Nothing(b + (l + Zeros(8 - live)));
    }
    BytesToBitsSnoc(bytes, buff / 0x100_0000);
  }

  /** Or-ing a field in below the live bits appends it. */
  lemma AddField(buff: nat, live: nat, v: nat, n: nat)
    requires Aligned(buff, live) && live + n <= 32 && v < Pow2(n)
    ensures Aligned(Or(buff, Shl(v, 32 - live - n)), live + n)
    ensures LiveBits(Or(buff, Shl(v, 32 - live - n)), live + n) == LiveBits(buff, live) + ToBits(v, n)
  {
    hide ToBits, Pow2, Shl, Shr, Or;
    var k := 32 - live - n;
    var f := Shl(v, k);
    FieldBits(v, live, n, k);
    OrBelow(buff, f, 32);
    var w, u, o := ToBits(buff, 32), ToBits(f, 32), ToBits(Or(buff, f), 32);
    assert forall i {:trigger w[i]} | live <= i < 32 :: w[i] == w[live..][i - live] == 0;
    forall i | 0 <= i < 32 ensures o[i] == if i < live then w[i] else u[i] {
      OrBits(buff, f, 32, i);
    }
    assert o == w[..live] + ToBits(v, n) + Zeros(k);
  }

  lemma FieldBits(v: nat, live: nat, n: nat, k: nat)
    requires v < Pow2(n)
    ensures Shl(v, k) < Pow2(live + n + k)
    ensures ToBits(Shl(v, k), live + n + k) == Zeros(live) + ToBits(v, n) + Zeros(k)
  {
    ToBitsShift(v, live + n, k);
    ToBitsSplit(v, live, n);
    ShrBelow(v, n);
    ToBitsZero(live);
    ShlBelow(v, n, k);
    Pow2Monotone(n + k, live + n + k);
  }

  lemma ShrByte(v: nat)
    ensures Shr(v, 8) == v / 256 && ToBits(v, 8) == ToBits(v % 256, 8)
  {
    Pow2Values();
    ShrDivides(v, 8);
    var h := Shr(v, 8);
    assert h * 256 <= v < h * 256 + 256;
    ShlMultiplies(v / 256, 8);
    ToBitsLow(v / 256, 8, v % 256);
  }

  class BitWriter {
    var bsBuff: nat
    var bsLive: int
    var zbits: array<byte>
    var numZ: nat

    constructor (room: array<byte>)
      ensures Valid() && zbits == room && Emitted() == [] && bsLive >= 0
    {
      bsBuff, bsLive, zbits, numZ := 0, 0, room, 0;
      new;
      ToBitsZero(32);
      assert zbits[..0] == [];
    }

    /** bsLive goes below 0 when FinishWrite has padded the last byte. */
    ghost predicate Valid()
      reads this
    {
      Aligned(bsBuff, Live()) && numZ <= zbits.Length && 8 * numZ + bsLive <= 8 * zbits.Length
    }

    ghost function Live(): nat
      reads this
    {
      Above0(bsLive)
    }

    /** Everything written so far: whole bytes and the bits still in the buffer. */
    ghost function Emitted(): (b: seq<bit>)
      requires Valid()
      reads this, zbits
      ensures |b| == 8 * numZ + Live()
    {
      BytesToBits(zbits[..numZ]) + LiveBits(bsBuff, Live())
    }

    method PutByte()
      requires Valid() && bsLive > 0
      modifies this, zbits
      ensures Valid() && zbits == old(zbits) && numZ == old(numZ) + 1 && bsLive == old(bsLive) - 8
      ensures Emitted() == old(Emitted()) + Zeros(Above0(0 - bsLive))
    {
      ByteOut(zbits[..numZ], bsBuff, bsLive);
      ghost var before := zbits[..numZ];
      zbits[numZ] := bsBuff / 0x100_0000;
      assert zbits[..numZ + 1] == before + [zbits[numZ]];
      numZ := numZ + 1;
      bsBuff := bsBuff * 256 % 0x1_0000_0000;
      bsLive := bsLive - 8;
    }

    /** Move whole bytes out of the buffer. */
    method NeedW()
      requires Valid() && bsLive >= 0
      modifies this, zbits
      ensures Valid() && zbits == old(zbits) && Emitted() == old(Emitted()) && 0 <= bsLive < 8
    {
      while bsLive >= 8
        invariant Valid() && zbits == old(zbits) && Emitted() == old(Emitted()) && bsLive >= 0
        decreases bsLive
      {
        ghost var e := Emitted();
        PutByte();
        assert e + Zeros(0) == e;
      }
    }

    /** Write the n bits of v. */
    method W(n: nat, v: nat)
      requires Valid() && bsLive >= 0 && n <= 24 && v < Pow2(n)
      requires |Emitted()| + n <= 8 * zbits.Length
      modifies this, zbits
      ensures Valid() && bsLive >= 0 && zbits == old(zbits) && Emitted() == old(Emitted()) + ToBits(v, n)
    {
      hide ToBits, BytesToBits, Pow2, Shl, Or, LiveBits, Aligned;
      NeedW();
      AddField(bsBuff, bsLive, v, n);
      bsBuff := Or(bsBuff, Shl(v, 32 - bsLive - n));
      bsLive := bsLive + n;
    }

    /** The whole bytes have been taken away; the bits in the buffer stay. */
    method Restart()
      requires Valid()
      modifies this`numZ
      ensures Valid() && numZ == 0 && Emitted() == LiveBits(bsBuff, Live())
    {
      numZ := 0;
      assert BytesToBits(zbits[..0]) == [];
      assert [] + LiveBits(bsBuff, Live()) == LiveBits(bsBuff, Live());
    }

    /** Later bytes go to a new place. */
    method MoveTo(room: array<byte>)
      requires Valid() && numZ == 0 && bsLive <= 8 * room.Length
      modifies this`zbits
      ensures Valid() && zbits == room && Emitted() == old(Emitted())
    {
      zbits := room;
      assert zbits[..0] == [];
    }

    /** Pad with zeros to a whole byte and empty the buffer. */
    method FinishWrite()
      requires Valid() && bsLive >= 0
      modifies this, zbits
      ensures Valid() && zbits == old(zbits) && bsLive <= 0
      ensures |old(Emitted())| <= 8 * numZ < |old(Emitted())| + 8
      ensures BytesToBits(zbits[..numZ]) == old(Emitted()) + Zeros(8 * numZ - |old(Emitted())|)
    {
      ghost var e := Emitted();
      assert e + Zeros(0) == e;
      while bsLive > 0
        invariant Valid() && zbits == old(zbits)
        invariant bsLive >= 0 ==> Emitted() == e
        invariant bsLive < 0 ==> bsLive > -8 && Emitted() == e + Zeros(0 - bsLive)
        decreases bsLive
      {
        PutByte();
        assert e + Zeros(0) == e;
      }
      assert Emitted() == BytesToBits(zbits[..numZ]);
    }
  }
}
