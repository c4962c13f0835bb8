// The decoder's bit buffer: up to 31 bits that have been taken from the input and not yet been asked for.
module BitSource {
  import opened Bits
  import opened BitIO
  import opened Permutations

  /** A byte is shifted into the buffer. */
  lemma Loaded(buff: nat, live: nat, c: byte)
    requires live <= 24
    ensures ToBits((buff * 256 + c) % 0x1_0000_0000, live + 8) == ToBits(buff, live) + ToBits(c, 8)
  {
    hide ToBits, Shl, Shr;
    var x := buff * 256 + c;
    var r := x % 0x1_0000_0000;
    Word32(x);
    ToBitsSplit(x, 24 - live, live + 8);
    ToBitsSplit(r, 24 - live, live + 8);
    assert ToBits(x, 32)[24 - live..] == ToBits(x, live + 8) && ToBits(r, 32)[24 - live..] == ToBits(r, live + 8);
    ToBitsSplit(x, live, 8);
    Pow2Shift(buff, c);
  }

  lemma Word32(x: nat)
    ensures ToBits(x % 0x1_0000_0000, 32) == ToBits(x, 32)
  {
    hide ToBits, Shl;
    var q, r := x / 0x1_0000_0000, x % 0x1_0000_0000;
    Pow2Values();
    ShlMultiplies(q, 32);
    assert Shl(q, 32) + r == x;
    ToBitsLow(q, 32, r);
  }

  lemma Pow2Shift(buff: nat, c: byte)
    ensures Shr(buff * 256 + c, 8) == buff && ToBits(buff * 256 + c, 8) == ToBits(c, 8)
  {
    ShrByte(buff * 256 + c);
    assert (buff * 256 + c) / 256 == buff && (buff * 256 + c) % 256 == c;
  }

  /** The top n live bits are taken off. */
  lemma Taken(buff: nat, live: nat, n: nat)
    requires n <= live
    ensures ToBits(buff, live)[..n] == ToBits(Shr(buff, live - n), n)
    ensures ToBits(buff, live)[n..] == ToBits(buff, live - n)
  {
    ToBitsSplit(buff, n, live - n);
  }

  /** v & ((1 << n) - 1). */
  function LowBits(v: nat, n: nat): nat {
    if n == 0 then 0 else 2 * LowBits(v / 2, n - 1) + v % 2
  }

  lemma {:induction false} LowBitsRead(v: nat, n: nat)
    ensures FromBits(ToBits(v, n)) == LowBits(v, n)
  {
    if n > 0 {
      LowBitsRead(v / 2, n - 1);
      assert ToBits(v, n)[..n - 1] == ToBits(v / 2, n - 1);
    }
  }

  lemma {:induction false} FirstByte(s: seq<byte>)
    requires s != []
    ensures BytesToBits(s) == ToBits(s[0], 8) + BytesToBits(s[1..])
  {
    BytesToBitsAppend([s[0]], s[1..]);
    assert [s[0]] + s[1..] == s && BytesToBits([s[0]]) == [] + ToBits(s[0], 8) by { assert [s[0]][..0] == []; }
    Nothing(ToBits(s[0], 8));
  }

  class BitReader {
    var bsBuff: nat
    var bsLive: nat
    var nextIn: seq<byte>

    ghost predicate BufferOk()
      reads this`bsLive
    {
      bsLive <= 31
    }

    /** The bits that can be had without more input. */
    ghost function Bits(): seq<bit>
      reads this`bsBuff, this`bsLive, this`nextIn
    {
      ToBits(bsBuff, bsLive) + BytesToBits(nextIn)
    }

    constructor ()
      ensures BufferOk() && nextIn == [] && Bits() == []
    {
      bsBuff, bsLive, nextIn := 0, 0, [];
      new;
      assert ToBits(0, 0) + BytesToBits([]) == [];
    }

    method LoadByte()
      requires bsLive <= 23 && nextIn != []
      modifies this
      ensures bsLive == old(bsLive) + 8 && Bits() == old(Bits()) && nextIn == old(nextIn)[1..]
    {
      var c := nextIn[0];
      Loaded(bsBuff, bsLive, c);
      FirstByte(nextIn);
      Assoc(ToBits(bsBuff, bsLive), ToBits(c, 8), BytesToBits(nextIn[1..]));
      bsBuff := (bsBuff * 256 + c) % 0x1_0000_0000;
      bsLive := bsLive + 8;
      nextIn := nextIn[1..];
    }

    /** GET_BITS: take n bits, or all the input there is if that is not enough. */
    method GetBits(n: nat) returns (ok: bool, v: nat)
      requires BufferOk() && 1 <= n <= 24
      modifies this
      ensures BufferOk()
      ensures ok ==> n <= |old(Bits())| && v == FromBits(old(Bits())[..n]) && Bits() == old(Bits())[n..]
      ensures !ok ==> |Bits()| < n && Bits() == old(Bits()) && nextIn == []
    {
      hide ToBits, BytesToBits, FromBits, LowBits, Shr;
      ghost var all := Bits();
      while bsLive < n
        invariant BufferOk() && Bits() == all
        decreases |nextIn|
      {
        if nextIn == [] {
          NoBytes(bsBuff, bsLive);
          return false, 0;
        }
        LoadByte();
      }
      Taken(bsBuff, bsLive, n);
      LowBitsRead(Shr(bsBuff, bsLive - n), n);
      v := LowBits(Shr(bsBuff, bsLive - n), n);
      assert all[..n] == ToBits(bsBuff, bsLive)[..n] && all[n..] == ToBits(bsBuff, bsLive)[n..] + BytesToBits(nextIn);
      bsLive := bsLive - n;
      ok := true;
    }

    lemma NoBytes(buff: nat, live: nat)
      ensures |ToBits(buff, live) + BytesToBits([])| == live
    {
    }

    /** strm->next_in and avail_in: more input is put behind what is left of the old. */
    method Supply(more: seq<byte>)
      requires BufferOk()
      modifies this`nextIn
      ensures BufferOk() && Bits() == old(Bits()) + BytesToBits(more) && nextIn == old(nextIn) + more
    {
      BytesToBitsAppend(nextIn, more);
      Assoc(ToBits(bsBuff, bsLive), BytesToBits(nextIn), BytesToBits(more));
      nextIn := nextIn + more;
    }
  }
}
