// The block checksum: one table step a byte, for whatever table the library was built with.
module Crc {
  import opened Permutations

  type Table = bv32 -> bv32

  const CRC_INITIAL: bv32 := 0xffff_ffff

  function Update(tab: Table, crc: bv32, ch: byte): bv32 {
    (crc << 8) ^ tab((crc >> 24) ^ (ch as bv32))
  }

  function Fold(tab: Table, crc: bv32, s: seq<byte>): bv32 {
    if s == [] then crc else Update(tab, Fold(tab, crc, s[..|s| - 1]), s[|s| - 1])
  }

  lemma FoldSnoc(tab: Table, crc: bv32, s: seq<byte>, ch: byte)
    ensures Fold(tab, crc, s + [ch]) == Update(tab, Fold(tab, crc, s), ch)
  {
    assert (s + [ch])[..|s|] == s;
  }

  lemma {:induction false} FoldAppend(tab: Table, crc: bv32, s: seq<byte>, t: seq<byte>)
    ensures Fold(tab, crc, s + t) == Fold(tab, Fold(tab, crc, s), t)
  {
    if t == [] {
      assert s + t == s;
    } else {
      var last := |t| - 1;
      FoldAppend(tab, crc, s, t[..last]);
      assert s + t == (s + t[..last]) + [t[last]];
      FoldSnoc(tab, crc, s + t[..last], t[last]);
    }
  }

  function Finalise(crc: bv32): bv32 { !crc }

  /** Folding one more block's checksum into the stream's: rotate left by one, then exclusive-or. */
  function Combine(combined: bv32, block: bv32): bv32 {
    ((combined << 1) | (combined >> 31)) ^ block
  }

  /** The checksum as the number that is sent. */
  function AsWord(crc: bv32): (w: nat)
    ensures w < 0x1_0000_0000
  {
    crc as nat
  }

  lemma FoldNothing(tab: Table, crc: bv32)
    ensures Fold(tab, crc, []) == crc
  {
  }
}
