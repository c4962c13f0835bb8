// Move-to-front coding with runs of zeros in bijective base 2, and its decoder.
module Mtf {
  import opened Bits
  import opened Permutations

  const RUNA := 0
  const RUNB := 1
  const RUN_LIMIT := 2 * 1024 * 1024

  function ToFront(yy: seq<int>, j: nat): (r: seq<int>)
    requires j < |yy|
    ensures |r| == |yy| && r[0] == yy[j]
    ensures forall k {:trigger r[k]} | 0 < k < |yy| :: r[k] == if k <= j then yy[k - 1] else yy[k]
  {
    [yy[j]] + yy[..j] + yy[j + 1..]
  }

  /** The list at first: 0, 1, 2 and so on. */
  method StartList(n: nat, size: nat) returns (pos: array<int>)
    requires n <= size
    ensures fresh(pos) && pos.Length == size && pos[..n] == Iota(n)
  {
    pos := new int[size];
    var i := 0;
    while i < n
      invariant 0 <= i <= n && forall k | 0 <= k < i :: pos[k] == k
    {
      pos[i] := i;
      i := i + 1;
    }
  }

  lemma ToFrontPermutes(yy: seq<int>, j: nat)
    requires j < |yy| && IsPermutation(yy)
    ensures IsPermutation(ToFront(yy, j))
  {
  }

  /** A run of z zeros: digits 1 (RUNA) and 2 (RUNB), least significant first. */
  function RunSymbols(z: nat): seq<int> {
    if z == 0 then [] else [if z % 2 == 1 then RUNA else RUNB] + RunSymbols((z - 1) / 2)
  }

  lemma {:induction false} RunSymbolsShort(z: nat)
    ensures |RunSymbols(z)| <= z && Pow2(|RunSymbols(z)|) <= z + 1
  {
    if z > 0 { RunSymbolsShort((z - 1) / 2); }
  }

  /** The symbols for the rest l of the block, when z zeros are pending and the list is yy. */
  ghost function Encode(l: seq<int>, yy: seq<int>, z: nat): seq<int>
    requires IsPermutation(yy) && yy != [] && InRange(l, |yy|)
  {
    if l == [] then RunSymbols(z) + [|yy| + 1]
    else if l[0] == yy[0] then Encode(l[1..], yy, z + 1)
    else
      var j := IndexOf(yy, l[0]);
      ToFrontPermutes(yy, j);
      RunSymbols(z) + [j + 1] + Encode(l[1..], ToFront(yy, j), 0)
  }

  lemma {:induction false} RunSymbolsRange(z: nat)
    ensures InRange(RunSymbols(z), 2)
  {
    if z > 0 { RunSymbolsRange((z - 1) / 2); }
  }

  /** No more symbols than bytes and the end mark, with values up to |yy| + 1. */
  lemma {:induction false} EncodeRange(l: seq<int>, yy: seq<int>, z: nat)
    requires IsPermutation(yy) && yy != [] && InRange(l, |yy|)
    ensures 0 < |Encode(l, yy, z)| <= z + |l| + 1
    ensures InRange(Encode(l, yy, z), |yy| + 2)
  {
    RunSymbolsRange(z);
    RunSymbolsShort(z);
    if l != [] {
      if l[0] == yy[0] {
        EncodeRange(l[1..], yy, z + 1);
      } else {
        var j := IndexOf(yy, l[0]);
        ToFrontPermutes(yy, j);
        EncodeRange(l[1..], ToFront(yy, j), 0);
        assert InRange(l[1..], |yy|);
      }
    }
  }

  // ----- the decoder

  /** The list, the run that is being read (es + 1 zeros so far, next digit worth n) and the block so far. */
  datatype Unmtf = Unmtf(yy: seq<int>, es: int, n: int, out: seq<byte>)

  datatype Verdict =
    | More(u: Unmtf, inRun: bool)
    | Finished(u: Unmtf)
    | Bad

  ghost predicate Listed(u: Unmtf) {
    |u.yy| == 256 && InRange(u.yy, 256)
  }

  function AddDigit(u: Unmtf, sym: int): Verdict {
    if u.n >= RUN_LIMIT then Bad
    else More(u.(es := u.es + (if sym == RUNA then 1 else 2) * u.n, n := 2 * u.n), true)
  }

  /** A symbol that does not continue a run. */
  function Top(u: Unmtf, sym: int, byteOf: seq<byte>, eob: int, room: int): (v: Verdict)
    requires Listed(u) && |byteOf| == 256 && 0 <= sym <= eob <= 257
    ensures v.More? ==> Listed(v.u)
  {
    if sym == eob then Finished(u)
    else if sym == RUNA || sym == RUNB then AddDigit(u.(es := -1, n := 1), sym)
    else if |u.out| >= room then Bad
    else More(u.(yy := ToFront(u.yy, sym - 1), out := u.out + [byteOf[u.yy[sym - 1]]]), false)
  }

  function Copies(c: byte, k: int): (r: seq<byte>)
    ensures |r| == if k < 0 then 0 else k
  {
    if k <= 0 then [] else Copies(c, k - 1) + [c]
  }

  /** What one symbol does; a run is written out when the symbol after it is known. */
  function Accept(u: Unmtf, inRun: bool, sym: int, byteOf: seq<byte>, eob: int, room: int): (v: Verdict)
    requires Listed(u) && |byteOf| == 256 && 0 <= sym <= eob <= 257
    ensures v.More? ==> Listed(v.u)
  {
    if inRun && (sym == RUNA || sym == RUNB) then AddDigit(u, sym)
    else if inRun && u.es + 1 > 0 && |u.out| + u.es + 1 > room then Bad
    else if inRun then Top(u.(es := 0, out := u.out + Copies(byteOf[u.yy[0]], u.es + 1)), sym, byteOf, eob, room)
    else Top(u, sym, byteOf, eob, room)
  }

  /** A whole list of symbols; only the last one may be the end mark. */
  ghost function AcceptAll(u: Unmtf, inRun: bool, syms: seq<int>, byteOf: seq<byte>, eob: int, room: int): Verdict
    requires Listed(u) && |byteOf| == 256 && 0 <= eob <= 257 && InRange(syms, eob + 1)
    decreases |syms|
  {
    if syms == [] then More(u, inRun)
    else
      var v := Accept(u, inRun, syms[0], byteOf, eob, room);
      if v.More? then AcceptAll(v.u, v.inRun, syms[1..], byteOf, eob, room)
      else if v.Finished? && |syms| > 1 then Bad
      else v
  }

  // ----- decoding undoes encoding

  lemma FirstDigit(n: int, z: nat, d: int, z': nat)
    requires 0 < n && z == d + 2 * z' && 1 <= d <= 2
    ensures n * z == d * n + (2 * n) * z'
    ensures (2 * n) * (z' + 1) <= n * (z + 1) && n <= n * (z + 1)
  {
    assert n * (z + 1) == d * n + (2 * n) * z' + n;
    assert (2 * n) * z' >= 0 && d * n >= n;
  }

  lemma {:induction false} RunRead(u: Unmtf, z: nat, t: seq<int>, byteOf: seq<byte>, eob: int, room: int) returns (n': int)
    requires Listed(u) && |byteOf| == 256 && 2 <= eob <= 257 && InRange(RunSymbols(z) + t, eob + 1) && InRange(t, eob + 1)
    requires 0 < u.n && u.n * (z + 1) <= RUN_LIMIT
    ensures AcceptAll(u, true, RunSymbols(z) + t, byteOf, eob, room)
         == AcceptAll(u.(es := u.es + u.n * z, n := n'), true, t, byteOf, eob, room)
    decreases z
  {
    hide AcceptAll, RunSymbols;
    RunSymbolsFirst(z);
    if z == 0 {
      Nothing(t);
      n' := u.n;
    } else {
      var z', s := (z - 1) / 2, if z % 2 == 1 then RUNA else RUNB;
      Assoc([s], RunSymbols(z'), t);
      FirstDigit(u.n, z, if z % 2 == 1 then 1 else 2, z');
      DigitRead(u, s, RunSymbols(z') + t, byteOf, eob, room);
      n' := RunRead(AddDigit(u, s).u, z', t, byteOf, eob, room);
    }
  }

  lemma RunSymbolsFirst(z: nat)
    ensures z == 0 ==> RunSymbols(z) == []
    ensures z > 0 ==> RunSymbols(z) == [if z % 2 == 1 then RUNA else RUNB] + RunSymbols((z - 1) / 2)
  {
  }

  lemma DigitRead(u: Unmtf, s: int, t: seq<int>, byteOf: seq<byte>, eob: int, room: int)
    requires Listed(u) && |byteOf| == 256 && 2 <= eob <= 257 && InRange([s] + t, eob + 1)
    requires s in {RUNA, RUNB} && u.n < RUN_LIMIT
    ensures InRange(t, eob + 1) && Listed(AddDigit(u, s).u)
    ensures AcceptAll(u, true, [s] + t, byteOf, eob, room) == AcceptAll(AddDigit(u, s).u, true, t, byteOf, eob, room)
  {
    assert ([s] + t)[1..] == t;
  }

  /** A run, once the symbol after it arrives, has put its zeros out. */
  lemma RunWritten(u: Unmtf, z: nat, t: seq<int>, byteOf: seq<byte>, eob: int, room: int) returns (v: Unmtf)
    requires Listed(u) && |byteOf| == 256 && 2 <= eob <= 257 && InRange(RunSymbols(z) + t, eob + 1) && InRange(t, eob + 1)
    requires z < RUN_LIMIT && |u.out| + z <= room && t != [] && t[0] >= 2
    ensures Listed(v) && v.yy == u.yy && v.out == u.out + Copies(byteOf[u.yy[0]], z)
    ensures AcceptAll(u, false, RunSymbols(z) + t, byteOf, eob, room) == AcceptAll(v, false, t, byteOf, eob, room)
  {
    if z == 0 {
      assert RunSymbols(0) + t == t;
      v := u;
    } else {
      var w := u.(es := -1, n := 1);
      assert AcceptAll(u, false, RunSymbols(z) + t, byteOf, eob, room)
          == AcceptAll(w, true, RunSymbols(z) + t, byteOf, eob, room);
      var n' := RunRead(w, z, t, byteOf, eob, room);
      v := u.(es := 0, n := n', out := u.out + Copies(byteOf[u.yy[0]], z));
    }
  }

  function Bytes(l: seq<int>, byteOf: seq<byte>): seq<byte>
    requires InRange(l, |byteOf|)
  {
    seq(|l|, k requires 0 <= k < |l| => byteOf[l[k]])
  }

  /** A symbol that moves entry j of the list to the front. */
  lemma LiteralRead(v: Unmtf, j: nat, t: seq<int>, byteOf: seq<byte>, eob: int, room: int)
    requires Listed(v) && |byteOf| == 256 && 1 <= j <= eob - 2 && eob <= 257 && InRange(t, eob + 1) && |v.out| < room
    ensures Listed(v.(yy := ToFront(v.yy, j), out := v.out + [byteOf[v.yy[j]]]))
    ensures InRange([j + 1] + t, eob + 1)
    ensures AcceptAll(v, false, [j + 1] + t, byteOf, eob, room)
         == AcceptAll(v.(yy := ToFront(v.yy, j), out := v.out + [byteOf[v.yy[j]]]), false, t, byteOf, eob, room)
  {
    assert ([j + 1] + t)[1..] == t;
  }

  /** From state u the symbols end the block with z copies of c and then l. */
  ghost predicate Restores(syms: seq<int>, u: Unmtf, c: int, z: int, l: seq<int>, byteOf: seq<byte>, eob: int, room: int) {
    Listed(u) && |byteOf| == 256 && 0 <= c < 256 && InRange(l, 256) && 0 <= eob <= 257 && InRange(syms, eob + 1) &&
    var v := AcceptAll(u, false, syms, byteOf, eob, room);
    v.Finished? && v.u.out == u.out + Copies(byteOf[c], z) + Bytes(l, byteOf)
  }

  lemma EndRestores(u: Unmtf, z: nat, byteOf: seq<byte>, eob: int, room: int)
    requires Listed(u) && |byteOf| == 256 && 2 <= eob <= 257 && z < RUN_LIMIT && |u.out| + z <= room
    ensures Restores(RunSymbols(z) + [eob], u, u.yy[0], z, [], byteOf, eob, room)
  {
    RunSymbolsRange(z);
    var v := RunWritten(u, z, [eob], byteOf, eob, room);
    assert Bytes([], byteOf) == [];
  }

  lemma RunThenLiteral(u: Unmtf, z: nat, j: nat, t: seq<int>, byteOf: seq<byte>, eob: int, room: int) returns (w: Unmtf)
    requires Listed(u) && |byteOf| == 256 && 1 <= j <= eob - 2 && eob <= 257 && z < RUN_LIMIT && |u.out| + z < room
    requires InRange(t, eob + 1)
    ensures InRange(RunSymbols(z) + ([j + 1] + t), eob + 1)
    ensures Listed(w) && w.yy == ToFront(u.yy, j) && w.out == u.out + Copies(byteOf[u.yy[0]], z) + [byteOf[u.yy[j]]]
    ensures AcceptAll(u, false, RunSymbols(z) + ([j + 1] + t), byteOf, eob, room) == AcceptAll(w, false, t, byteOf, eob, room)
  {
    RunSymbolsRange(z);
    var v := RunWritten(u, z, [j + 1] + t, byteOf, eob, room);
    LiteralRead(v, j, t, byteOf, eob, room);
    w := v.(yy := ToFront(v.yy, j), out := v.out + [byteOf[v.yy[j]]]);
  }

  lemma LiteralRestores(syms: seq<int>, u: Unmtf, w: Unmtf, z: nat, t: seq<int>, l: seq<int>,
                        byteOf: seq<byte>, eob: int, room: int)
    requires l != [] && Listed(u) && InRange(l, 256) && Restores(t, w, l[0], 0, l[1..], byteOf, eob, room)
    requires InRange(syms, eob + 1) && w.out == u.out + Copies(byteOf[u.yy[0]], z) + [byteOf[l[0]]]
    requires AcceptAll(u, false, syms, byteOf, eob, room) == AcceptAll(w, false, t, byteOf, eob, room)
    ensures Restores(syms, u, u.yy[0], z, l, byteOf, eob, room)
  {
    hide AcceptAll;
    assert Copies(byteOf[l[0]], 0) == [];
    assert Bytes(l, byteOf) == [byteOf[l[0]]] + Bytes(l[1..], byteOf);
  }

  /** One more zero is pending. */
  lemma ZeroRestores(syms: seq<int>, u: Unmtf, z: nat, l: seq<int>, byteOf: seq<byte>, eob: int, room: int)
    requires l != [] && Restores(syms, u, l[0], z + 1, l[1..], byteOf, eob, room)
    ensures Restores(syms, u, l[0], z, l, byteOf, eob, room)
  {
    assert l == [l[0]] + l[1..];
    assert Bytes(l, byteOf) == [byteOf[l[0]]] + Bytes(l[1..], byteOf);
  }

  /** Decoding the symbols of a block yields the block, whatever bytes its numbers stand for. */
  lemma {:induction false} DecodeUndoesEncode(l: seq<int>, yy: seq<int>, z: nat, u: Unmtf, byteOf: seq<byte>, room: int)
    requires IsPermutation(yy) && 1 <= |yy| <= 256 && InRange(l, |yy|) && |byteOf| == 256
    requires Listed(u) && u.yy[..|yy|] == yy && |u.out| + z + |l| <= room && z + |l| < RUN_LIMIT
    ensures Restores(Encode(l, yy, z), u, yy[0], z, l, byteOf, |yy| + 1, room)
    decreases |l|
  {
    assert yy[0] == u.yy[0];
    if l == [] {
      EndRestores(u, z, byteOf, |yy| + 1, room);
    } else if l[0] == yy[0] {
      DecodeUndoesEncode(l[1..], yy, z + 1, u, byteOf, room);
      ZeroRestores(Encode(l, yy, z), u, z, l, byteOf, |yy| + 1, room);
    } else {
      MoveRestores(l, yy, z, u, byteOf, room);
    }
  }

  lemma EncodeMove(l: seq<int>, yy: seq<int>, z: nat)
    requires IsPermutation(yy) && yy != [] && InRange(l, |yy|) && l != [] && l[0] != yy[0]
    ensures IsPermutation(ToFront(yy, IndexOf(yy, l[0]))) && InRange(l[1..], |yy|)
    ensures Encode(l, yy, z)
         == RunSymbols(z) + ([IndexOf(yy, l[0]) + 1] + Encode(l[1..], ToFront(yy, IndexOf(yy, l[0])), 0))
  {
    hide RunSymbols;
    ToFrontPermutes(yy, IndexOf(yy, l[0]));
  }

  lemma {:induction false} MoveRestores(l: seq<int>, yy: seq<int>, z: nat, u: Unmtf, byteOf: seq<byte>, room: int)
    requires IsPermutation(yy) && 1 <= |yy| <= 256 && InRange(l, |yy|) && |byteOf| == 256
    requires Listed(u) && u.yy[..|yy|] == yy && |u.out| + z + |l| <= room && z + |l| < RUN_LIMIT
    requires l != [] && l[0] != yy[0]
    ensures Restores(Encode(l, yy, z), u, yy[0], z, l, byteOf, |yy| + 1, room)
    decreases |l|, 0
  {
    hide AcceptAll, Encode, RunSymbols, Restores, Copies;
    var j := IndexOf(yy, l[0]);
    ToFrontPermutes(yy, j);
    var yy' := ToFront(yy, j);
    assert InRange(l[1..], |yy|);
    var t := Encode(l[1..], yy', 0);
    EncodeRange(l[1..], yy', 0);
    var w := RunThenLiteral(u, z, j, t, byteOf, |yy| + 1, room);
    assert w.yy[..|yy|] == yy';
    DecodeUndoesEncode(l[1..], yy', 0, w, byteOf, room);
    EncodeMove(l, yy, z);
    LiteralRestores(Encode(l, yy, z), u, w, z, t, l, byteOf, |yy| + 1, room);
  }
}
