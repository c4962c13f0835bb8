// The encoder's move-to-front pass: it overwrites the sort's pointers, two 16-bit symbols to a word, behind its
// own reading position.
module GenerateMtf {
  import opened Permutations
  import opened Rotations
  import opened Mtf
  import opened SymbolMaps

  // ----- 16-bit values laid over 32-bit words

  /** Value k of the 16-bit view: the low half of word k / 2, or the high half. */
  function Half(words: seq<int>, k: nat): int
    requires k / 2 < |words|
  {
    if k % 2 == 0 then words[k / 2] % 0x1_0000 else words[k / 2] / 0x1_0000
  }

  function WithHalf(w: int, k: nat, v: nat): int {
    if k % 2 == 0 then w / 0x1_0000 * 0x1_0000 + v else w % 0x1_0000 + 0x1_0000 * v
  }

  function Halves(words: seq<int>, n: nat): (h: seq<int>)
    requires n <= 2 * |words|
    ensures |h| == n
  {
    seq(n, k requires 0 <= k < n => Half(words, k))
  }

  lemma HalfPut(words: seq<int>, n: nat, v: nat)
    requires n / 2 < |words| && v < 0x1_0000
    ensures Halves(words[n / 2 := WithHalf(words[n / 2], n, v)], n + 1) == Halves(words, n) + [v]
  {
    var w' := words[n / 2 := WithHalf(words[n / 2], n, v)];
    forall k | 0 <= k < n ensures Half(w', k) == Half(words, k) {
    }
    assert Half(w', n) == v;
  }

  // ----- the encoding in progress

  function Numbers(l: seq<byte>, inUse: seq<bool>): (r: seq<int>)
    requires |inUse| == 256
    ensures |r| == |l|
  {
    seq(|l|, k requires 0 <= k < |l| => Number(inUse, l[k]))
  }

  /** After i bytes of l: the symbols out, the list yy and z pending zeros; what is left completes the encoding. */
  ghost predicate Midway(l: seq<int>, m: nat, i: nat, out: seq<int>, yy: seq<int>, z: nat) {
    1 <= m <= 256 && InRange(l, m) && i <= |l| && IsPermutation(yy) && |yy| == m && |out| + z <= i &&
    out + Encode(l[i..], yy, z) == Encode(l, Iota(m), 0)
  }

  lemma MidwayStart(l: seq<int>, m: nat)
    requires 1 <= m <= 256 && InRange(l, m)
    ensures Midway(l, m, 0, [], Iota(m), 0)
  {
    assert l[0..] == l;
    assert [] + Encode(l, Iota(m), 0) == Encode(l, Iota(m), 0);
  }

  lemma MidwayZero(l: seq<int>, m: nat, i: nat, out: seq<int>, yy: seq<int>, z: nat)
    requires Midway(l, m, i, out, yy, z) && i < |l| && l[i] == yy[0]
    ensures Midway(l, m, i + 1, out, yy, z + 1)
  {
    assert l[i..][1..] == l[i + 1..];
  }

  lemma MidwayMove(l: seq<int>, m: nat, i: nat, out: seq<int>, yy: seq<int>, z: nat, j: nat)
    requires Midway(l, m, i, out, yy, z) && i < |l| && j < m && l[i] == yy[j] && j > 0
    ensures Midway(l, m, i + 1, out + RunSymbols(z) + [j + 1], ToFront(yy, j), 0)
    ensures |out| + |RunSymbols(z)| <= i
  {
    RunSymbolsShort(z);
    ToFrontPermutes(yy, j);
    assert l[i..][1..] == l[i + 1..];
    assert IndexOf(yy, l[i..][0]) == j;
    Assoc(out, RunSymbols(z) + [j + 1], Encode(l[i + 1..], ToFront(yy, j), 0));
    Assoc(out, RunSymbols(z), [j + 1]);
  }

  lemma MidwayEnd(l: seq<int>, m: nat, out: seq<int>, yy: seq<int>, z: nat)
    requires Midway(l, m, |l|, out, yy, z)
    ensures out + RunSymbols(z) + [m + 1] == Encode(l, Iota(m), 0)
    ensures |out| + |RunSymbols(z)| <= |l|
  {
    hide Encode, RunSymbols, Iota, IsPermutation, InRange;
    RunSymbolsShort(z);
    assert l[|l|..] == [];
    EncodeEnd(yy, z);
    Assoc(out, RunSymbols(z), [m + 1]);
  }

  lemma EncodeEnd(yy: seq<int>, z: nat)
    requires IsPermutation(yy) && yy != []
    ensures Encode([], yy, z) == RunSymbols(z) + [|yy| + 1]
  {
  }

  ghost predicate Counted(freq: seq<int>, out: seq<int>, eob: nat) {
    |freq| == 258 && eob <= 257 && forall v {:trigger freq[v]} | 0 <= v <= eob :: freq[v] == multiset(out)[v]
  }

  /** mtfv[wr] = v. */
  method PutSymbol(arr1: array<int>, wr: nat, v: nat, mtfFreq: array<int>, ghost out: seq<int>, ghost eob: nat)
      returns (wr': nat)
    requires arr1 != mtfFreq && wr / 2 < arr1.Length && v <= eob <= 257 && |out| == wr && Halves(arr1[..], wr) == out
    requires mtfFreq.Length == 258 && Counted(mtfFreq[..], out, eob)
    modifies arr1, mtfFreq
    ensures wr' == wr + 1 && Halves(arr1[..], wr') == out + [v]
    ensures forall k {:trigger arr1[k]} | wr / 2 < k < arr1.Length :: arr1[k] == old(arr1[k])
    ensures Counted(mtfFreq[..], out + [v], eob)
  {
    HalfPut(arr1[..], wr, v);
    ghost var was := arr1[..];
    arr1[wr / 2] := WithHalf(arr1[wr / 2], wr, v);
    assert arr1[..] == was[wr / 2 := WithHalf(was[wr / 2], wr, v)];
    mtfFreq[v] := mtfFreq[v] + 1;
    wr' := wr + 1;
  }

  /** Write out zPend > 0 pending zeros. */
  method PutRun(arr1: array<int>, wr0: nat, zPend0: nat, mtfFreq: array<int>, ghost out: seq<int>, ghost eob: nat,
                ghost i: nat) returns (wr: nat)
    requires arr1 != mtfFreq && zPend0 > 0 && |out| == wr0 && wr0 + |RunSymbols(zPend0)| <= i < 2 * arr1.Length
    requires 2 <= eob <= 257 && Halves(arr1[..], wr0) == out
    requires mtfFreq.Length == 258 && Counted(mtfFreq[..], out, eob)
    modifies arr1, mtfFreq
    ensures wr == wr0 + |RunSymbols(zPend0)| && Halves(arr1[..], wr) == out + RunSymbols(zPend0)
    ensures forall k {:trigger arr1[k]} | i / 2 < k < arr1.Length :: arr1[k] == old(arr1[k])
    ensures Counted(mtfFreq[..], out + RunSymbols(zPend0), eob)
  {
    hide RunSymbols, Halves, Counted;
    wr := wr0;
    ghost var done := out;
    var zPend: nat := zPend0 - 1;
    while true
      invariant |done| == wr <= wr + |RunSymbols(zPend + 1)| <= i
      invariant done + RunSymbols(zPend + 1) == out + RunSymbols(zPend0)
      invariant Halves(arr1[..], wr) == done && Counted(mtfFreq[..], done, eob)
      invariant forall k {:trigger arr1[k]} | i / 2 < k < arr1.Length :: arr1[k] == old(arr1[k])
      decreases zPend
    {
      var v := if zPend % 2 == 1 then RUNB else RUNA;
      RunDigit(zPend);
      wr := PutSymbol(arr1, wr, v, mtfFreq, done, eob);
      Assoc(done, [v], RunSymbols(zPend / 2));
      done := done + [v];
      if zPend < 2 {
        Nothing(done);
        break;
      }
      zPend := (zPend - 2) / 2;
    }
  }

  lemma RunDigit(z: nat)
    ensures RunSymbols(z + 1) == [if z % 2 == 1 then RUNB else RUNA] + RunSymbols(z / 2)
    ensures z < 2 ==> RunSymbols(z / 2) == []
  {
  }

  /** Find c in the list and move it to the front. */
  method MoveToFront(yy: array<int>, c: int, ghost m: nat) returns (j: nat)
    requires yy.Length == 256 && 1 <= m <= 256 && c in yy[1..m]
    modifies yy
    ensures 0 < j < m && old(yy[j]) == c && yy[..] == ToFront(old(yy[..]), j)
  {
    ghost var was := yy[..];
    ghost var at :| 1 <= at < m && was[at] == c;
    var rtmp := yy[1];
    yy[1] := yy[0];
    j := 1;
    while c != rtmp
      invariant 1 <= j <= at && rtmp == was[j]
      invariant forall k {:trigger yy[k]} | 1 <= k < 256 :: yy[k] == if k <= j then was[k - 1] else was[k]
      decreases at - j
    {
      j := j + 1;
      var rtmp2 := rtmp;
      rtmp := yy[j];
      yy[j] := rtmp2;
    }
    yy[0] := rtmp;
  }

  /** Fetch the byte before rotation i in sorted order, as its number. */
  method Fetch(arr1: array<int>, i: nat, block: array<byte>, nblock: nat, unseqToSeq: array<int>,
               ghost b: seq<byte>, ghost p: seq<int>, ghost inUse: seq<bool>) returns (c: int)
    requires 0 < nblock <= block.Length && block[..nblock] == b && unseqToSeq.Length == 256 && |inUse| == 256
    requires i < |p| == nblock <= arr1.Length && InRange(p, nblock) && arr1[i] == p[i]
    requires forall c | c in b :: inUse[c]
    requires forall c | 0 <= c < 256 && inUse[c] :: unseqToSeq[c] == Number(inUse, c)
    ensures c == Numbers(LastColumn(b, p), inUse)[i]
  {
    var j := arr1[i] - 1;
    if j < 0 { j := j + nblock; }
    RotBefore(b, p[i]);
    assert b[j] in b;
    c := unseqToSeq[block[j]];
  }

  lemma RotBefore(b: seq<byte>, i: int)
    requires 0 <= i < |b|
    ensures Rot(b, i, -1) == b[if i == 0 then |b| - 1 else i - 1]
  {
  }

  lemma NumbersInRange(l: seq<byte>, inUse: seq<bool>)
    requires |inUse| == 256 && forall c | c in l :: inUse[c]
    ensures InRange(Numbers(l, inUse), |Used(inUse)|)
  {
    forall k | 0 <= k < |l| ensures Number(inUse, l[k]) < |Used(inUse)| {
      assert l[k] in l;
      NumberedBack(inUse, l[k]);
    }
  }

  lemma LastColumnBytes(b: seq<byte>, p: seq<int>)
    requires b != []
    ensures forall c | c in LastColumn(b, p) :: c in b
  {
    forall c | c in LastColumn(b, p) ensures c in b {
      var k :| 0 <= k < |p| && LastColumn(b, p)[k] == c;
    }
  }

  /** One byte of the last column. */
  method Round(arr1: array<int>, wr0: nat, zPend0: nat, yy: array<int>, c: int, mtfFreq: array<int>,
               ghost l: seq<int>, ghost m: nat, ghost i: nat, ghost out0: seq<int>)
      returns (wr: nat, zPend: nat, ghost out: seq<int>)
    requires yy.Length == 256 && mtfFreq.Length == 258 && yy != mtfFreq && arr1 != yy && arr1 != mtfFreq
    requires i < |l| <= arr1.Length && l[i] == c
    requires 1 <= m <= 256 && Midway(l, m, i, out0, yy[..m], zPend0) && |out0| == wr0
    requires Halves(arr1[..], wr0) == out0 && Counted(mtfFreq[..], out0, m + 1)
    modifies arr1, yy, mtfFreq
    ensures Midway(l, m, i + 1, out, yy[..m], zPend) && |out| == wr
    ensures wr <= 2 * arr1.Length && Halves(arr1[..], wr) == out && Counted(mtfFreq[..], out, m + 1)
    ensures forall k {:trigger arr1[k]} | i < k < arr1.Length :: arr1[k] == old(arr1[k])
  {
    hide Encode, RunSymbols, Halves, Counted;
    wr, zPend, out := wr0, zPend0, out0;
    if yy[0] == c {
      MidwayZero(l, m, i, out, yy[..m], zPend);
      zPend := zPend + 1;
    } else {
      ghost var list := yy[..m];
      ghost var at := IndexOf(list, c);
      assert yy[1..m][at - 1] == c;
      MidwayMove(l, m, i, out, list, zPend, at);
      if zPend > 0 {
        wr := PutRun(arr1, wr, zPend, mtfFreq, out, m + 1, i);
      }
      RunSymbolsShort(zPend);
      out := out + RunSymbols(zPend);
      zPend := 0;
      var j := MoveToFront(yy, c, m);
      assert yy[..m] == ToFront(list, j);
      wr := PutSymbol(arr1, wr, j + 1, mtfFreq, out, m + 1);
      out := out + [j + 1];
    }
  }

  method ClearFreq(mtfFreq: array<int>, eob: nat)
    requires mtfFreq.Length == 258 && eob <= 257
    modifies mtfFreq
    ensures Counted(mtfFreq[..], [], eob)
  {
    var i := 0;
    while i <= eob
      invariant 0 <= i <= eob + 1 && forall v | 0 <= v < i :: mtfFreq[v] == 0
    {
      mtfFreq[i] := 0;
      i := i + 1;
    }
  }

  method EncodeColumn(arr1: array<int>, block: array<byte>, nblock: nat, unseqToSeq: array<int>, yy: array<int>,
                      mtfFreq: array<int>, ghost b: seq<byte>, ghost p: seq<int>, ghost used: seq<bool>, ghost m: nat)
      returns (wr: nat, zPend: nat, ghost out: seq<int>)
    requires 0 < nblock <= block.Length && nblock <= arr1.Length && block[..nblock] == b
    requires |p| == nblock && InRange(p, nblock) && forall k | 0 <= k < nblock :: arr1[k] == p[k]
    requires |used| == 256 && unseqToSeq.Length == 256 && mtfFreq.Length == 258 && yy.Length == 256
    requires mtfFreq != unseqToSeq && yy != mtfFreq && yy != unseqToSeq
    requires arr1 != mtfFreq && arr1 != yy && arr1 != unseqToSeq
    requires forall c | c in b :: used[c]
    requires forall c | 0 <= c < 256 && used[c] :: unseqToSeq[c] == Number(used, c)
    requires 1 <= m <= 256 && InRange(Numbers(LastColumn(b, p), used), m)
    requires yy[..m] == Iota(m) && Counted(mtfFreq[..], [], m + 1)
    modifies arr1, yy, mtfFreq
    ensures Midway(Numbers(LastColumn(b, p), used), m, nblock, out, yy[..m], zPend) && |out| == wr
    ensures wr <= 2 * arr1.Length && Halves(arr1[..], wr) == out && Counted(mtfFreq[..], out, m + 1)
  {
    ghost var l := Numbers(LastColumn(b, p), used);
    MidwayStart(l, m);
    wr, zPend, out := 0, 0, [];
    assert Halves(arr1[..], 0) == [];
    var i := 0;
    while i < nblock
      invariant 0 <= i <= nblock && Midway(l, m, i, out, yy[..m], zPend) && |out| == wr
      invariant wr <= 2 * arr1.Length && Halves(arr1[..], wr) == out && Counted(mtfFreq[..], out, m + 1)
      invariant forall k {:trigger arr1[k]} | i <= k < nblock :: arr1[k] == p[k]
    {
      var c := Fetch(arr1, i, block, nblock, unseqToSeq, b, p, used);
      wr, zPend, out := Round(arr1, wr, zPend, yy, c, mtfFreq, l, m, i, out);
      i := i + 1;
    }
  }

  /** The symbols of the block replace the pointers; no pointer is overwritten before it has been read. */
  method GenerateMTFValues(arr1: array<int>, block: array<byte>, nblock: nat, inUse: array<bool>,
                           unseqToSeq: array<int>, mtfFreq: array<int>, ghost b: seq<byte>, ghost p: seq<int>)
      returns (nInUse: nat, nMTF: nat)
    requires 0 < nblock <= block.Length && nblock <= arr1.Length && block[..nblock] == b
    requires |p| == nblock && InRange(p, nblock) && forall k | 0 <= k < nblock :: arr1[k] == p[k]
    requires inUse.Length == 256 && unseqToSeq.Length == 256 && mtfFreq.Length == 258 && mtfFreq != unseqToSeq
    requires arr1 != mtfFreq && arr1 != unseqToSeq
    requires forall c | c in b :: inUse[c]
    modifies arr1, unseqToSeq, mtfFreq
    ensures nInUse == |Used(inUse[..])| >= 1
    ensures forall c | 0 <= c < 256 && inUse[c] :: unseqToSeq[c] == Number(inUse[..], c)
    ensures InRange(Numbers(LastColumn(b, p), inUse[..]), nInUse) && nMTF <= nblock + 1
    ensures Halves(arr1[..], nMTF) == Encode(Numbers(LastColumn(b, p), inUse[..]), Iota(nInUse), 0)
    ensures Counted(mtfFreq[..], Halves(arr1[..], nMTF), nInUse + 1)
  {
    hide Encode, RunSymbols, Halves, Counted, Used, Number;
    nInUse := MakeMapsE(inUse, unseqToSeq);
    ghost var used := inUse[..];
    ghost var l := Numbers(LastColumn(b, p), used);
    LastColumnBytes(b, p);
    NumbersInRange(LastColumn(b, p), used);
    assert 0 <= l[0] < nInUse;
    ClearFreq(mtfFreq, nInUse + 1);
    var yy := StartList(nInUse, 256);
    var wr, zPend;
    ghost var out;
    wr, zPend, out := EncodeColumn(arr1, block, nblock, unseqToSeq, yy, mtfFreq, b, p, used, nInUse);
    MidwayEnd(l, nInUse, out, yy[..nInUse], zPend);
    if zPend > 0 {
      wr := PutRun(arr1, wr, zPend, mtfFreq, out, nInUse + 1, nblock);
    }
    RunSymbolsShort(zPend);
    out := out + RunSymbols(zPend);
    wr := PutSymbol(arr1, wr, nInUse + 1, mtfFreq, out, nInUse + 1);
    nMTF := wr;
  }
}
