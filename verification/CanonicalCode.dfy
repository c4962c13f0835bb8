// Canonical prefix codes from code lengths, and the tables that decode them.
module CanonicalCode {
  import opened Bits
  import opened BitIO
  import opened Counting
  import opened HuffmanTree
  import opened Permutations

  const MAX_CODE_LEN := 23

  ghost predicate Lengths(len: seq<int>, lo: nat, hi: nat) {
    forall i {:trigger len[i]} | 0 <= i < |len| :: lo <= len[i] <= hi
  }

  /** The first code of n bits: codes of one length are consecutive, and shorter codes come first. */
  function First(len: seq<int>, n: nat): nat {
    if n == 0 then 0 else 2 * (First(len, n - 1) + multiset(len)[n - 1])
  }

  /** One past the last code of n bits. */
  function Next(len: seq<int>, n: nat): nat {
    First(len, n) + multiset(len)[n]
  }

  /** How many symbols before s have a code as long as that of s. */
  function Rank(len: seq<int>, s: nat): nat
    requires s < |len|
  {
    multiset(len[..s])[len[s]]
  }

  function CodeOf(len: seq<int>, s: nat): nat
    requires s < |len| && len[s] >= 0
  {
    First(len, len[s]) + Rank(len, s)
  }

  /** Where symbol s stands when symbols are ordered by code length. */
  function Slot(len: seq<int>, s: nat): nat
    requires s < |len| && len[s] >= 0
  {
    CountBelow(len, len[s]) + Rank(len, s)
  }

  /** The code of symbol s as it is sent. */
  function CodeBits(len: seq<int>, s: nat): seq<bit>
    requires s < |len| && len[s] >= 0
  {
    ToBits(CodeOf(len, s), len[s])
  }

  lemma {:induction false} FirstZero(len: seq<int>, lo: nat)
    requires forall i {:trigger len[i]} | 0 <= i < |len| :: lo <= len[i]
    ensures First(len, lo) == 0 && CountBelow(len, lo) == 0
  {
    if lo > 0 { FirstZero(len, lo - 1); }
  }

  // ----- the codes fit and are prefix-free

  /** The part of the code space that codes shorter than n take up. */
  function Shorter(len: seq<int>, n: int, e: nat): int {
    Sum(seq(|len|, i requires 0 <= i < |len| => if len[i] < n then Cell(len[i], e) else 0))
  }

  lemma ShorterSnoc(len: seq<int>, x: int, n: int, e: nat)
    ensures Shorter(len + [x], n, e) == Shorter(len, n, e) + if x < n then Cell(x, e) else 0
  {
    var c := if x < n then Cell(x, e) else 0;
    var y := seq(|len|, i requires 0 <= i < |len| => if len[i] < n then Cell(len[i], e) else 0);
    var l := len + [x];
    assert seq(|l|, i requires 0 <= i < |l| => if l[i] < n then Cell(l[i], e) else 0) == y + [c];
    SumSnoc(y, c);
  }

  lemma {:induction false} ShorterSum(len: seq<int>, n: nat, e: nat)
    requires n <= e
    ensures Shorter(len, n + 1, e) == Shorter(len, n, e) + multiset(len)[n] * Pow2(e - n)
  {
    if len != [] {
      var last := |len| - 1;
      ShorterSum(len[..last], n, e);
      assert len == len[..last] + [len[last]];
      ShorterSnoc(len[..last], len[last], n, e);
      ShorterSnoc(len[..last], len[last], n + 1, e);
      var m := multiset(len[..last])[n];
      assert multiset(len)[n] == m + if len[last] == n then 1 else 0;
      assert (m + 1) * Pow2(e - n) == m * Pow2(e - n) + Pow2(e - n);
    }
  }

  lemma {:induction false} FirstShare(len: seq<int>, n: nat, e: nat)
    requires n <= e && Lengths(len, 0, e)
    ensures First(len, n) * Pow2(e - n) == Shorter(len, n, e)
  {
    if n == 0 {
      SumZero(seq(|len|, i requires 0 <= i < |len| => if len[i] < 0 then Cell(len[i], e) else 0));
    } else {
      FirstShare(len, n - 1, e);
      ShorterSum(len, n - 1, e);
      NextShare(len, n - 1, e);
      MulAssoc(Next(len, n - 1), 2, Pow2(e - n));
    }
  }

  lemma NextShare(len: seq<int>, n: nat, e: nat)
    requires n <= e
    ensures Next(len, n) * Pow2(e - n) == First(len, n) * Pow2(e - n) + multiset(len)[n] * Pow2(e - n)
  {
  }

  lemma ShorterInKraft(len: seq<int>, n: int, e: nat)
    ensures Shorter(len, n, e) <= Kraft(len, e)
    ensures (forall i {:trigger len[i]} | 0 <= i < |len| :: len[i] < n) ==> Shorter(len, n, e) == Kraft(len, e)
  {
    var x := seq(|len|, i requires 0 <= i < |len| => if len[i] < n then Cell(len[i], e) else 0);
    var y := seq(|len|, i requires 0 <= i < |len| => Cell(len[i], e));
    SumCompare(x, y);
    if forall i {:trigger len[i]} | 0 <= i < |len| :: len[i] < n { assert x == y; }
  }

  /** Codes of n bits do not run past 2^n, and the longest ones reach it when the code is complete. */
  lemma NextFits(len: seq<int>, n: nat, e: nat)
    requires n <= e && Lengths(len, 0, e) && Kraft(len, e) <= Pow2(e)
    ensures Next(len, n) <= Pow2(n)
    ensures n == e && Kraft(len, e) == Pow2(e) ==> Next(len, n) == Pow2(n)
  {
    hide First, Next, Kraft, Shorter, Pow2;
    FirstShare(len, n, e);
    ShorterSum(len, n, e);
    NextShare(len, n, e);
    ShorterInKraft(len, n + 1, e);
    Pow2Add(n, e - n);
    if Next(len, n) > Pow2(n) { Times(Pow2(n), Next(len, n), Pow2(e - n)); }
  }

  lemma Times(a: nat, b: nat, m: nat)
    requires a < b && m > 0
    ensures a * m + m <= b * m
  {
    var d := b - a - 1;
    assert b == a + 1 + d;
    assert b * m == a * m + m + d * m;
  }

  lemma RankBelow(len: seq<int>, s: nat)
    requires s < |len| && len[s] >= 0
    ensures Rank(len, s) < multiset(len)[len[s]] && CodeOf(len, s) < Next(len, len[s])
  {
    CountInPrefix(len, s);
  }

  /** Every code fits its length. */
  lemma CodeFits(len: seq<int>, s: nat, e: nat)
    requires s < |len| && Lengths(len, 0, e) && Kraft(len, e) <= Pow2(e)
    ensures CodeOf(len, s) < Pow2(len[s])
  {
    RankBelow(len, s);
    NextFits(len, len[s], e);
  }

  /** Longer codes lie beyond all extensions of shorter ones. */
  lemma {:induction false} LongerBeyond(len: seq<int>, n: nat, k: nat)
    requires k > 0
    ensures First(len, n + k) >= Shl(Next(len, n), k)
  {
    if k == 1 {
      assert Shl(Next(len, n), 1) == 2 * Shl(Next(len, n), 0);
    } else {
      LongerBeyond(len, n, k - 1);
    }
  }

  lemma {:induction false} ShrAtLeast(x: nat, y: nat, k: nat)
    requires x >= Shl(y, k)
    ensures Shr(x, k) >= y
  {
    if k > 0 { ShrAtLeast(x / 2, y, k - 1); }
  }

  lemma {:induction false} ShrFits(x: nat, n: nat, k: nat)
    requires x < Pow2(n + k)
    ensures Shr(x, k) < Pow2(n)
  {
    if k > 0 { ShrFits(x / 2, n, k - 1); }
  }

  /** The first n bits of a longer code, as a number. */
  lemma CodePrefix(len: seq<int>, s: nat, n: nat, e: nat)
    requires s < |len| && Lengths(len, 0, e) && Kraft(len, e) <= Pow2(e) && n <= len[s]
    ensures FromBits(CodeBits(len, s)[..n]) == Shr(CodeOf(len, s), len[s] - n)
  {
    CodeFits(len, s, e);
    ToBitsSplit(CodeOf(len, s), n, len[s] - n);
    ShrFits(CodeOf(len, s), n, len[s] - n);
    ReadBack(Shr(CodeOf(len, s), len[s] - n), n);
    assert CodeBits(len, s)[..n] == ToBits(Shr(CodeOf(len, s), len[s] - n), n);
  }

  lemma PrefixBeyond(len: seq<int>, s: nat, n: nat, e: nat)
    requires s < |len| && Lengths(len, 0, e) && Kraft(len, e) <= Pow2(e) && n < len[s]
    ensures FromBits(CodeBits(len, s)[..n]) >= Next(len, n)
  {
    CodePrefix(len, s, n, e);
    LongerBeyond(len, n, len[s] - n);
    ShrAtLeast(CodeOf(len, s), Next(len, n), len[s] - n);
  }

  /** No code is a prefix of the code of another symbol. */
  lemma PrefixFree(len: seq<int>, s: nat, t: nat, e: nat)
    requires s < |len| && t < |len| && s != t
    requires Lengths(len, 0, e) && Kraft(len, e) <= Pow2(e)
    ensures !(CodeBits(len, s) <= CodeBits(len, t))
  {
    if CodeBits(len, s) <= CodeBits(len, t) {
      var n := len[s];
      assert CodeBits(len, t)[..n] == CodeBits(len, s)[..n];
      CodePrefix(len, s, n, e);
      RankBelow(len, s);
      if n < len[t] {
        PrefixBeyond(len, t, n, e);
      } else {
        CodePrefix(len, t, n, e);
        RanksDiffer(len, s, t);
      }
      assert false;
    }
  }

  lemma RanksDiffer(len: seq<int>, s: nat, t: nat)
    requires s < |len| && t < |len| && s != t && len[s] == len[t]
    ensures Rank(len, s) != Rank(len, t)
  {
    var i, j := if s < t then s else t, if s < t then t else s;
    CountInPrefix(len[..j], i);
    assert len[..j][..i] == len[..i] && len[..j][i] == len[i];
  }

  // ----- decoding tables

  /** The symbols whose code has n bits, in order. */
  function Symbols(len: seq<int>, n: int): (r: seq<int>)
    ensures |r| == multiset(len)[n]
  {
    if len == [] then []
    else
      assert len == len[..|len| - 1] + [len[|len| - 1]];
      Symbols(len[..|len| - 1], n) + if len[|len| - 1] == n then [|len| - 1] else []
  }

  /** The symbols with codes shorter than c bits, by code length. */
  function ByLength(len: seq<int>, c: nat): (r: seq<int>)
    ensures |r| == CountBelow(len, c)
  {
    if c == 0 then [] else ByLength(len, c - 1) + Symbols(len, c - 1)
  }

  lemma {:induction false} SymbolsRange(len: seq<int>, n: int)
    ensures InRange(Symbols(len, n), |len|)
  {
    if len != [] { SymbolsRange(len[..|len| - 1], n); }
  }

  lemma {:induction false} ByLengthRange(len: seq<int>, c: nat)
    ensures InRange(ByLength(len, c), |len|)
  {
    if c > 0 {
      ByLengthRange(len, c - 1);
      SymbolsRange(len, c - 1);
    }
  }

  lemma {:induction false} SymbolAt(len: seq<int>, s: nat)
    requires s < |len|
    ensures Rank(len, s) < multiset(len)[len[s]] && Symbols(len, len[s])[Rank(len, s)] == s
  {
    CountInPrefix(len, s);
    var last := |len| - 1;
    assert len == len[..last] + [len[last]];
    if s < last {
      SymbolAt(len[..last], s);
      assert len[..last][..s] == len[..s];
    }
  }

  lemma {:induction false} SlotHolds(len: seq<int>, s: nat, c: nat)
    requires s < |len| && 0 <= len[s] < c
    ensures Slot(len, s) < CountBelow(len, c) && ByLength(len, c)[Slot(len, s)] == s
  {
    if len[s] == c - 1 {
      SymbolAt(len, s);
    } else {
      SlotHolds(len, s, c - 1);
    }
  }

  function LimitAt(len: seq<int>, lo: nat, hi: nat, n: nat): int {
    if lo <= n <= hi then Next(len, n) - 1 else 0
  }

  function BaseAt(len: seq<int>, lo: nat, hi: nat, n: nat): int {
    if lo < n <= hi then First(len, n) - CountBelow(len, n) else CountBelow(len, n)
  }

  function Limits(len: seq<int>, lo: nat, hi: nat): seq<int> {
    seq(MAX_CODE_LEN, n requires 0 <= n => LimitAt(len, lo, hi, n))
  }

  function Bases(len: seq<int>, lo: nat, hi: nat): seq<int> {
    seq(MAX_CODE_LEN, n requires 0 <= n => BaseAt(len, lo, hi, n))
  }

  /** The decoder's search passes over every proper prefix of a code ... */
  lemma SearchContinues(len: seq<int>, lo: nat, hi: nat, s: nat, n: nat)
    requires s < |len| && Lengths(len, lo, hi) && hi < MAX_CODE_LEN && Kraft(len, hi) <= Pow2(hi)
    requires lo <= n < len[s]
    ensures Limits(len, lo, hi)[n] < FromBits(CodeBits(len, s)[..n])
  {
    PrefixBeyond(len, s, n, hi);
  }

  /** ... and stops at the code itself, with its symbol. */
  lemma SearchFinds(len: seq<int>, lo: nat, hi: nat, s: nat)
    requires s < |len| && Lengths(len, lo, hi) && hi < MAX_CODE_LEN && Kraft(len, hi) <= Pow2(hi)
    ensures FromBits(CodeBits(len, s)) <= Limits(len, lo, hi)[len[s]]
    ensures FromBits(CodeBits(len, s)) - Bases(len, lo, hi)[len[s]] == Slot(len, s) < |len|
    ensures |ByLength(len, hi + 1)| == |len| && ByLength(len, hi + 1)[Slot(len, s)] == s
  {
    CodeFits(len, s, hi);
    ReadBack(CodeOf(len, s), len[s]);
    RankBelow(len, s);
    FirstZero(len, lo);
    SlotHolds(len, s, hi + 1);
    CountBelowAll(len, hi + 1);
  }

  /** With a complete code the search stops within hi bits, whatever the bits are. */
  lemma SearchStops(len: seq<int>, lo: nat, hi: nat, b: seq<bit>)
    requires Lengths(len, lo, hi) && lo <= hi < MAX_CODE_LEN && Kraft(len, hi) == Pow2(hi) && |b| == hi
    ensures FromBits(b) <= Limits(len, lo, hi)[hi]
  {
    NextFits(len, hi, hi);
    WriteBack(b);
  }

  /** Whatever the lengths, the search never reads an entry of perm that has not been set. */
  lemma SearchInside(len: seq<int>, lo: nat, hi: nat, n: nat, v: nat)
    requires Lengths(len, lo, hi) && lo <= n < MAX_CODE_LEN
    requires v <= Limits(len, lo, hi)[n] && Bases(len, lo, hi)[n] <= v
    requires |len| > 0
    ensures v - Bases(len, lo, hi)[n] < |len|
  {
    FirstZero(len, lo);
    CountBelowAll(len, hi + 1);
    if n <= hi {
      CountBelowMonotone(len, n + 1, hi + 1);
    } else {
      CountBelowMonotone(len, hi + 1, n);
    }
  }

  // ----- building the tables

  ghost predicate Assigned(len: seq<int>, code: seq<int>, n: int, i: int)
    requires |len| <= |code|
  {
    forall s {:trigger code[s]} | 0 <= s < |len| && 0 <= len[s] && (len[s] < n || (len[s] == n && s < i)) ::
      code[s] == CodeOf(len, s)
  }

  method AssignCodes(code: array<int>, length: array<int>, minLen: nat, maxLen: nat, alphaSize: nat)
    requires alphaSize <= length.Length && alphaSize <= code.Length && code != length
    requires Lengths(length[..alphaSize], minLen, maxLen)
    modifies code
    ensures forall s | 0 <= s < alphaSize :: code[s] == CodeOf(length[..alphaSize], s)
  {
    ghost var len := length[..alphaSize];
    FirstZero(len, minLen);
    var vec := 0;
    var n := minLen;
    while n <= maxLen
      invariant minLen <= n
      invariant vec == First(len, n)
      invariant Assigned(len, code[..], n, 0)
    {
      var i := 0;
      while i < alphaSize
        invariant 0 <= i <= alphaSize
        invariant vec == First(len, n) + multiset(len[..i])[n]
        invariant Assigned(len, code[..], n, i)
      {
        assert len[..i + 1] == len[..i] + [len[i]];
        if length[i] == n {
          code[i] := vec;
          vec := vec + 1;
        }
        i := i + 1;
      }
      assert len[..i] == len;
      vec := 2 * vec;
      n := n + 1;
    }
  }

  lemma {:induction false} NextGrowth(len: seq<int>, n: nat)
    ensures Next(len, n) <= CountBelow(len, n + 1) * Pow2(n)
  {
    if n > 0 {
      NextGrowth(len, n - 1);
      var c, p, m := CountBelow(len, n), Pow2(n - 1), multiset(len)[n];
      Growth(Next(len, n - 1), c, p, m);
    }
  }

  lemma Growth(x: nat, c: nat, p: nat, m: nat)
    requires x <= c * p && p >= 1
    ensures 2 * x + m <= (c + m) * (2 * p)
  {
    assert (c + m) * (2 * p) == 2 * (c * p) + m * (2 * p);
    TimesAtLeast(m, 2 * p);
  }

  /** However badly the lengths overfill the code space, the running code stays far below 2^31. */
  lemma VecBounded(len: seq<int>, n: nat)
    requires Lengths(len, 0, 20) && |len| <= MAX_ALPHA_SIZE && n <= 20
    ensures 2 * Next(len, n) <= 0x2050_0000
  {
    NextGrowth(len, n);
    CountBelowAll(len, 21);
    CountBelowMonotone(len, n + 1, 21);
    Pow2Monotone(n, 20);
    Pow2Values();
    ProductBound(CountBelow(len, n + 1), MAX_ALPHA_SIZE, Pow2(n), 0x10_0000);
  }

  lemma TimesAtLeast(a: nat, b: nat)
    requires b >= 1
    ensures a * b >= a
  {
    assert a * b == a + a * (b - 1);
  }

  lemma ProductBound(a: nat, b: nat, c: nat, d: nat)
    requires a <= b && c <= d
    ensures a * c <= b * d
  {
    assert b * d == a * c + a * (d - c) + (b - a) * d;
  }

  // ----- filling the tables

  lemma SymbolsStep(len: seq<int>, j: nat, i: nat, hi: nat)
    requires j < |len| && Lengths(len, 0, hi) && i <= hi
    ensures Symbols(len[..j + 1], i) == Symbols(len[..j], i) + if len[j] == i then [j] else []
    ensures len[j] == i ==> CountBelow(len, i) + |Symbols(len[..j], i)| < |len|
  {
    assert len[..j + 1][..j] == len[..j] && len[..j + 1] == len[..j] + [len[j]];
    if len[j] == i {
      CountInPrefix(len, j);
      CountBelowMonotone(len, i + 1, hi + 1);
      CountBelowAll(len, hi + 1);
    }
  }

  /** Append the symbols with codes of i bits. */
  method AppendSymbols(perm: array<int>, pp0: nat, i: nat, length: array<int>, alphaSize: nat, ghost len: seq<int>,
                       ghost hi: nat) returns (pp: nat)
    requires |len| == alphaSize <= length.Length && length[..|len|] == len && |len| <= perm.Length && perm != length
    requires Lengths(len, 0, hi) && i <= hi && pp0 == CountBelow(len, i) <= |len|
    modifies perm
    ensures pp == CountBelow(len, i + 1) && pp0 <= pp <= |len|
    ensures perm[..pp] == old(perm[..pp0]) + Symbols(len, i)
  {
    pp := pp0;
    var j := 0;
    while j < alphaSize
      invariant 0 <= j <= |len|
      invariant pp == pp0 + |Symbols(len[..j], i)| && pp <= |len|
      invariant perm[..pp] == old(perm[..pp0]) + Symbols(len[..j], i)
    {
      SymbolsStep(len, j, i, hi);
      if length[j] == i {
        ghost var before := perm[..pp];
        perm[pp] := j;
        pp := pp + 1;
        assert perm[..pp] == before + [j];
      }
      j := j + 1;
    }
    assert len[..j] == len;
  }

  lemma NoneShorter(len: seq<int>, c: nat)
    requires CountBelow(len, c) == 0
    ensures ByLength(len, c) == []
  {
  }

  lemma ByLengthNext(len: seq<int>, c: nat)
    ensures ByLength(len, c + 1) == ByLength(len, c) + Symbols(len, c)
  {
  }

  method FillPerm(perm: array<int>, length: array<int>, minLen: nat, maxLen: nat, alphaSize: nat)
    requires 0 < alphaSize <= length.Length && alphaSize <= perm.Length && perm != length
    requires Lengths(length[..alphaSize], minLen, maxLen)
    modifies perm
    ensures perm[..alphaSize] == ByLength(length[..alphaSize], maxLen + 1)
  {
    hide ByLength, First, Symbols;
    ghost var len := length[..alphaSize];
    FirstZero(len, minLen);
    NoneShorter(len, minLen);
    CountBelowAll(len, maxLen + 1);
    assert minLen <= len[0] <= maxLen;
    var pp := 0;
    var i := minLen;
    while i <= maxLen
      invariant minLen <= i <= maxLen + 1
      invariant pp == CountBelow(len, i) <= alphaSize
      invariant perm[..pp] == ByLength(len, i)
    {
      ByLengthNext(len, i);
      CountBelowMonotone(len, i + 1, maxLen + 1);
      pp := AppendSymbols(perm, pp, i, length, alphaSize, len, maxLen);
      i := i + 1;
    }
  }

  /** base[n] = how many codes are shorter than n bits. */
  method CountShorter(base: array<int>, length: array<int>, alphaSize: nat)
    requires alphaSize <= length.Length && base.Length == MAX_CODE_LEN && base != length
    requires Lengths(length[..alphaSize], 0, MAX_CODE_LEN - 2)
    modifies base
    ensures forall n | 0 <= n < MAX_CODE_LEN :: base[n] == CountBelow(length[..alphaSize], n)
  {
    ghost var len := length[..alphaSize];
    var i := 0;
    while i < MAX_CODE_LEN
      invariant 0 <= i <= MAX_CODE_LEN && forall n | 0 <= n < i :: base[n] == 0
    {
      base[i] := 0;
      i := i + 1;
    }
    i := 0;
    while i < alphaSize
      invariant 0 <= i <= alphaSize && base[0] == 0
      invariant forall n {:trigger base[n]} | 1 <= n < MAX_CODE_LEN :: base[n] == multiset(len[..i])[n - 1]
    {
      assert len[..i + 1] == len[..i] + [len[i]];
      base[length[i] + 1] := base[length[i] + 1] + 1;
      i := i + 1;
    }
    assert len[..i] == len;
    i := 1;
    while i < MAX_CODE_LEN
      invariant 1 <= i <= MAX_CODE_LEN
      invariant forall n {:trigger base[n]} | 0 <= n < i :: base[n] == CountBelow(len, n)
      invariant forall n {:trigger base[n]} | i <= n < MAX_CODE_LEN :: base[n] == multiset(len)[n - 1]
    {
      base[i] := base[i] + base[i - 1];
      i := i + 1;
    }
  }

  method FillLimits(limit: array<int>, base: array<int>, minLen: nat, maxLen: nat, ghost len: seq<int>)
    requires limit.Length == MAX_CODE_LEN && base.Length == MAX_CODE_LEN && limit != base
    requires Lengths(len, minLen, maxLen) && maxLen <= 20
    requires forall n | 0 <= n < MAX_CODE_LEN :: base[n] == CountBelow(len, n)
    modifies limit
    ensures limit[..] == Limits(len, minLen, maxLen)
  {
    var i := 0;
    while i < MAX_CODE_LEN
      invariant 0 <= i <= MAX_CODE_LEN && forall n | 0 <= n < i :: limit[n] == 0
    {
      limit[i] := 0;
      i := i + 1;
    }
    FirstZero(len, minLen);
    var vec := 0;
    i := minLen;
    while i <= maxLen
      invariant minLen <= i
      invariant vec == First(len, i)
      invariant forall n {:trigger limit[n]} | 0 <= n < MAX_CODE_LEN ::
        limit[n] == if n < i then LimitAt(len, minLen, maxLen, n) else 0
    {
      vec := vec + (base[i + 1] - base[i]);
      limit[i] := vec - 1;
      vec := 2 * vec;
      i := i + 1;
    }
  }

  method OffsetBases(limit: array<int>, base: array<int>, minLen: nat, maxLen: nat, ghost len: seq<int>)
    requires limit.Length == MAX_CODE_LEN && base.Length == MAX_CODE_LEN && limit != base
    requires Lengths(len, minLen, maxLen) && maxLen <= 20 && limit[..] == Limits(len, minLen, maxLen)
    requires forall n | 0 <= n < MAX_CODE_LEN :: base[n] == CountBelow(len, n)
    modifies base
    ensures base[..] == Bases(len, minLen, maxLen)
  {
    var i := minLen + 1;
    while i <= maxLen
      invariant minLen < i
      invariant forall n {:trigger base[n]} | 0 <= n < MAX_CODE_LEN ::
        base[n] == if n < i then BaseAt(len, minLen, maxLen, n) else CountBelow(len, n)
    {
      assert limit[..][i - 1] == LimitAt(len, minLen, maxLen, i - 1);
      base[i] := 2 * (limit[i - 1] + 1) - base[i];
      i := i + 1;
    }
  }

  method CreateDecodeTables(limit: array<int>, base: array<int>, perm: array<int>, length: array<int>,
                            minLen: nat, maxLen: nat, alphaSize: nat)
    requires 0 < alphaSize <= length.Length && alphaSize <= perm.Length
    requires limit.Length == MAX_CODE_LEN && base.Length == MAX_CODE_LEN
    requires limit != base && limit != perm && limit != length && base != perm && base != length && perm != length
    requires Lengths(length[..alphaSize], minLen, maxLen) && maxLen <= 20
    modifies limit, base, perm
    ensures limit[..] == Limits(length[..alphaSize], minLen, maxLen)
    ensures base[..] == Bases(length[..alphaSize], minLen, maxLen)
    ensures perm[..alphaSize] == ByLength(length[..alphaSize], maxLen + 1)
  {
    FillPerm(perm, length, minLen, maxLen, alphaSize);
    CountShorter(base, length, alphaSize);
    FillLimits(limit, base, minLen, maxLen, length[..alphaSize]);
    OffsetBases(limit, base, minLen, maxLen, length[..alphaSize]);
  }
}
