// The encoder's choice of coding tables: each group of 50 symbols takes the table that codes it best, and each
// table is made again from the symbols that took it.
module TableChoice {
  import opened Bits
  import opened Permutations
  import opened Counting
  import opened HuffmanTree
  import opened CanonicalCode
  import opened HuffmanLengths
  import opened Coroutine
  import opened BlockFormat

  /** The bits that a table of lengths takes for some symbols. */
  function Cost(len: seq<int>, syms: seq<int>): int
    requires InRange(syms, |len|)
  {
    if syms == [] then 0 else Cost(len, syms[..|syms| - 1]) + len[syms[|syms| - 1]]
  }

  lemma CostSnoc(len: seq<int>, syms: seq<int>, k: nat)
    requires InRange(syms, |len|) && k < |syms|
    ensures Cost(len, syms[..k + 1]) == Cost(len, syms[..k]) + len[syms[k]]
  {
    assert syms[..k + 1][..k] == syms[..k];
  }

  lemma {:induction false} CostBounded(len: seq<int>, syms: seq<int>)
    requires InRange(syms, |len|) && Lengths(len, 0, 20)
    ensures 0 <= Cost(len, syms) <= 20 * |syms|
  {
    if syms != [] { CostBounded(len, syms[..|syms| - 1]); }
  }

  /** Tables all of one size, with lengths up to 20. */
  ghost predicate Costed(len: seq<seq<int>>, alphaSize: nat) {
    forall t {:trigger len[t]} | 0 <= t < |len| :: |len[t]| == alphaSize && Lengths(len[t], 0, 20)
  }

  function Costs(len: seq<seq<int>>, alphaSize: nat, syms: seq<int>): (c: seq<int>)
    requires Costed(len, alphaSize) && InRange(syms, alphaSize)
    ensures |c| == |len|
  {
    seq(|len|, t requires 0 <= t < |len| => Cost(len[t], syms))
  }

  /** Two lengths in the halves of a word. */
  function Pack(hi: int, lo: int): int { hi * 0x1_0000 + lo }

  /** Adding packed lengths adds each half: no sum of 50 lengths carries out of its 16 bits. */
  lemma LanesAdd(hi: int, lo: int, h: int, l: int)
    requires 0 <= hi <= 980 && 0 <= lo <= 980 && 0 <= h <= 20 && 0 <= l <= 20
    ensures (Pack(hi, lo) + Pack(h, l)) % 0x1_0000_0000 == Pack(hi + h, lo + l)
    ensures Pack(hi + h, lo + l) % 0x1_0000 == lo + l && Pack(hi + h, lo + l) / 0x1_0000 == hi + h
  {
  }

  lemma LanesRead(hi: int, lo: int)
    requires 0 <= hi < 0x1_0000 && 0 <= lo < 0x1_0000
    ensures Pack(hi, lo) % 0x1_0000 == lo && Pack(hi, lo) / 0x1_0000 == hi
  {
  }

  /** The fast way for a full group and six tables: three sums of packed pairs. */
  method PackedCosts(len: seq<seq<int>>, alphaSize: nat, syms: seq<int>) returns (cost: seq<int>)
    requires Costed(len, alphaSize) && |len| == 6 && |syms| == G_SIZE && InRange(syms, alphaSize)
    ensures cost == Costs(len, alphaSize, syms)
  {
    var cost01, cost23, cost45 := 0, 0, 0;
    var n := 0;
    while n < G_SIZE
      invariant 0 <= n <= G_SIZE
      invariant cost01 == Pack(Cost(len[1], syms[..n]), Cost(len[0], syms[..n]))
      invariant cost23 == Pack(Cost(len[3], syms[..n]), Cost(len[2], syms[..n]))
      invariant cost45 == Pack(Cost(len[5], syms[..n]), Cost(len[4], syms[..n]))
    {
      var icv := syms[n];
      LaneStep(len[1], len[0], syms, n);
      LaneStep(len[3], len[2], syms, n);
      LaneStep(len[5], len[4], syms, n);
      cost01 := (cost01 + Pack(len[1][icv], len[0][icv])) % 0x1_0000_0000;
      cost23 := (cost23 + Pack(len[3][icv], len[2][icv])) % 0x1_0000_0000;
      cost45 := (cost45 + Pack(len[5][icv], len[4][icv])) % 0x1_0000_0000;
      n := n + 1;
    }
    assert syms[..n] == syms;
    LaneEnd(len[1], len[0], syms);
    LaneEnd(len[3], len[2], syms);
    LaneEnd(len[5], len[4], syms);
    cost := [cost01 % 0x1_0000, cost01 / 0x1_0000, cost23 % 0x1_0000, cost23 / 0x1_0000,
             cost45 % 0x1_0000, cost45 / 0x1_0000];
  }

  lemma LaneStep(hi: seq<int>, lo: seq<int>, syms: seq<int>, n: nat)
    requires |hi| == |lo| && InRange(syms, |lo|) && Lengths(hi, 0, 20) && Lengths(lo, 0, 20) && n < |syms| <= G_SIZE
    ensures (Pack(Cost(hi, syms[..n]), Cost(lo, syms[..n])) + Pack(hi[syms[n]], lo[syms[n]])) % 0x1_0000_0000
         == Pack(Cost(hi, syms[..n + 1]), Cost(lo, syms[..n + 1]))
  {
    CostSnoc(hi, syms, n);
    CostSnoc(lo, syms, n);
    CostBounded(hi, syms[..n]);
    CostBounded(lo, syms[..n]);
    LanesAdd(Cost(hi, syms[..n]), Cost(lo, syms[..n]), hi[syms[n]], lo[syms[n]]);
  }

  lemma LaneEnd(hi: seq<int>, lo: seq<int>, syms: seq<int>)
    requires |hi| == |lo| && InRange(syms, |lo|) && Lengths(hi, 0, 20) && Lengths(lo, 0, 20) && |syms| <= G_SIZE
    ensures Pack(Cost(hi, syms), Cost(lo, syms)) % 0x1_0000 == Cost(lo, syms)
    ensures Pack(Cost(hi, syms), Cost(lo, syms)) / 0x1_0000 == Cost(hi, syms)
  {
    CostBounded(hi, syms);
    CostBounded(lo, syms);
    LanesRead(Cost(hi, syms), Cost(lo, syms));
  }

  /** The slow way, for any group and any number of tables; the 16-bit sums do not wrap. */
  method PlainCosts(len: seq<seq<int>>, alphaSize: nat, syms: seq<int>) returns (cost: seq<int>)
    requires Costed(len, alphaSize) && |syms| <= G_SIZE && InRange(syms, alphaSize)
    ensures cost == Costs(len, alphaSize, syms)
  {
    cost := seq(|len|, t => 0);
    var i := 0;
    while i < |syms|
      invariant 0 <= i <= |syms| && |cost| == |len|
      invariant forall t {:trigger cost[t]} | 0 <= t < |len| :: cost[t] == Cost(len[t], syms[..i])
    {
      var icv := syms[i];
      var t := 0;
      while t < |len|
        invariant 0 <= t <= |len| && |cost| == |len|
        invariant forall u {:trigger cost[u]} | 0 <= u < |len| :: cost[u] == Cost(len[u], syms[..if u < t then i + 1 else i])
      {
        CostSnoc(len[t], syms, i);
        CostBounded(len[t], syms[..i + 1]);
        cost := cost[t := (cost[t] + len[t][icv]) % 0x1_0000];
        t := t + 1;
      }
      i := i + 1;
    }
    assert syms[..i] == syms;
  }

  /** The first table of least cost. */
  method Cheapest(cost: seq<int>) returns (bt: nat)
    requires 0 < |cost| && forall t | 0 <= t < |cost| :: cost[t] < 999999999
    ensures bt < |cost| && forall t | 0 <= t < |cost| :: cost[bt] <= cost[t] && (t < bt ==> cost[bt] < cost[t])
  {
    var bc, b := 999999999, -1;
    var t := 0;
    while t < |cost|
      invariant 0 <= t <= |cost|
      invariant (t == 0 && b == -1 && bc == 999999999) || (0 <= b < t && bc == cost[b])
      invariant forall u | 0 <= u < t :: bc <= cost[u] && (u < b ==> bc < cost[u])
    {
      if cost[t] < bc { bc, b := cost[t], t; }
      t := t + 1;
    }
    bt := b;
  }

  // ----- one pass over the block

  /** Of the first n symbols, those whose group chose table t. */
  function CodedBy(syms: seq<int>, selector: seq<int>, t: int, n: nat): (r: seq<int>)
    requires n <= |syms| && n <= G_SIZE * |selector|
    ensures |r| <= n
  {
    if n == 0 then []
    else CodedBy(syms, selector, t, n - 1) + if selector[(n - 1) / G_SIZE] == t then [syms[n - 1]] else []
  }

  lemma NothingCoded(syms: seq<int>)
    ensures forall t {:trigger CodedBy(syms, [], t, 0)} :: CodedBy(syms, [], t, 0) == []
  {
  }

  lemma CodedByStep(syms: seq<int>, selector: seq<int>, t: int, n: nat)
    requires |selector| >= 1 && G_SIZE * (|selector| - 1) <= n < G_SIZE * |selector| && n < |syms|
    ensures CodedBy(syms, selector, t, n + 1)
         == CodedBy(syms, selector, t, n) + if selector[|selector| - 1] == t then [syms[n]] else []
  {
    assert n / G_SIZE == |selector| - 1;
  }

  lemma {:induction false} CodedByExtend(syms: seq<int>, selector: seq<int>, x: int, t: int, n: nat)
    requires n <= |syms| && n <= G_SIZE * |selector|
    ensures CodedBy(syms, selector + [x], t, n) == CodedBy(syms, selector, t, n)
  {
    if n > 0 { CodedByExtend(syms, selector, x, t, n - 1); }
  }

  lemma {:induction false} CodedByRange(syms: seq<int>, selector: seq<int>, t: int, n: nat, a: nat)
    requires n <= |syms| && n <= G_SIZE * |selector| && InRange(syms, a)
    ensures InRange(CodedBy(syms, selector, t, n), a)
  {
    if n > 0 { CodedByRange(syms, selector, t, n - 1, a); }
  }

  /** rfreq counts, for each table, the symbols it has to code. */
  ghost predicate Tallied(rfreq: array2<int>, nGroups: nat, alphaSize: nat, syms: seq<int>, selector: seq<int>, n: nat)
    requires rfreq.Length0 == 6 && rfreq.Length1 == 258 && nGroups <= 6 && alphaSize <= 258
    requires n <= |syms| && n <= G_SIZE * |selector|
    reads rfreq
  {
    forall t, v {:trigger rfreq[t, v]} | 0 <= t < nGroups && 0 <= v < alphaSize ::
      rfreq[t, v] == multiset(CodedBy(syms, selector, t, n))[v]
  }

  /** The symbols of group g. */
  function GroupOf(syms: seq<int>, g: nat): (r: seq<int>)
    requires G_SIZE * g < |syms|
    ensures 0 < |r| <= G_SIZE
  {
    syms[G_SIZE * g..if G_SIZE * g + G_SIZE <= |syms| then G_SIZE * g + G_SIZE else |syms|]
  }

  /** Group g took the first of the tables that code it in the fewest bits. */
  ghost predicate BestFor(len: seq<seq<int>>, alphaSize: nat, syms: seq<int>, g: nat, bt: int)
    requires Costed(len, alphaSize) && InRange(syms, alphaSize) && G_SIZE * g < |syms|
  {
    0 <= bt < |len| && forall t {:trigger len[t]} | 0 <= t < |len| ::
      var c := Costs(len, alphaSize, GroupOf(syms, g)); c[bt] <= c[t] && (t < bt ==> c[bt] < c[t])
  }

  method ChooseFor(len: seq<seq<int>>, alphaSize: nat, syms: seq<int>, gs: nat, ge: nat, ghost g: nat) returns (bt: nat)
    requires Costed(len, alphaSize) && 1 <= |len| <= 6 && InRange(syms, alphaSize)
    requires gs == G_SIZE * g < |syms| && ge == (if gs + G_SIZE - 1 >= |syms| then |syms| - 1 else gs + G_SIZE - 1)
    ensures bt < |len| && BestFor(len, alphaSize, syms, g, bt)
  {
    var group := syms[gs..ge + 1];
    assert group == GroupOf(syms, g);
    var cost;
    if |len| == 6 && G_SIZE == ge - gs + 1 {
      cost := PackedCosts(len, alphaSize, group);
    } else {
      cost := PlainCosts(len, alphaSize, group);
    }
    forall t | 0 <= t < |len| ensures cost[t] < 999999999 {
      CostBounded(len[t], group);
    }
    bt := Cheapest(cost);
  }

  /** Count the symbols gs..ge for table bt. */
  method TallyGroup(rfreq: array2<int>, nGroups: nat, alphaSize: nat, syms: seq<int>, gs: nat, ge: nat, bt: nat,
                    ghost selector: seq<int>)
    requires rfreq.Length0 == 6 && rfreq.Length1 == 258 && nGroups <= 6 && alphaSize <= 258 && InRange(syms, alphaSize)
    requires gs <= ge < |syms| && ge < G_SIZE * |selector| && gs == G_SIZE * (|selector| - 1) && |selector| >= 1
    requires bt < nGroups && selector[|selector| - 1] == bt
    requires Tallied(rfreq, nGroups, alphaSize, syms, selector, gs)
    modifies rfreq
    ensures Tallied(rfreq, nGroups, alphaSize, syms, selector, ge + 1)
  {
    hide CodedBy;
    var i := gs;
    while i <= ge
      invariant gs <= i <= ge + 1 && Tallied(rfreq, nGroups, alphaSize, syms, selector, i)
    {
      forall t | 0 <= t < nGroups
        ensures CodedBy(syms, selector, t, i + 1) == CodedBy(syms, selector, t, i) + if bt == t then [syms[i]] else [] {
        CodedByStep(syms, selector, t, i);
      }
      rfreq[bt, syms[i]] := rfreq[bt, syms[i]] + 1;
      i := i + 1;
    }
  }

  /** One selector for each 50 symbols or part of 50. */
  function GroupCount(n: nat): nat { (n + G_SIZE - 1) / G_SIZE }

  method ChooseAll(len: seq<seq<int>>, alphaSize: nat, syms: seq<int>, rfreq: array2<int>) returns (selector: seq<int>)
    requires Costed(len, alphaSize) && 1 <= |len| <= 6 && alphaSize <= 258 && InRange(syms, alphaSize)
    requires rfreq.Length0 == 6 && rfreq.Length1 == 258
    requires forall t, v {:trigger rfreq[t, v]} | 0 <= t < |len| && 0 <= v < alphaSize :: rfreq[t, v] == 0
    modifies rfreq
    ensures |selector| == GroupCount(|syms|) && InRange(selector, |len|)
    ensures forall g {:trigger selector[g]} | 0 <= g < |selector| :: BestFor(len, alphaSize, syms, g, selector[g])
    ensures Tallied(rfreq, |len|, alphaSize, syms, selector, |syms|)
  {
    hide CodedBy, BestFor;
    selector := [];
    NothingCoded(syms);
    var gs := 0;
    while gs < |syms|
      invariant 0 <= gs <= |syms| && InRange(selector, |len|)
      invariant gs == if G_SIZE * |selector| < |syms| then G_SIZE * |selector| else |syms|
      invariant |selector| == GroupCount(gs)
      invariant forall g {:trigger selector[g]} | 0 <= g < |selector| :: G_SIZE * g < |syms| && BestFor(len, alphaSize, syms, g, selector[g])
      invariant Tallied(rfreq, |len|, alphaSize, syms, selector, gs)
    {
      var ge := gs + G_SIZE - 1;
      if ge >= |syms| { ge := |syms| - 1; }
      var bt := ChooseFor(len, alphaSize, syms, gs, ge, |selector|);
      ghost var before := selector;
      selector := selector + [bt];
      forall t | 0 <= t < |len| ensures CodedBy(syms, selector, t, gs) == CodedBy(syms, before, t, gs) {
        CodedByExtend(syms, before, bt, t, gs);
      }
      TallyGroup(rfreq, |len|, alphaSize, syms, gs, ge, bt, selector);
      gs := ge + 1;
    }
  }

  // ----- the tables made again

  function CountsOf(s: seq<int>, a: nat): seq<int> {
    seq(a, v => multiset(s)[v])
  }

  lemma {:induction false} SumCounts(s: seq<int>, a: nat)
    requires InRange(s, a)
    ensures Sum(CountsOf(s, a)) == |s|
  {
    if s == [] {
      SumZero(CountsOf(s, a));
    } else {
      var n := |s| - 1;
      SumCounts(s[..n], a);
      assert s == s[..n] + [s[n]];
      var c := CountsOf(s[..n], a);
      assert CountsOf(s, a) == c[s[n] := c[s[n]] + 1];
      SumUpdate(c, s[n], c[s[n]] + 1);
    }
  }

  /** Starting weights exceed the frequencies by at most one each. */
  lemma {:induction false} StartWeightsSum(freq: seq<int>)
    requires forall v | 0 <= v < |freq| :: freq[v] >= 0
    ensures Sum(StartWeights(freq)) <= Sum(freq) + |freq|
  {
    if freq != [] {
      var n := |freq| - 1;
      StartWeightsSum(freq[..n]);
      assert StartWeights(freq)[..n + 1] == StartWeights(freq[..n]);
    } else {
      assert StartWeights(freq) == [0];
      assert [0][..0] == [];
    }
  }

  /** A table from the symbols it has to code. */
  method MakeTable(rfreq: array2<int>, t: nat, nGroups: nat, alphaSize: nat, ghost syms: seq<int>, ghost selector: seq<int>)
      returns (len: seq<int>)
    requires rfreq.Length0 == 6 && rfreq.Length1 == 258 && t < nGroups <= 6 && 3 <= alphaSize <= 258
    requires InRange(syms, alphaSize) && |syms| <= 900001 && |syms| <= G_SIZE * |selector|
    requires Tallied(rfreq, nGroups, alphaSize, syms, selector, |syms|)
    ensures TableOk(len, alphaSize)
  {
    hide CodedBy;
    var freq := new int[258];
    var v := 0;
    ghost var coded := CodedBy(syms, selector, t, |syms|);
    while v < alphaSize
      invariant 0 <= v <= alphaSize && forall u | 0 <= u < v :: freq[u] == multiset(coded)[u]
    {
      freq[v] := rfreq[t, v];
      v := v + 1;
    }
    assert freq[..alphaSize] == CountsOf(coded, alphaSize);
    CodedByRange(syms, selector, t, |syms|, alphaSize);
    SumCounts(coded, alphaSize);
    StartWeightsSum(freq[..alphaSize]);
    var row := new int[258];
    MakeCodeLengths(row, freq, alphaSize, 17);
    len := row[..alphaSize];
  }

  method ClearTallies(rfreq: array2<int>, nGroups: nat, alphaSize: nat)
    requires rfreq.Length0 == 6 && rfreq.Length1 == 258 && nGroups <= 6 && alphaSize <= 258
    modifies rfreq
    ensures forall t, v {:trigger rfreq[t, v]} | 0 <= t < nGroups && 0 <= v < alphaSize :: rfreq[t, v] == 0
  {
    var t := 0;
    while t < nGroups
      invariant 0 <= t <= nGroups
      invariant forall s, v {:trigger rfreq[s, v]} | 0 <= s < t && 0 <= v < alphaSize :: rfreq[s, v] == 0
    {
      var v := 0;
      while v < alphaSize
        invariant 0 <= v <= alphaSize
        invariant forall s, u {:trigger rfreq[s, u]} | 0 <= s <= t && 0 <= u < (if s < t then alphaSize else v) :: rfreq[s, u] == 0
      {
        rfreq[t, v] := 0;
        v := v + 1;
      }
      t := t + 1;
    }
  }

  const N_ITERS := 4

  /** Four times over: choose a table for each group, then make the tables again. */
  method RefineTables(start: seq<seq<int>>, alphaSize: nat, syms: seq<int>) returns (len: seq<seq<int>>, selector: seq<int>)
    requires Costed(start, alphaSize) && 2 <= |start| <= 6 && 3 <= alphaSize <= 258
    requires InRange(syms, alphaSize) && 0 < |syms| <= 900001
    ensures |len| == |start| && forall t {:trigger len[t]} | 0 <= t < |len| :: TableOk(len[t], alphaSize)
    ensures |selector| == GroupCount(|syms|) <= 18002 && InRange(selector, |len|)
    ensures Coded(len, alphaSize, selector, syms)
  {
    len := start;
    selector := [];
    var rfreq := new int[6, 258];
    var iter := 0;
    while iter < N_ITERS
      invariant 0 <= iter <= N_ITERS && |len| == |start| && Costed(len, alphaSize)
      invariant iter > 0 ==> forall t {:trigger len[t]} | 0 <= t < |len| :: TableOk(len[t], alphaSize)
      invariant iter > 0 ==> |selector| == GroupCount(|syms|) && InRange(selector, |len|)
    {
      ClearTallies(rfreq, |len|, alphaSize);
      selector := ChooseAll(len, alphaSize, syms, rfreq);
      var made: seq<seq<int>> := [];
      while |made| < |len|
        invariant Tallied(rfreq, |len|, alphaSize, syms, selector, |syms|)
        invariant |made| <= |len| && forall t {:trigger made[t]} | 0 <= t < |made| :: TableOk(made[t], alphaSize)
      {
        var table := MakeTable(rfreq, |made|, |len|, alphaSize, syms, selector);
        made := made + [table];
      }
      len := made;
      iter := iter + 1;
    }
  }

  // ----- the first tables

  const LESSER_ICOST := 0
  const GREATER_ICOST := 15

  /** Each symbol is cheap in at most one of the tables from n on, and only if it is below gs. */
  ghost predicate Dealt(len: seq<seq<int>>, alphaSize: nat, n: nat, gs: nat) {
    n <= |len| &&
    (forall t {:trigger len[t]} | n <= t < |len| ::
      |len[t]| == alphaSize && forall v {:trigger len[t][v]} | 0 <= v < alphaSize ::
        len[t][v] == GREATER_ICOST || (len[t][v] == LESSER_ICOST && v < gs)) &&
    forall t, u, v {:trigger len[t][v], len[u][v]} | n <= t < u < |len| && |len[t]| == |len[u]| == alphaSize && 0 <= v < alphaSize ::
      len[t][v] != LESSER_ICOST || len[u][v] != LESSER_ICOST
  }

  /** The alphabet is dealt out to the tables in stretches of about equal frequency. */
  method InitialTables(mtfFreq: array<int>, nMTF: nat, alphaSize: nat, nGroups: nat, ghost syms: seq<int>)
      returns (len: seq<seq<int>>)
    requires 3 <= alphaSize <= 258 && mtfFreq.Length == 258 && 2 <= nGroups <= 6 && InRange(syms, alphaSize)
    requires nMTF == |syms|
    requires forall v {:trigger mtfFreq[v]} | 0 <= v < alphaSize :: mtfFreq[v] == multiset(syms)[v]
    ensures |len| == nGroups && Costed(len, alphaSize) && Dealt(len, alphaSize, 0, alphaSize)
  {
    var dear := seq(alphaSize, v => GREATER_ICOST);
    len := seq(nGroups, t => dear);
    CountBelowAll(syms, alphaSize);
    var nPart, remF, gs := nGroups, nMTF, 0;
    while nPart > 0
      invariant 0 <= nPart <= nGroups && 0 <= gs <= alphaSize && |len| == nGroups
      invariant remF == |syms| - CountBelow(syms, gs) >= 0
      invariant Dealt(len, alphaSize, nPart, gs)
    {
      var tFreq := remF / nPart;
      var ge, aFreq := gs - 1, 0;
      while aFreq < tFreq && ge < alphaSize - 1
        invariant gs - 1 <= ge <= alphaSize - 1 && aFreq == CountBelow(syms, ge + 1) - CountBelow(syms, gs)
        decreases alphaSize - ge
      {
        ge := ge + 1;
        aFreq := aFreq + mtfFreq[ge];
      }
      if ge > gs && nPart != nGroups && nPart != 1 && (nGroups - nPart) % 2 == 1 {
        aFreq := aFreq - mtfFreq[ge];
        ge := ge - 1;
      }
      var table := seq(alphaSize, v => if gs <= v <= ge then LESSER_ICOST else GREATER_ICOST);
      len := len[nPart - 1 := table];
      nPart := nPart - 1;
      gs := ge + 1;
      remF := remF - aFreq;
      CountBelowMonotone(syms, gs, alphaSize);
    }
    forall t | 0 <= t < |len| ensures |len[t]| == alphaSize && Lengths(len[t], 0, 20) {
    }
  }
}
