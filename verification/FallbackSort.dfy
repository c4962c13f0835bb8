// fallbackSort: radix sort on one byte, then prefix doubling over bucket flags, then rebuild the block.
// fmap and eclass are the nblock entries the sort uses.
module FallbackSort {
  import opened Permutations
  import opened Rotations
  import opened Counting
  import opened Radix
  import opened ThreeWay
  import opened FallbackQSort
  import opened BitTable
  import opened Refinement

  /** Byte frequencies of the block, kept in ftabCopy, and bucket ends in ftab. */
  method CountBytes(block: array<byte>, ftab: array<int>, ftabCopy: array<int>)
    requires ftab.Length == 257 && ftabCopy.Length == 256 && ftab != ftabCopy
    modifies ftab, ftabCopy
    ensures Counts(ftabCopy[..], block[..], block.Length, 256) && Ends(ftab[..], block[..], 256)
  {
    ghost var l: seq<int> := block[..];
    for i := 0 to 257
      invariant forall c | 0 <= c < i :: ftab[c] == 0
    {
      ftab[i] := 0;
    }
    assert Counts(ftab[..], l, 0, 256) by { assert l[..0] == []; }
    for i := 0 to block.Length
      invariant Counts(ftab[..], l, i, 256)
    {
      ghost var cc := ftab[..];
      CountNext(cc, l, i, 256);
      var c := block[i];
      ftab[c] := ftab[c] + 1;
      assert ftab[..] == cc[c := cc[c] + 1];
    }
    for i := 0 to 256
      invariant Counts(ftab[..], l, |l|, 256) && forall c | 0 <= c < i :: ftabCopy[c] == ftab[c]
    {
      ftabCopy[i] := ftab[i];
    }
    RunningCounts(ftab, 256, l);
  }

  /** The first listing: positions bucket by bucket, the last of each byte first. */
  method DropPositions(block: array<byte>, fmap: array<int>, ftab: array<int>)
    requires fmap.Length == block.Length && ftab.Length == 257 && fmap != ftab
    requires Ends(ftab[..], block[..], 256)
    modifies fmap, ftab
    ensures BucketListing(block[..], 256, fmap[..])
    ensures forall c {:trigger ftab[c]} | 0 <= c < 256 :: ftab[c] == CountBelow(block[..], c)
  {
    ghost var l: seq<int> := block[..];
    assert l[..0] == [];
    for i := 0 to block.Length
      invariant Dropped(l, 256, i, fmap[..])
      invariant forall c {:trigger ftab[c]} | 0 <= c < 256 :: ftab[c] == Pointer(l, i, c)
    {
      ghost var t := fmap[..];
      DropStep(l, 256, i, t);
      var j := block[i];
      var k := ftab[j] - 1;
      forall c: nat | c < 256 ensures Pointer(l, i + 1, c) == Pointer(l, i, c) - (if c == j then 1 else 0) {
        PointerMoves(l, 256, i, c);
      }
      ftab[j] := k;
      fmap[k] := i;
      assert fmap[..] == t[k := i];
    }
    DroppedAll(l, 256, fmap[..]);
    forall c: nat | c < 256 ensures ftab[c] == CountBelow(l, c) {
      PointersEnd(l, c);
    }
  }

  /** Flags as the radix step leaves them: set at the starts of the 256 buckets, empty or not. */
  ghost predicate StartsFlagged(l: seq<int>, flags: seq<bool>) {
    |flags| >= |l| && forall i {:trigger flags[i]} | 0 <= i < |l| :: flags[i] <==> IsStart(l, i)
  }

  ghost predicate IsStart(l: seq<int>, i: int) {
    exists c :: 0 <= c < 256 && CountBelow(l, c) == i
  }

  lemma StartIffBoundary(b: seq<byte>, f: seq<int>, i: nat)
    requires b != [] && BucketListing(b, 256, f) && i < |b|
    ensures IsStart(b, i) <==> Boundary(b, f, 1, i)
    ensures Ascends(b, f, 1, i)
  {
    CountBelowAll(b, 256);
    assert CountBelow(b, 0) == 0;
    if i > 0 {
      var d := BucketOf(b, 256, i);
      var e := BucketOf(b, 256, i - 1);
      assert InBucket(b, d, i) && InBucket(b, e, i - 1);
      OneByte(b, f[i]);
      OneByte(b, f[i - 1]);
      if d < e { CountBelowMonotone(b, d + 1, e); }
      if d == e {
        forall c | 0 <= c < 256 ensures CountBelow(b, c) != i {
          if c <= d { CountBelowMonotone(b, c, d); } else { CountBelowMonotone(b, d + 1, c); }
        }
      } else {
        CountBelowMonotone(b, e + 1, d);
        assert CountBelow(b, d) == i;
      }
    }
  }

  lemma OneByte(b: seq<byte>, i: nat)
    requires i < |b|
    ensures Text(b, i, 1) == [b[i]]
  {
    WrapOnce(i, |b|);
  }

  lemma RadixBuckets(b: seq<byte>, f: seq<int>, flags: seq<bool>)
    requires b != [] && BucketListing(b, 256, f) && StartsFlagged(b, flags)
    ensures Bucketed(b, f, flags, 1)
  {
    forall i | 0 <= i < |b| ensures Ascends(b, f, 1, i) && (flags[i] <==> Boundary(b, f, 1, i)) {
      StartIffBoundary(b, f, i);
    }
  }

  /** The flags past the block that stop the scans: set, clear, set, clear, ... */
  ghost predicate Sentinels(flags: seq<bool>, n: nat) {
    n + 64 <= |flags| && flags[n] && !flags[n + 1]
  }

  /** Sets the header flags for the 256 buckets and the sentinels behind the block. */
  method FlagStarts(ftab: array<int>, bhtab: BhTab, ghost l: seq<int>)
    requires bhtab.Valid() && Keys(l, 256) && |l| + 64 <= |bhtab.Flags|
    requires ftab.Length == 257 && forall c {:trigger ftab[c]} | 0 <= c < 256 :: ftab[c] == CountBelow(l, c)
    requires forall i | 0 <= i < |l| :: !bhtab.Flags[i]
    modifies bhtab, bhtab.words
    ensures bhtab.Valid() && |bhtab.Flags| == old(|bhtab.Flags|)
    ensures StartsFlagged(l, bhtab.Flags)
  {
    CountBelowAll(l, 256);
    for i := 0 to 256
      invariant bhtab.Valid() && |bhtab.Flags| == old(|bhtab.Flags|)
      invariant forall k | 0 <= k < |l| :: bhtab.Flags[k] <==> exists c :: 0 <= c < i && ftab[c] == k
    {
      CountBelowMonotone(l, i, 256);
      bhtab.Put(ftab[i], true);
    }
    forall k | 0 <= k < |l| ensures bhtab.Flags[k] <==> IsStart(l, k) {
      if IsStart(l, k) {
        var c :| 0 <= c < 256 && CountBelow(l, c) == k;
        assert ftab[c] == k;
      }
    }
  }

  lemma OffsetsDiffer(x: nat, y: nat, h: nat, n: nat)
    requires x < n && y < n && x != y
    ensures (x - h) % n != (y - h) % n
  {
    if (x - h) % n == (y - h) % n {
      ModCongruent(x - h, h, n);
      ModCongruent(y - h, h, n);
      WrapOnce(x, n);
      WrapOnce(y, n);
    }
  }

  ghost predicate Given(b: seq<byte>, f: seq<int>, flags: seq<bool>, e: seq<int>, h: nat, i: nat)
    requires b != [] && |f| == |b| <= |flags| && IsPermutation(f)
  {
    |e| == |b| && i <= |b| &&
    forall x {:trigger ClassGiven(b, f, flags, e, h, x)} | 0 <= x < i :: ClassGiven(b, f, flags, e, h, x)
  }

  lemma GivenStep(b: seq<byte>, f: seq<int>, flags: seq<bool>, e: seq<int>, h: nat, i: nat)
    requires b != [] && |f| == |b| <= |flags| && IsPermutation(f) && i < |b| && Given(b, f, flags, e, h, i)
    ensures Given(b, f, flags, e[(f[i] - h) % |b| := Head(flags, i)], h, i + 1)
  {
    var e' := e[(f[i] - h) % |b| := Head(flags, i)];
    forall x | 0 <= x < i + 1 ensures ClassGiven(b, f, flags, e', h, x) {
      if x < i {
        OffsetsDiffer(f[x], f[i], h, |b|);
        assert ClassGiven(b, f, flags, e, h, x);
      }
    }
  }

  lemma ClassNatural(b: seq<byte>, f: seq<int>, flags: seq<bool>, e: seq<int>, h: nat, k: nat)
    requires b != [] && |f| == |b| <= |flags| && IsPermutation(f) && Given(b, f, flags, e, h, |b|) && k < |b|
    ensures e[k] >= 0
  {
    var x := IndexOf(f, (k + h) % |b|);
    BackAndForth(k, h, |b|);
    assert ClassGiven(b, f, flags, e, h, x);
  }

  /** Every place x gets the number of the bucket of the row that starts at x + h. */
  method Classify(fmap: array<int>, eclass: array<int>, bhtab: BhTab, h: nat, nblock: nat, ghost b: seq<byte>)
    requires bhtab.Valid() && fmap != eclass && fmap.Length == eclass.Length == nblock == |b| && 1 <= h <= nblock
    requires Bucketed(b, fmap[..], bhtab.Flags, h)
    modifies eclass
    ensures ClassesMean(b, eclass[..], h) && forall k | 0 <= k < nblock :: eclass[k] >= 0
  {
    ghost var f, flags := fmap[..], bhtab.Flags;
    var j := 0;
    for i := 0 to nblock
      invariant fmap[..] == f && bhtab.Valid() && bhtab.Flags == flags && 0 <= j
      invariant j == if i == 0 then 0 else Head(flags, i - 1)
      invariant Given(b, f, flags, eclass[..], h, i)
    {
      if bhtab.IsSet(i) { j := i; }
      var k := fmap[i] - h;
      if k < 0 { k := k + nblock; }
      WrapOnce(f[i] - h, nblock);
      ghost var e := eclass[..];
      GivenStep(b, f, flags, e, h, i);
      eclass[k] := j;
      assert eclass[..] == e[k := j];
    }
    ClassesFromBuckets(b, f, flags, eclass[..], h);
    forall k | 0 <= k < nblock ensures eclass[k] >= 0 {
      ClassNatural(b, f, flags, eclass[..], h, k);
    }
  }

  /** Scans a sorted bucket and sets a header flag wherever the class changes. */
  method ScanHeaders(fmap: array<int>, eclass: array<int>, bhtab: BhTab, l: nat, r: nat)
    requires bhtab.Valid() && fmap != eclass && l <= r < fmap.Length < |bhtab.Flags|
    requires Keyed(fmap[..], eclass[..], 0) && forall k | 0 <= k < eclass.Length :: eclass[k] >= 0
    requires forall i | l < i <= r :: !bhtab.Flags[i]
    modifies bhtab, bhtab.words
    ensures bhtab.Valid() && HeadersSet(fmap[..], eclass[..], old(bhtab.Flags), bhtab.Flags, l, r)
  {
    ghost var f, e, flags := fmap[..], eclass[..], bhtab.Flags;
    var cc := -1;
    for i := l to r + 1
      invariant bhtab.Valid() && |bhtab.Flags| == |flags|
      invariant cc == if i == l then -1 else e[f[i - 1]]
      invariant forall k {:trigger bhtab.Flags[k]} | 0 <= k < |flags| && !(l <= k < i) :: bhtab.Flags[k] == flags[k]
      invariant i > l ==> bhtab.Flags[l]
      invariant forall k {:trigger bhtab.Flags[k]} | l < k < i :: bhtab.Flags[k] <==> e[f[k]] != e[f[k - 1]]
    {
      var cc1 := eclass[fmap[i]];
      assert cc1 == e[f[i]];
      if cc != cc1 {
        bhtab.Put(i, true);
        cc := cc1;
      }
    }
  }

  /** One pass of the depth loop: find each bucket of several rows, sort it by class, mark its new buckets. */
  method RefineBuckets(fmap: array<int>, eclass: array<int>, bhtab: BhTab, h: nat, nblock: nat, ghost b: seq<byte>)
      returns (nNotDone: nat)
    requires bhtab.Valid() && fmap != eclass && fmap.Length == eclass.Length == nblock == |b| <= 900_000
    requires Bucketed(b, fmap[..], bhtab.Flags, h) && Sentinels(bhtab.Flags, nblock)
    requires ClassesMean(b, eclass[..], h) && forall k | 0 <= k < nblock :: eclass[k] >= 0
    modifies fmap, bhtab, bhtab.words
    ensures bhtab.Valid() && |bhtab.Flags| == old(|bhtab.Flags|)
    ensures Bucketed(b, fmap[..], bhtab.Flags, 2 * h) && Sentinels(bhtab.Flags, nblock)
    ensures nNotDone == 0 ==> forall i | 0 <= i < nblock :: bhtab.Flags[i]
  {
    hide HalfDone, Bucketed, ClassesMean, Keyed, ByClass, Within, HeadersSet;
    ghost var e := eclass[..];
    nNotDone := 0;
    var r := -1;
    PassBegins(b, fmap[..], bhtab.Flags, h);
    while true
      invariant bhtab.Valid() && |bhtab.Flags| == old(|bhtab.Flags|) && eclass[..] == e
      invariant -1 <= r < nblock && HalfDone(b, fmap[..], bhtab.Flags, h, r + 1) && Sentinels(bhtab.Flags, nblock)
      invariant nNotDone == 0 ==> forall i | 0 <= i < r + 1 :: bhtab.Flags[i]
      decreases nblock - r
    {
      ghost var f, flags := fmap[..], bhtab.Flags;
      HalfDoneFlag(b, f, flags, h, r + 1);
      var k := bhtab.Skip(r + 1, true, nblock + 1);
      var l := k - 1;
      if l >= nblock {
        SkipSingles(b, f, flags, e, h, r + 1, nblock);
        break;
      }
      k := bhtab.Skip(k, false, nblock);
      SkipSingles(b, f, flags, e, h, r + 1, l);
      r := k - 1;
      if r >= nblock { break; }
      if r > l {
        nNotDone := nNotDone + (r - l + 1);
        RefineOne(fmap, eclass, bhtab, h, l, r, b);
      }
    }
    PassDone(b, fmap[..], bhtab.Flags, h);
  }

  lemma HalfDoneFlag(b: seq<byte>, f: seq<int>, flags: seq<bool>, h: nat, q: nat)
    requires HalfDone(b, f, flags, h, q) && q <= |b|
    ensures q < |b| ==> flags[q]
  {
    if q < |b| { assert Boundary(b, f, h, q); }
  }

  lemma RowsKeyed(b: seq<byte>, f: seq<int>, flags: seq<bool>, e: seq<int>, h: nat, q: nat)
    requires HalfDone(b, f, flags, h, q) && |e| == |b|
    ensures Keyed(f, e, 0) && |f| == |b|
  {
  }

  /** Sort one bucket by class and mark its new buckets. */
  method RefineOne(fmap: array<int>, eclass: array<int>, bhtab: BhTab, h: nat, l: nat, r: nat, ghost b: seq<byte>)
    requires bhtab.Valid() && fmap != eclass && fmap.Length == eclass.Length == |b| <= 900_000 && l < r < |b|
    requires HalfDone(b, fmap[..], bhtab.Flags, h, l) && Sentinels(bhtab.Flags, |b|)
    requires ClassesMean(b, eclass[..], h) && forall k | 0 <= k < |b| :: eclass[k] >= 0
    requires bhtab.Flags[l] && (forall i | l < i <= r :: !bhtab.Flags[i]) && bhtab.Flags[r + 1]
    modifies fmap, bhtab, bhtab.words
    ensures bhtab.Valid() && |bhtab.Flags| == old(|bhtab.Flags|) && Sentinels(bhtab.Flags, |b|)
    ensures HalfDone(b, fmap[..], bhtab.Flags, h, r + 1)
  {
    hide HalfDone, ClassesMean, Keyed, ByClass, Within;
    ghost var f, flags, e := fmap[..], bhtab.Flags, eclass[..];
    RowsKeyed(b, f, flags, e, h, l);
    QSort3(fmap, eclass, l, r);
    ghost var f' := fmap[..];
    assert SortedBucket(b, f, f', flags, e, h, l, r);
    ScanHeaders(fmap, eclass, bhtab, l, r);
    BucketDone(b, f, f', flags, bhtab.Flags, e, h, l, r);
  }

  /** Places 0..i-1 of the sorted listing have been written back. */
  ghost predicate Rebuilt(b: seq<byte>, f: seq<int>, w: seq<byte>, cc: seq<int>, i: nat, j: nat)
    requires |f| == |b| && InRange(f, |b|)
  {
    i <= |b| == |w| && |cc| == 256 && j <= 256 &&
    (forall k {:trigger f[k]} | 0 <= k < i :: w[f[k]] == b[f[k]]) &&
    (forall c {:trigger cc[c]} | 0 <= c < 256 :: cc[c] == multiset(Select(b, f)[i..])[c]) &&
    forall c {:trigger cc[c]} | 0 <= c < j :: cc[c] == 0
  }

  lemma RebuildStep(b: seq<byte>, f: seq<int>, w: seq<byte>, cc: seq<int>, i: nat, j: nat)
    requires |f| == |b| && IsPermutation(f) && i < |b| && Rebuilt(b, f, w, cc, i, j)
    requires forall x, y | 0 <= x < y < |f| :: b[f[x]] <= b[f[y]]
    ensures j <= b[f[i]] && cc[b[f[i]]] > 0
    ensures cc[j] != 0 ==> j == b[f[i]] && Rebuilt(b, f, w[f[i] := j], cc[j := cc[j] - 1], i + 1, j)
    ensures cc[j] == 0 ==> Rebuilt(b, f, w, cc, i, j + 1)
  {
    var s := Select(b, f);
    assert s[i..] == [s[i]] + s[i + 1..];
    assert cc[s[i]] == multiset(s[i..])[s[i]] >= 1;
    if cc[j] != 0 {
      assert (j as int) in multiset(s[i..]);
      assert j in s[i..];
      var k :| i <= k < |s| && s[k] == j;
      assert b[f[i]] <= b[f[k]] == j;
    }
  }

  lemma RebuildStart(b: seq<byte>, f: seq<int>, w: seq<byte>, cc: seq<int>)
    requires |f| == |b| == |w| && |cc| == 256 && IsPermutation(f) && Counts(cc, b, |b|, 256)
    ensures Rebuilt(b, f, w, cc, 0, 0)
  {
    SelectPermutation(b, f);
    assert b[..|b|] == b && Select(b, f)[0..] == Select(b, f);
  }

  lemma RebuildEnd(b: seq<byte>, f: seq<int>, w: seq<byte>, cc: seq<int>, j: nat)
    requires |f| == |b| && IsPermutation(f) && Rebuilt(b, f, w, cc, |b|, j)
    ensures w == b
  {
    Pigeonhole(f, |b|);
    forall x | 0 <= x < |b| ensures w[x] == b[x] {
      var k := IndexOf(f, x);
    }
  }

  /** Writes the sorted bytes back to the places they came from; block itself is not read. */
  method Reconstruct(fmap: array<int>, ftabCopy: array<int>, block: array<byte>, ghost b: seq<byte>)
    requires fmap != ftabCopy && block.Length == fmap.Length == |b| && ftabCopy.Length == 256
    requires IsPermutation(fmap[..]) && Counts(ftabCopy[..], b, |b|, 256)
    requires forall x, y {:trigger fmap[x], fmap[y]} | 0 <= x < y < fmap.Length :: b[fmap[x]] <= b[fmap[y]]
    modifies ftabCopy, block
    ensures block[..] == b
  {
    hide Rebuilt, Counts, Select;
    ghost var f := fmap[..];
    RebuildStart(b, f, block[..], ftabCopy[..]);
    var j := 0;
    for i := 0 to fmap.Length
      invariant fmap[..] == f && Rebuilt(b, f, block[..], ftabCopy[..], i, j)
    {
      RebuildStep(b, f, block[..], ftabCopy[..], i, j);
      while ftabCopy[j] == 0
        invariant j < 256 && Rebuilt(b, f, block[..], ftabCopy[..], i, j)
        decreases 256 - j
      {
        RebuildStep(b, f, block[..], ftabCopy[..], i, j);
        j := j + 1;
        RebuildStep(b, f, block[..], ftabCopy[..], i, j);
      }
      ghost var w, cc := block[..], ftabCopy[..];
      RebuildStep(b, f, w, cc, i, j);
      ftabCopy[j] := ftabCopy[j] - 1;
      block[fmap[i]] := j;
      assert block[..] == w[f[i] := j] && ftabCopy[..] == cc[j := cc[j] - 1];
    }
    RebuildEnd(b, f, block[..], ftabCopy[..], j);
  }

  /** Empties the table and sets the initial headers and the sentinels. */
  method PrepareFlags(ftab: array<int>, bhtab: BhTab, nblock: nat, ghost l: seq<int>)
    requires bhtab.Valid() && |l| == nblock && Keys(l, 256) && bhtab.words.Length >= nblock / 32 + 3
    requires ftab.Length == 257 && forall c {:trigger ftab[c]} | 0 <= c < 256 :: ftab[c] == CountBelow(l, c)
    modifies bhtab, bhtab.words
    ensures bhtab.Valid() && |bhtab.Flags| == old(|bhtab.Flags|)
    ensures StartsFlagged(l, bhtab.Flags) && Sentinels(bhtab.Flags, nblock)
  {
    var nBhtab := 2 + nblock / 32;
    for i := 0 to nBhtab
      invariant bhtab.Valid() && |bhtab.Flags| == old(|bhtab.Flags|)
      invariant forall z | 0 <= z < |bhtab.Flags| && z / 32 < i :: !bhtab.Flags[z]
    {
      bhtab.ClearWord(i);
    }
    FlagStarts(ftab, bhtab, l);
    ghost var flags := bhtab.Flags;
    for i := 0 to 32
      invariant bhtab.Valid() && |bhtab.Flags| == old(|bhtab.Flags|)
      invariant forall z | 0 <= z < nblock :: bhtab.Flags[z] == flags[z]
      invariant i > 0 ==> bhtab.Flags[nblock] && !bhtab.Flags[nblock + 1]
    {
      bhtab.Put(nblock + 2 * i, true);
      bhtab.Put(nblock + 2 * i + 1, false);
    }
  }

  /** The depth loop: from buckets on one byte to the order of whole rotations. */
  method DoubleDepth(fmap: array<int>, eclass: array<int>, bhtab: BhTab, nblock: nat, ghost b: seq<byte>)
    requires bhtab.Valid() && fmap != eclass && fmap.Length == eclass.Length == nblock == |b| <= 900_000
    requires Bucketed(b, fmap[..], bhtab.Flags, 1) && Sentinels(bhtab.Flags, nblock)
    modifies fmap, eclass, bhtab, bhtab.words
    ensures RowOrder(b, fmap[..])
  {
    var h := 1;
    while true
      invariant bhtab.Valid() && 1 <= h <= nblock && Sentinels(bhtab.Flags, nblock)
      invariant Bucketed(b, fmap[..], bhtab.Flags, h)
      decreases nblock - h
    {
      Classify(fmap, eclass, bhtab, h, nblock, b);
      var nNotDone := RefineBuckets(fmap, eclass, bhtab, h, nblock, b);
      h := h * 2;
      if h > nblock || nNotDone == 0 { break; }
    }
    DepthSuffices(b, fmap[..], bhtab.Flags, h);
  }

  /** The rows' first bytes never descend. */
  lemma FirstBytesAscend(b: seq<byte>, f: seq<int>, x: nat, y: nat)
    requires RowOrder(b, f) && x < y < |f|
    ensures b[f[x]] <= b[f[y]]
  {
    TextSplit(b, f[x], 1, |b| - 1);
    TextSplit(b, f[y], 1, |b| - 1);
    LessAppend(Text(b, f[y], 1), Text(b, f[y] + 1, |b| - 1), Text(b, f[x], 1), Text(b, f[x] + 1, |b| - 1));
    OneByte(b, f[x]);
    OneByte(b, f[y]);
  }

  /** fallbackSort: fmap ends as a sorted listing of all rotations, and block is as it was. */
  method Sort(fmap: array<int>, eclass: array<int>, bhtab: BhTab, block: array<byte>)
    requires bhtab.Valid() && fmap != eclass
    requires 0 < block.Length == fmap.Length == eclass.Length <= 900_000
    requires bhtab.words.Length >= block.Length / 32 + 3
    modifies fmap, eclass, block, bhtab, bhtab.words
    ensures RowOrder(old(block[..]), fmap[..]) && block[..] == old(block[..])
  {
    ghost var b := block[..];
    var nblock := block.Length;
    var ftab, ftabCopy := new int[257](_ => 0), new int[256](_ => 0);
    CountBytes(block, ftab, ftabCopy);
    DropPositions(block, fmap, ftab);
    PrepareFlags(ftab, bhtab, nblock, b);
    RadixBuckets(b, fmap[..], bhtab.Flags);
    DoubleDepth(fmap, eclass, bhtab, nblock, b);
    forall x, y | 0 <= x < y < fmap.Length ensures b[fmap[x]] <= b[fmap[y]] {
      FirstBytesAscend(b, fmap[..], x, y);
    }
    Reconstruct(fmap, ftabCopy, block, b);
  }
}
