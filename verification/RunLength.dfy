// The initial run-length coding of the input and its inverse, as functions on byte strings.
module RunLength {
  import opened Permutations

  /** A run as add_pair_to_block receives it. */
  datatype Run = Run(ch: byte, len: nat)

  function Repeat(ch: byte, n: nat): (r: seq<byte>)
    ensures |r| == n && forall k | 0 <= k < n :: r[k] == ch
  {
    seq(n, _ => ch)
  }

  /** What add_pair_to_block stores for a run. */
  function EncodeRun(r: Run): seq<byte>
    requires 1 <= r.len <= 255
  {
    if r.len < 4 then Repeat(r.ch, r.len) else Repeat(r.ch, 4) + [r.len - 4]
  }

  predicate Storable(rs: seq<Run>) {
    forall k | 0 <= k < |rs| :: 1 <= rs[k].len <= 255
  }

  /** Runs as the encoder cuts them: a byte only follows itself after a run of the full 255. */
  predicate Cut(rs: seq<Run>) {
    Storable(rs) && forall k | 1 <= k < |rs| :: rs[k].ch == rs[k - 1].ch ==> rs[k - 1].len == 255
  }

  function Encode(rs: seq<Run>): seq<byte>
    requires Storable(rs)
  {
    if rs == [] then [] else Encode(rs[..|rs| - 1]) + EncodeRun(rs[|rs| - 1])
  }

  /** The input the runs stand for. */
  function Expand(rs: seq<Run>): seq<byte> {
    if rs == [] then [] else Expand(rs[..|rs| - 1]) + Repeat(rs[|rs| - 1].ch, rs[|rs| - 1].len)
  }

  /** How many bytes at the front are equal, counting at most four. */
  function Lead(s: seq<byte>): (k: nat)
    requires s != []
    ensures 1 <= k <= 4 && k <= |s|
    ensures forall i | 0 <= i < k :: s[i] == s[0]
    ensures k < 4 && k < |s| ==> s[k] != s[0]
  {
    if |s| < 2 || s[1] != s[0] then 1
    else if |s| < 3 || s[2] != s[0] then 2
    else if |s| < 4 || s[3] != s[0] then 3
    else 4
  }

  /** Every four equal bytes are followed by their count. */
  predicate Countable(s: seq<byte>)
    decreases |s|
  {
    s == [] || (var k := Lead(s); if k < 4 then Countable(s[k..]) else |s| > 4 && Countable(s[5..]))
  }

  /** The output of the decoder's run-length stage. */
  function Decode(s: seq<byte>): seq<byte>
    requires Countable(s)
    decreases |s|
  {
    if s == [] then []
    else
      var k := Lead(s);
      if k < 4 then Repeat(s[0], k) + Decode(s[k..]) else Repeat(s[0], (s[4] as int) + 4) + Decode(s[5..])
  }

  lemma DecodeShortRun(ch: byte, k: nat, rest: seq<byte>)
    requires 1 <= k < 4 && Countable(rest)
    requires rest != [] ==> rest[0] != ch
    ensures Countable(Repeat(ch, k) + rest)
    ensures Decode(Repeat(ch, k) + rest) == Repeat(ch, k) + Decode(rest)
  {
    var s := Repeat(ch, k) + rest;
    assert Lead(s) == k by {
      assert forall i | 0 <= i < k :: s[i] == ch;
      assert k < |s| ==> s[k] == rest[0];
    }
    assert s[k..] == rest;
  }

  lemma DecodeLongRun(ch: byte, count: byte, rest: seq<byte>)
    requires Countable(rest)
    ensures Countable(Repeat(ch, 4) + [count] + rest)
    ensures Decode(Repeat(ch, 4) + [count] + rest) == Repeat(ch, (count as int) + 4) + Decode(rest)
  {
    var s := Repeat(ch, 4) + [count] + rest;
    assert forall i | 0 <= i < 4 :: s[i] == ch;
    assert s[4] == count && Lead(s) == 4;
    assert s[5..] == rest;
  }

  lemma DecodeFirstRun(r: Run, rest: seq<byte>)
    requires 1 <= r.len <= 255 && Countable(rest)
    requires r.len < 4 && rest != [] ==> rest[0] != r.ch
    ensures Countable(EncodeRun(r) + rest)
    ensures Decode(EncodeRun(r) + rest) == Repeat(r.ch, r.len) + Decode(rest)
  {
    if r.len < 4 {
      DecodeShortRun(r.ch, r.len, rest);
    } else {
      DecodeLongRun(r.ch, r.len - 4, rest);
    }
  }

  lemma EncodeSnoc(rs: seq<Run>, r: Run)
    requires Storable(rs + [r])
    ensures Storable(rs) && 1 <= r.len <= 255
    ensures Encode(rs + [r]) == Encode(rs) + EncodeRun(r)
    ensures Expand(rs + [r]) == Expand(rs) + Repeat(r.ch, r.len)
  {
    var all := rs + [r];
    assert all[..|all| - 1] == rs && all[|all| - 1] == r;
    assert forall k | 0 <= k < |rs| :: rs[k] == all[k];
  }

  lemma {:induction false} EncodeAppend(rs: seq<Run>, more: seq<Run>)
    requires Storable(rs) && Storable(more) && Storable(rs + more)
    ensures Encode(rs + more) == Encode(rs) + Encode(more)
    ensures Expand(rs + more) == Expand(rs) + Expand(more)
  {
    if more == [] {
      assert rs + more == rs;
    } else {
      var front, r := more[..|more| - 1], more[|more| - 1];
      assert more == front + [r];
      Assoc(rs, front, [r]);
      assert forall k | 0 <= k < |rs + front| :: (rs + front)[k] == (rs + more)[k];
      EncodeAppend(rs, front);
      EncodeSnoc(front, r);
      EncodeSnoc(rs + front, r);
      Assoc(Encode(rs), Encode(front), EncodeRun(r));
      Assoc(Expand(rs), Expand(front), Repeat(r.ch, r.len));
    }
  }

  lemma EncodeFirst(rs: seq<Run>)
    requires Storable(rs) && rs != []
    ensures Encode(rs) == EncodeRun(rs[0]) + Encode(rs[1..])
    ensures Expand(rs) == Repeat(rs[0].ch, rs[0].len) + Expand(rs[1..])
  {
    EncodeAppend(rs[..1], rs[1..]);
    assert rs[..1] + rs[1..] == rs;
    EncodeOne(rs[0]);
    assert rs[..1] == [rs[0]];
  }

  lemma EncodeOne(r: Run)
    requires 1 <= r.len <= 255
    ensures Encode([r]) == EncodeRun(r) && Expand([r]) == Repeat(r.ch, r.len)
  {
    assert [r][..0] == [];
  }

  /** Decoding a block returns exactly the bytes its runs stood for. */
  lemma {:induction false} DecodeUndoesEncode(rs: seq<Run>)
    requires Cut(rs)
    ensures Countable(Encode(rs)) && Decode(Encode(rs)) == Expand(rs)
  {
    if rs != [] {
      EncodeFirst(rs);
      DecodeUndoesEncode(rs[1..]);
      if |rs| > 1 {
        EncodeFirst(rs[1..]);
        assert Encode(rs[1..])[0] == EncodeRun(rs[1])[0] == rs[1].ch;
      }
      DecodeFirstRun(rs[0], Encode(rs[1..]));
    }
  }
}
