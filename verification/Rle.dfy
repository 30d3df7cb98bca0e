/** Run-length coding of a printer row: bit 7 of a byte is the pixel value, the
    low seven bits are the run length. */
module Rle {
  import opened Bytes

  function RunByte(val: bool, n: nat): bv8
    requires 1 <= n <= 127
  {
    if val then 0x80 | (n as bv8) else n as bv8
  }

  function RunVal(b: bv8): bool { b & 0x80 != 0 }

  function RunLen(b: bv8): nat { (b & 0x7F) as nat }

  lemma RunByteRoundTrip(val: bool, n: nat)
    requires 1 <= n <= 127
    ensures RunVal(RunByte(val, n)) == val && RunLen(RunByte(val, n)) == n
  {
    var b := n as bv8;
    ByteRoundTrip(n);
    assert b & 0x80 == 0;
    assert b & 0x7F == b;
    assert (0x80 | b) & 0x80 != 0;
    assert (0x80 | b) & 0x7F == b;
  }

  /** 0x83 is three black pixels, 0x7F the longest run of white ones. */
  lemma RunExamples()
    ensures Expand([0x83]) == [true, true, true]
    ensures |Expand([0x7F])| == 127 && Expand([0x7F])[0] == false
  {
    assert RunVal(0x83) && RunLen(0x83) == 3 && !RunVal(0x7F) && RunLen(0x7F) == 127;
    assert [0x83 as bv8][1..] == [] && [0x7F as bv8][1..] == [];
  }

  lemma RunLenBound(b: bv8)
    ensures RunLen(b) <= 127
  {
    assert b & 0x7F <= 127;
  }

  function Repeat(val: bool, n: nat): seq<bool> { seq(n, _ => val) }

  /** The printer's reading of run bytes: the pixels they stand for. */
  function Expand(runs: seq<bv8>): seq<bool> {
    if runs == [] then [] else Repeat(RunVal(runs[0]), RunLen(runs[0])) + Expand(runs[1..])
  }

  /** One run, split into bytes of at most 127 pixels. */
  function Push(val: bool, n: nat): seq<bv8> {
    if n == 0 then []
    else
      var chunk := if n < 127 then n else 127;
      [RunByte(val, chunk)] + Push(val, n - chunk)
  }

  /** The runs of `px` when a run of `n` pixels of value `val` is already open. */
  function Runs(px: seq<bool>, val: bool, n: nat): seq<bv8>
    decreases |px|
  {
    if px == [] then Push(val, n)
    else if px[0] == val then Runs(px[1..], val, n + 1)
    else Push(val, n) + Runs(px[1..], !val, 1)
  }

  method PushRun(out: seq<bv8>, val: bool, len: nat) returns (r: seq<bv8>)
    ensures r == out + Push(val, len)
  {
    r := out;
    var left := len;
    while left > 0
      invariant r + Push(val, left) == out + Push(val, len)
    {
      var chunk := if left < 127 then left else 127;
      assert Push(val, left) == [RunByte(val, chunk)] + Push(val, left - chunk);
      r := r + [RunByte(val, chunk)];
      left := left - chunk;
    }
  }

  /** Runs of a row, or `None` exactly when no run coding of its pixels is
      shorter than the row itself. */
  method RleEncodeRow(row: seq<bv8>) returns (r: Option<seq<bv8>>)
    ensures r == EncodedRow(row)
    ensures r.Some? ==> Expand(r.value) == Bits(row) && |r.value| < |row|
    ensures r.None? ==> forall runs :: Expand(runs) == Bits(row) ==> |runs| >= |row|
  {
    hide Runs, Push, MsbMask;
    var px := Bits(row);
    var runs: seq<bv8> := [];
    var runVal, runLen := false, 0;
    for x := 0 to 8 * |row|
      invariant runs + Runs(px[x..], runVal, runLen) == Runs(px, false, 0)
    {
      var black := row[x / 8] & MsbMask(x % 8) != 0;
      assert black == px[x];
      RunsNext(px, x, runVal, runLen);
      if black == runVal {
        runLen := runLen + 1;
      } else {
        runs := PushRun(runs, runVal, runLen);
        runVal := black;
        runLen := 1;
      }
    }
    runs := PushRun(runs, runVal, runLen);
    RunsAtEnd(px, runVal, runLen);
    RunsExpand(px, false, 0);
    RunsShortest(px);
    r := if |runs| < |row| then Some(runs) else None;
  }

  /** One step of the encoding loop. */
  lemma RunsNext(px: seq<bool>, x: nat, val: bool, n: nat)
    requires x < |px|
    ensures Runs(px[x..], val, n)
         == if px[x] == val then Runs(px[x + 1..], val, n + 1)
            else Push(val, n) + Runs(px[x + 1..], px[x], 1)
  {
    assert px[x..][1..] == px[x + 1..];
  }

  lemma RunsAtEnd(px: seq<bool>, val: bool, n: nat)
    ensures Runs(px[|px|..], val, n) == Push(val, n)
  {
  }

  function EncodedRow(row: seq<bv8>): Option<seq<bv8>> {
    var runs := Runs(Bits(row), false, 0);
    if |runs| < |row| then Some(runs) else None
  }

  // --- Decoding ------------------------------------------------------------------

  lemma RepeatConcat(val: bool, m: nat, n: nat)
    ensures Repeat(val, m) + Repeat(val, n) == Repeat(val, m + n)
  {
  }

  lemma {:induction false} ExpandConcat(a: seq<bv8>, b: seq<bv8>)
    ensures Expand(a + b) == Expand(a) + Expand(b)
  {
    hide RunVal, RunLen, Repeat;
    if a == [] {
      assert a + b == b;
    } else {
      ExpandConcat(a[1..], b);
      Uncons(a, b);
      var first := Repeat(RunVal(a[0]), RunLen(a[0]));
      assert Expand(a + b) == first + Expand(a[1..] + b);
    }
  }

  lemma Uncons(a: seq<bv8>, b: seq<bv8>)
    requires a != []
    ensures (a + b)[0] == a[0] && (a + b)[1..] == a[1..] + b
  {
  }

  lemma {:induction false} PushExpand(val: bool, n: nat)
    ensures Expand(Push(val, n)) == Repeat(val, n)
  {
    if n > 0 {
      var chunk := if n < 127 then n else 127;
      PushExpand(val, n - chunk);
      RunByteRoundTrip(val, chunk);
      assert Push(val, n)[1..] == Push(val, n - chunk);
      RepeatConcat(val, chunk, n - chunk);
    }
  }

  lemma {:induction false} RunsExpand(px: seq<bool>, val: bool, n: nat)
    ensures Expand(Runs(px, val, n)) == Repeat(val, n) + px
    decreases |px|
  {
    hide Push, RunVal, RunLen, Expand;
    PushExpand(val, n);
    if px != [] {
      assert px == [px[0]] + px[1..];
      if px[0] == val {
        RunsExpand(px[1..], val, n + 1);
        assert Repeat(val, n + 1) == Repeat(val, n) + [val];
      } else {
        RunsExpand(px[1..], !val, 1);
        ExpandConcat(Push(val, n), Runs(px[1..], !val, 1));
        assert Repeat(!val, 1) == [px[0]];
      }
    }
  }

  // --- Shortest coding -------------------------------------------------------------

  /** Lengthening a run by one byte's worth of pixels costs at most one byte. */
  lemma {:induction false} PushGrowth(val: bool, n: nat, k: nat)
    requires k <= 127
    ensures |Push(val, n)| <= |Push(val, n + k)| <= |Push(val, n)| + 1
  {
    if n >= 127 {
      PushGrowth(val, n - 127, k);
    } else if n + k > 127 {
      assert |Push(val, n + k - 127)| == 1;
    }
  }

  lemma {:induction false} RunsGrowth(px: seq<bool>, val: bool, n: nat, k: nat)
    requires k <= 127
    ensures |Runs(px, val, n + k)| <= |Runs(px, val, n)| + 1
    decreases |px|
  {
    PushGrowth(val, n, k);
    if px != [] && px[0] == val {
      RunsGrowth(px[1..], val, n + 1, k);
    }
  }

  lemma {:induction false} RunsAbsorb(px: seq<bool>, val: bool, n: nat, k: nat)
    ensures Runs(Repeat(val, k) + px, val, n) == Runs(px, val, n + k)
    decreases k
  {
    if k == 0 {
      assert Repeat(val, 0) + px == px;
    } else {
      RunsAbsorb(px, val, n + 1, k - 1);
      assert (Repeat(val, k) + px)[1..] == Repeat(val, k - 1) + px;
    }
  }

  lemma RunsFreshStart(px: seq<bool>, val: bool)
    ensures Runs(px, val, 0) == Runs(px, false, 0)
  {
    if px != [] {
      assert Push(val, 0) == [] && Push(!val, 0) == [];
      if px[0] {
        assert Runs(px, false, 0) == Runs(px[1..], true, 1);
        assert Runs(px, true, 0) == Runs(px[1..], true, 1);
      } else {
        assert Runs(px, false, 0) == Runs(px[1..], false, 1);
        assert Runs(px, true, 0) == Runs(px[1..], false, 1);
      }
    }
  }

  /** No sequence of run bytes that expands to the same pixels is shorter. */
  lemma {:induction false} RunsNoLonger(runs: seq<bv8>)
    ensures |Runs(Expand(runs), false, 0)| <= |runs|
  {
    if runs != [] {
      var val, k, rest := RunVal(runs[0]), RunLen(runs[0]), Expand(runs[1..]);
      RunsNoLonger(runs[1..]);
      RunLenBound(runs[0]);
      RunsFreshStart(Repeat(val, k) + rest, val);
      RunsAbsorb(rest, val, 0, k);
      RunsGrowth(rest, val, 0, k);
      RunsFreshStart(rest, val);
    }
  }

  lemma RunsShortest(px: seq<bool>)
    ensures forall runs :: Expand(runs) == px ==> |Runs(px, false, 0)| <= |runs|
  {
    forall runs | Expand(runs) == px ensures |Runs(px, false, 0)| <= |runs| {
      RunsNoLonger(runs);
    }
  }
}
