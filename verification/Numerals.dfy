/** Positional numerals and conversion between bases. */
module Numerals {

  /** Value of a digit string, least significant digit first. */
  function Value(ds: seq<nat>, base: nat): nat {
    if ds == [] then 0 else ds[0] + base * Value(ds[1..], base)
  }

  /** Value of a digit string, most significant digit first. */
  function BeValue(ds: seq<nat>, base: nat): nat {
    if ds == [] then 0 else base * BeValue(ds[..|ds| - 1], base) + ds[|ds| - 1]
  }

  /** The digits of a number, least significant first, without leading zeros. */
  function ToDigits(n: nat, base: nat): seq<nat>
    requires base >= 2
  {
    if n == 0 then []
    else
      QuotientIsSmaller(n, base);
      [n % base] + ToDigits(n / base, base)
  }

  ghost predicate AreDigits(ds: seq<nat>, base: nat) {
    forall i :: 0 <= i < |ds| ==> ds[i] < base
  }

  /** No zero at the most significant end. */
  predicate Canonical(ds: seq<nat>) { ds == [] || ds[|ds| - 1] != 0 }

  function Reverse<T>(s: seq<T>): seq<T> {
    if s == [] then [] else Reverse(s[1..]) + [s[0]]
  }

  function LeadingZeros(ds: seq<nat>): nat {
    if ds == [] || ds[0] != 0 then 0 else 1 + LeadingZeros(ds[1..])
  }

  function Zeros(n: nat): seq<nat> { seq(n, _ => 0) }

  /** `ds * mul + carry` in the same base, digit by digit with a running carry. */
  function MulAdd(ds: seq<nat>, mul: nat, carry: nat, base: nat): seq<nat>
    requires base >= 2
  {
    if ds == [] then ToDigits(carry, base)
    else
      var x := carry + mul * ds[0];
      [x % base] + MulAdd(ds[1..], mul, x / base, base)
  }

  /** Rewrite a big-endian numeral in another base, keeping its leading zeros. */
  function Convert(ds: seq<nat>, from: nat, to: nat): seq<nat>
    requires to >= 2
  {
    Zeros(LeadingZeros(ds)) + Reverse(ToDigits(BeValue(ds, from), to))
  }

  // --- Arithmetic ------------------------------------------------------------------

  lemma QuotientIsSmaller(n: nat, base: nat)
    requires n > 0 && base >= 2
    ensures n / base < n
  {
  }

  lemma Multiples(base: nat, a: nat, b: nat)
    ensures a < b ==> base * a + base <= base * b
  {
    if a < b {
      assert base * (a + 1) <= base * b;
    }
  }

  lemma DivMod(d: nat, q: nat, base: nat)
    requires d < base
    ensures (d + base * q) / base == q && (d + base * q) % base == d
  {
    var n := d + base * q;
    assert n == base * (n / base) + n % base;
    Multiples(base, n / base, q);
    Multiples(base, q, n / base);
  }

  lemma ValueCons(d: nat, ds: seq<nat>, base: nat)
    ensures Value([d] + ds, base) == d + base * Value(ds, base)
  {
    assert ([d] + ds)[1..] == ds;
  }

  lemma NoDigits(base: nat)
    ensures Value([], base) == 0
  {
  }

  lemma DivisionParts(n: nat, base: nat)
    requires base >= 2
    ensures n == base * (n / base) + n % base && n % base < base
    ensures n > 0 && n / base == 0 ==> n % base != 0
  {
  }

  lemma {:induction false} DigitsHaveValue(n: nat, base: nat)
    requires base >= 2
    ensures Value(ToDigits(n, base), base) == n
  {
    hide Value;
    if n > 0 {
      QuotientIsSmaller(n, base);
      DigitsHaveValue(n / base, base);
      ValueCons(n % base, ToDigits(n / base, base), base);
      DivisionParts(n, base);
    } else {
      NoDigits(base);
    }
  }

  lemma {:induction false} DigitsAreCanonical(n: nat, base: nat)
    requires base >= 2
    ensures AreDigits(ToDigits(n, base), base) && Canonical(ToDigits(n, base))
  {
    if n > 0 {
      QuotientIsSmaller(n, base);
      DigitsAreCanonical(n / base, base);
      DivisionParts(n, base);
    }
  }

  lemma {:induction false} ValueHasDigits(ds: seq<nat>, base: nat)
    requires base >= 2 && AreDigits(ds, base) && Canonical(ds)
    ensures ToDigits(Value(ds, base), base) == ds
    ensures ds != [] ==> Value(ds, base) > 0
  {
    if ds != [] {
      var rest := ds[1..];
      ValueHasDigits(rest, base);
      DivMod(ds[0], Value(rest, base), base);
      assert rest != [] ==> base * Value(rest, base) > 0;
      assert ds == [ds[0]] + rest;
    }
  }

  lemma MulAddStep(d: nat, v: nat, mul: nat, carry: nat, base: nat)
    requires base >= 2
    ensures var x := carry + mul * d;
            x % base + base * (x / base + mul * v) == carry + mul * (d + base * v)
  {
    var x := carry + mul * d;
    assert x == base * (x / base) + x % base;
    assert base * (mul * v) == mul * (base * v);
    assert base * (x / base + mul * v) == base * (x / base) + base * (mul * v);
    assert mul * (d + base * v) == mul * d + mul * (base * v);
  }

  /** The carry loop multiplies and adds. */
  lemma {:induction false} MulAddValue(ds: seq<nat>, mul: nat, carry: nat, base: nat)
    requires base >= 2
    ensures Value(MulAdd(ds, mul, carry, base), base) == carry + mul * Value(ds, base)
  {
    hide Value;
    if ds == [] {
      NoDigits(base);
      DigitsHaveValue(carry, base);
      assert mul * 0 == 0;
    } else {
      var d, rest, x := ds[0], ds[1..], carry + mul * ds[0];
      MulAddValue(rest, mul, x / base, base);
      ValueCons(x % base, MulAdd(rest, mul, x / base, base), base);
      ValueCons(d, rest, base);
      assert ds == [d] + rest;
      MulAddStep(d, Value(rest, base), mul, carry, base);
    }
  }

  /** It keeps a numeral canonical. */
  lemma {:induction false} MulAddCanonical(ds: seq<nat>, mul: nat, carry: nat, base: nat)
    requires base >= 2 && mul >= 1 && Canonical(ds)
    ensures var r := MulAdd(ds, mul, carry, base); AreDigits(r, base) && Canonical(r)
  {
    if ds == [] {
      DigitsAreCanonical(carry, base);
    } else {
      var x := carry + mul * ds[0];
      var rest := MulAdd(ds[1..], mul, x / base, base);
      MulAddCanonical(ds[1..], mul, x / base, base);
      DivisionParts(x, base);
      if rest == [] {
        NothingLeft(ds[1..], mul, x / base, base);
        Positive(mul, ds[0]);
      }
    }
  }

  lemma Positive(a: nat, b: nat)
    requires a > 0 && b > 0
    ensures a * b > 0
  {
  }

  lemma NothingLeft(ds: seq<nat>, mul: nat, carry: nat, base: nat)
    requires base >= 2 && MulAdd(ds, mul, carry, base) == []
    ensures ds == [] && carry == 0
  {
  }

  lemma QuotientBound(x: nat, mul: nat, base: nat)
    requires base >= 2 && x < base * mul
    ensures x / base < mul
  {
    DivisionParts(x, base);
    Multiples(base, mul, x / base);
  }

  /** A carry below the multiplier stays below it. */
  lemma {:induction false} CarryBound(d: nat, carry: nat, mul: nat, base: nat)
    requires base >= 2 && d < base && carry < mul
    ensures (carry + mul * d) / base < mul
  {
    Multiples(mul, d, base);
    assert mul * base == base * mul;
    QuotientBound(carry + mul * d, mul, base);
  }

  // --- Reading order -----------------------------------------------------------------

  lemma {:induction false} ReverseSnoc<T>(s: seq<T>, x: T)
    ensures Reverse(s + [x]) == [x] + Reverse(s)
  {
    if s == [] {
      assert [] + [x] == [x];
    } else {
      ReverseSnoc(s[1..], x);
      assert (s + [x])[1..] == s[1..] + [x];
    }
  }

  lemma {:induction false} ReverseTwice<T>(s: seq<T>)
    ensures Reverse(Reverse(s)) == s && |Reverse(s)| == |s|
  {
    if s != [] {
      ReverseTwice(s[1..]);
      ReverseSnoc(Reverse(s[1..]), s[0]);
      assert s == [s[0]] + s[1..];
    }
  }

  lemma {:induction false} ReverseElements<T>(s: seq<T>)
    ensures |Reverse(s)| == |s|
    ensures forall i :: 0 <= i < |s| ==> Reverse(s)[i] == s[|s| - 1 - i]
  {
    if s != [] {
      ReverseElements(s[1..]);
    }
  }

  lemma {:induction false} ReverseValue(ds: seq<nat>, base: nat)
    ensures BeValue(Reverse(ds), base) == Value(ds, base)
  {
    if ds != [] {
      ReverseValue(ds[1..], base);
      assert Reverse(ds)[..|Reverse(ds)| - 1] == Reverse(ds[1..]);
    }
  }

  lemma {:induction false} LeadingZerosSplit(ds: seq<nat>)
    ensures var z := LeadingZeros(ds);
            z <= |ds| && ds == Zeros(z) + ds[z..] && (z < |ds| ==> ds[z] != 0)
  {
    if ds != [] && ds[0] == 0 {
      LeadingZerosSplit(ds[1..]);
      var z := LeadingZeros(ds[1..]);
      assert ds == [0] + ds[1..];
      assert Zeros(1 + z) == [0] + Zeros(z);
      assert ds[1..][z..] == ds[1 + z..];
    }
  }

  lemma {:induction false} CountZeros(z: nat, tail: seq<nat>)
    requires tail == [] || tail[0] != 0
    ensures LeadingZeros(Zeros(z) + tail) == z
  {
    if z > 0 {
      CountZeros(z - 1, tail);
      assert (Zeros(z) + tail)[1..] == Zeros(z - 1) + tail;
    } else {
      assert Zeros(0) + tail == tail;
    }
  }

  lemma {:induction false} ZerosWeighNothing(z: nat, tail: seq<nat>, base: nat)
    ensures BeValue(Zeros(z) + tail, base) == BeValue(tail, base)
  {
    if tail != [] {
      var n := |tail| - 1;
      ZerosWeighNothing(z, tail[..n], base);
      assert (Zeros(z) + tail)[..z + n] == Zeros(z) + tail[..n];
    } else if z > 0 {
      ZerosWeighNothing(z - 1, tail, base);
      assert (Zeros(z) + tail)[..z - 1] == Zeros(z - 1) + tail;
    } else {
      assert Zeros(0) + tail == tail;
    }
  }

  lemma CanonicalReversed(ds: seq<nat>, base: nat)
    requires AreDigits(ds, base)
    ensures AreDigits(Reverse(ds), base)
    ensures Canonical(Reverse(ds)) <==> ds == [] || ds[0] != 0
    ensures Canonical(ds) <==> Reverse(ds) == [] || Reverse(ds)[0] != 0
  {
    ReverseElements(ds);
  }

  lemma ConvertShape(ds: seq<nat>, from: nat, to: nat)
    requires to >= 2
    ensures var c := Convert(ds, from, to);
            && LeadingZeros(c) == LeadingZeros(ds) && BeValue(c, to) == BeValue(ds, from)
            && AreDigits(c, to)
  {
    var z, ls := LeadingZeros(ds), ToDigits(BeValue(ds, from), to);
    DigitsHaveValue(BeValue(ds, from), to);
    DigitsAreCanonical(BeValue(ds, from), to);
    CanonicalReversed(ls, to);
    CountZeros(z, Reverse(ls));
    ZerosWeighNothing(z, Reverse(ls), to);
    ReverseValue(ls, to);
  }

  /** Converting a numeral to another base and back gives the same digits,
      leading zeros included. */
  lemma ConvertRoundTrip(ds: seq<nat>, from: nat, to: nat)
    requires from >= 2 && to >= 2 && AreDigits(ds, from)
    ensures Convert(Convert(ds, from, to), to, from) == ds
    ensures AreDigits(Convert(ds, from, to), to)
  {
    ConvertShape(ds, from, to);
    var z, n := LeadingZeros(ds), BeValue(ds, from);
    LeadingZerosSplit(ds);
    var rest := ds[z..];
    CanonicalReversed(rest, from);
    ZerosWeighNothing(z, rest, from);
    ReverseTwice(rest);
    ReverseValue(Reverse(rest), from);
    ValueHasDigits(Reverse(rest), from);
  }
}
