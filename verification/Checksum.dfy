/** The frame checksum: CRC-8, polynomial x^8 + x^2 + x + 1, initial value 0. */
module Checksum {
  import opened Bytes

  function Xor(a: bv8, b: bv8): bv8 { a ^ b }

  /** One shift of the register: multiplication by x modulo the polynomial. */
  function TimesX(c: bv8): bv8 {
    if c & 0x80 != 0 then (c << 1) ^ 0x07 else c << 1
  }

  function Shift(c: bv8, n: nat): bv8 {
    if n == 0 then c else TimesX(Shift(c, n - 1))
  }

  /** The checksum of a payload, one byte at a time. */
  function Crc(data: seq<bv8>): bv8 {
    if data == [] then 0
    else Shift(Xor(Crc(data[..|data| - 1]), data[|data| - 1]), 8)
  }

  method Crc8(data: seq<bv8>) returns (crc: bv8)
    ensures crc == Crc(data)
  {
    crc := 0;
    for i := 0 to |data|
      invariant crc == Crc(data[..i])
    {
      ghost var before := crc;
      crc := Xor(crc, data[i]);
      for k := 0 to 8
        invariant crc == Shift(Xor(before, data[i]), k)
      {
        crc := if crc & 0x80 != 0 then (crc << 1) ^ 0x07 else crc << 1;
      }
      assert data[..i + 1][..i] == data[..i];
    }
    assert data[..|data|] == data;
  }

  // --- The checksum is the polynomial remainder --------------------------------

  /** Remainder of the polynomial with coefficients `bits` (highest power
      first) modulo x^8 + x^2 + x + 1, by Horner's rule. */
  function Remainder(bits: seq<bool>): bv8 {
    if bits == [] then 0
    else Xor(TimesX(Remainder(bits[..|bits| - 1])), if bits[|bits| - 1] then 1 else 0)
  }

  lemma ShiftLeftXor(a: bv8, b: bv8)
    ensures Xor(a, b) << 1 == Xor(a << 1, b << 1)
  {
  }

  lemma TopBitXor(a: bv8, b: bv8)
    ensures Xor(a, b) & 0x80 != 0 <==> (a & 0x80 != 0) != (b & 0x80 != 0)
  {
  }

  lemma XorMedial(a: bv8, b: bv8, c: bv8, d: bv8)
    ensures Xor(Xor(a, b), Xor(c, d)) == Xor(Xor(a, c), Xor(b, d))
  {
    assert (a ^ b) ^ (c ^ d) == (a ^ c) ^ (b ^ d);
  }

  function Reduction(c: bv8): bv8 { if c & 0x80 != 0 then 0x07 else 0 }

  lemma TimesXParts(c: bv8)
    ensures TimesX(c) == Xor(c << 1, Reduction(c))
  {
  }

  lemma TimesXLinear(a: bv8, b: bv8)
    ensures TimesX(Xor(a, b)) == Xor(TimesX(a), TimesX(b))
  {
    TimesXParts(a);
    TimesXParts(b);
    TimesXParts(Xor(a, b));
    ShiftLeftXor(a, b);
    ReductionLinear(a, b);
    hide *;
    XorMedial(a << 1, b << 1, Reduction(a), Reduction(b));
  }

  lemma ReductionLinear(a: bv8, b: bv8)
    ensures Reduction(Xor(a, b)) == Xor(Reduction(a), Reduction(b))
  {
    TopBitXor(a, b);
  }

  lemma {:induction false} ShiftLinear(a: bv8, b: bv8, n: nat)
    ensures Shift(Xor(a, b), n) == Xor(Shift(a, n), Shift(b, n))
  {
    if n > 0 {
      ShiftLinear(a, b, n - 1);
      TimesXLinear(Shift(a, n - 1), Shift(b, n - 1));
    }
  }

  lemma TimesXZero(a: bv8)
    ensures TimesX(a) == 0 <==> a == 0
  {
  }

  lemma {:induction false} ShiftZero(a: bv8, n: nat)
    ensures Shift(a, n) == 0 <==> a == 0
  {
    if n > 0 {
      ShiftZero(a, n - 1);
      TimesXZero(Shift(a, n - 1));
    }
  }

  /** Equal registers stay equal and different ones stay different. */
  lemma ShiftInjective(a: bv8, b: bv8, n: nat)
    ensures Shift(a, n) == Shift(b, n) <==> a == b
  {
    ShiftLinear(a, b, n);
    ShiftZero(Xor(a, b), n);
    XorZero(a, b);
    XorZero(Shift(a, n), Shift(b, n));
  }

  lemma XorZero(a: bv8, b: bv8)
    ensures Xor(a, b) == 0 <==> a == b
  {
  }

  lemma RemainderSnoc(bits: seq<bool>, b: bool)
    ensures Remainder(bits + [b]) == Xor(TimesX(Remainder(bits)), if b then 1 else 0)
  {
    assert (bits + [b])[..|bits|] == bits;
  }

  lemma XorAssoc(a: bv8, b: bv8, c: bv8)
    ensures Xor(Xor(a, b), c) == Xor(a, Xor(b, c))
  {
  }

  lemma {:induction false} RemainderAppend(bits: seq<bool>, tail: seq<bool>)
    ensures Remainder(bits + tail) == Xor(Shift(Remainder(bits), |tail|), Remainder(tail))
  {
    if tail == [] {
      assert bits + tail == bits;
      XorZeroRight(Remainder(bits));
    } else {
      var init, b := tail[..|tail| - 1], tail[|tail| - 1];
      RemainderAppend(bits, init);
      assert bits + tail == (bits + init) + [b] && tail == init + [b];
      RemainderSnoc(bits + init, b);
      RemainderSnoc(init, b);
      TimesXLinear(Shift(Remainder(bits), |init|), Remainder(init));
      XorAssoc(Shift(Remainder(bits), |tail|), TimesX(Remainder(init)), if b then 1 else 0);
    }
  }

  lemma XorZeroRight(a: bv8)
    ensures Xor(a, 0) == a
  {
  }

  /** The eight bits of a byte are the polynomial the byte itself stands for. */
  lemma RemainderOfByte(b: bv8)
    ensures Remainder(Bits([b])) == b
  {
    var m := Bits([b]);
    RemainderOfNothing(m);
    hide *;
    BitsOfByte(b);
    HighBits(b);
    HornerStep(m, 0, 0, b >> 7);
    HornerStep(m, 1, b >> 7, b >> 6);
    HornerStep(m, 2, b >> 6, b >> 5);
    HornerStep(m, 3, b >> 5, b >> 4);
    HornerStep(m, 4, b >> 4, b >> 3);
    HornerStep(m, 5, b >> 3, b >> 2);
    HornerStep(m, 6, b >> 2, b >> 1);
    HornerStep(m, 7, b >> 1, b);
    assert m[..8] == m;
  }

  lemma RemainderOfNothing(m: seq<bool>)
    ensures Remainder(m[..0]) == 0
  {
  }

  lemma HornerStep(m: seq<bool>, i: nat, before: bv8, after: bv8)
    requires i < |m| && Remainder(m[..i]) == before
    requires after == Xor(TimesX(before), if m[i] then 1 else 0)
    ensures Remainder(m[..i + 1]) == after
  {
    assert m[..i + 1] == m[..i] + [m[i]];
    RemainderSnoc(m[..i], m[i]);
  }

  /** Shifting in the next bit of `b` yields the next longer prefix of `b`. */
  lemma HighBits(b: bv8)
    ensures b >> 7 == Xor(TimesX(0), if b & 0x80 != 0 then 1 else 0)
    ensures b >> 6 == Xor(TimesX(b >> 7), if b & 0x40 != 0 then 1 else 0)
    ensures b >> 5 == Xor(TimesX(b >> 6), if b & 0x20 != 0 then 1 else 0)
    ensures b >> 4 == Xor(TimesX(b >> 5), if b & 0x10 != 0 then 1 else 0)
    ensures b >> 3 == Xor(TimesX(b >> 4), if b & 0x08 != 0 then 1 else 0)
    ensures b >> 2 == Xor(TimesX(b >> 3), if b & 0x04 != 0 then 1 else 0)
    ensures b >> 1 == Xor(TimesX(b >> 2), if b & 0x02 != 0 then 1 else 0)
    ensures b == Xor(TimesX(b >> 1), if b & 0x01 != 0 then 1 else 0)
  {
  }

  lemma EmptyRemainder()
    ensures Shift(Remainder([]), 8) == 0
  {
    ShiftZero(0, 8);
  }

  /** The checksum is the remainder of the payload's polynomial times x^8: the
      definition of a CRC, independent of how the loop computes it. */
  lemma {:induction false} CrcIsRemainder(data: seq<bv8>)
    ensures Crc(data) == Shift(Remainder(Bits(data)), 8)
    ensures Crc(data) == Remainder(Bits(data) + Bits([0]))
  {
    hide Shift, Xor, Remainder, MsbMask;
    if data == [] {
      assert Bits(data) == [];
      EmptyRemainder();
    } else {
      var init, b := data[..|data| - 1], data[|data| - 1];
      CrcIsRemainder(init);
      BitsConcat(init, [b]);
      SplitLast(data);
      hide Bits;
      RemainderAppend(Bits(init), Bits([b]));
      RemainderOfByte(b);
    }
    RemainderAppend(Bits(data), Bits([0]));
    RemainderOfByte(0);
    XorZeroRight(Shift(Remainder(Bits(data)), 8));
  }

  // --- The generator polynomial ---------------------------------------------------

  /** x^8 + x^2 + x + 1, highest power first. */
  const GENERATOR: seq<bool> := [true, false, false, false, false, false, true, true, true]

  /** Sum of two polynomials of the same length, coefficients modulo 2. */
  function Sum(a: seq<bool>, b: seq<bool>): (r: seq<bool>)
    requires |a| == |b|
    ensures |r| == |a|
  {
    seq(|a|, i requires 0 <= i < |a| => a[i] != b[i])
  }

  function NoTerms(n: nat): (r: seq<bool>)
    ensures |r| == n
  {
    seq(n, _ => false)
  }

  /** Product with the generator, one term of `q` after the other: schoolbook
      multiplication without carries. */
  function Product(q: seq<bool>): (r: seq<bool>)
    ensures |r| == |q| + 8
  {
    if q == [] then NoTerms(8)
    else
      var n := |q| - 1;
      Sum(Product(q[..n]) + [false], NoTerms(n) + if q[n] then GENERATOR else NoTerms(9))
  }

  lemma {:induction false} RemainderOfSum(a: seq<bool>, b: seq<bool>)
    requires |a| == |b|
    ensures Remainder(Sum(a, b)) == Xor(Remainder(a), Remainder(b))
  {
    hide TimesX, Xor, Remainder;
    if a == [] {
      NothingRemains();
      assert Sum(a, b) == [] && b == [];
    } else {
      var n := |a| - 1;
      assert Sum(a, b) == Sum(a[..n], b[..n]) + [a[n] != b[n]];
      assert a == a[..n] + [a[n]] && b == b[..n] + [b[n]];
      RemainderOfSum(a[..n], b[..n]);
      RemainderSnoc(Sum(a[..n], b[..n]), a[n] != b[n]);
      RemainderSnoc(a[..n], a[n]);
      RemainderSnoc(b[..n], b[n]);
      var x, y := Remainder(a[..n]), Remainder(b[..n]);
      TimesXLinear(x, y);
      XorMedial(TimesX(x), TimesX(y), if a[n] then 1 else 0, if b[n] then 1 else 0);
      XorOfBits(a[n], b[n]);
    }
  }

  lemma XorOfBits(a: bool, b: bool)
    ensures Xor(if a then 1 else 0, if b then 1 else 0) == if a != b then 1 else 0
  {
  }

  lemma NothingRemains()
    ensures Remainder([]) == 0 && Xor(0, 0) == 0 && TimesX(0) == 0
  {
  }

  lemma {:induction false} NoTermsRemainder(n: nat)
    ensures Remainder(NoTerms(n)) == 0
  {
    hide TimesX, Xor, Remainder;
    NothingRemains();
    if n > 0 {
      NoTermsRemainder(n - 1);
      assert NoTerms(n) == NoTerms(n - 1) + [false];
      RemainderSnoc(NoTerms(n - 1), false);
    } else {
      assert NoTerms(0) == [];
    }
  }

  /** The generator leaves no remainder. */
  lemma GeneratorRemainder()
    ensures Remainder(GENERATOR) == 0
  {
    var g := GENERATOR;
    RemainderOfNothing(g);
    RegisterSteps();
    HornerStep(g, 0, 0, 0x01);
    HornerStep(g, 1, 0x01, 0x02);
    HornerStep(g, 2, 0x02, 0x04);
    HornerStep(g, 3, 0x04, 0x08);
    HornerStep(g, 4, 0x08, 0x10);
    HornerStep(g, 5, 0x10, 0x20);
    HornerStep(g, 6, 0x20, 0x41);
    HornerStep(g, 7, 0x41, 0x83);
    HornerStep(g, 8, 0x83, 0);
    assert g[..9] == g;
  }

  lemma RegisterSteps()
    ensures Xor(TimesX(0), 1) == 0x01 && Xor(TimesX(0x01), 0) == 0x02 && Xor(TimesX(0x02), 0) == 0x04
    ensures Xor(TimesX(0x04), 0) == 0x08 && Xor(TimesX(0x08), 0) == 0x10 && Xor(TimesX(0x10), 0) == 0x20
    ensures Xor(TimesX(0x20), 1) == 0x41 && Xor(TimesX(0x41), 1) == 0x83 && Xor(TimesX(0x83), 1) == 0
  {
  }

  lemma {:induction false} ProductRemainder(q: seq<bool>)
    ensures Remainder(Product(q)) == 0
  {
    hide TimesX, Xor, Remainder;
    NothingRemains();
    if q == [] {
      NoTermsRemainder(8);
    } else {
      var n := |q| - 1;
      ProductRemainder(q[..n]);
      RemainderSnoc(Product(q[..n]), false);
      var term := if q[n] then GENERATOR else NoTerms(9);
      TermRemainder(n, q[n]);
      RemainderOfSum(Product(q[..n]) + [false], NoTerms(n) + term);
    }
  }

  lemma TermRemainder(n: nat, b: bool)
    ensures Remainder(NoTerms(n) + if b then GENERATOR else NoTerms(9)) == 0
  {
    hide TimesX, Xor, Remainder, Shift;
    NothingRemains();
    NoTermsRemainder(n);
    NoTermsRemainder(9);
    GeneratorRemainder();
    RemainderAppend(NoTerms(n), if b then GENERATOR else NoTerms(9));
    ShiftZero(0, 9);
  }

  /** The quotient of `m` times x^8: one term for every bit the register drops. */
  function Quotient(m: seq<bool>): (q: seq<bool>)
    ensures |q| == |m|
  {
    if m == [] then []
    else
      var n := |m| - 1;
      Quotient(m[..n]) + [Dropped(Register(m[..n]), m[n])]
  }

  /** The checksum register after the bits of `m`. */
  function Register(m: seq<bool>): bv8 {
    if m == [] then 0 else Clocked(Register(m[..|m| - 1]), m[|m| - 1])
  }

  function Clocked(r: bv8, b: bool): bv8 { TimesX(Xor(r, if b then 0x80 else 0)) }

  predicate Dropped(r: bv8, b: bool) { (r & 0x80 != 0) != b }

  function Term(t: bool): (r: seq<bool>)
    ensures |r| == 9
  {
    if t then GENERATOR else NoTerms(9)
  }

  predicate Set(b: bv8, mask: bv8) { b & mask != 0 }

  lemma RegisterBits(r: bv8, b: bool)
    ensures |Bits([r])| == 8 && Sum(Bits([r]) + [false], Term(Dropped(r, b))) == [b] + Bits([Clocked(r, b)])
  {
    hide *;
    ClockedBits(r, b);
    SetBits(r);
    SetBits(Clocked(r, b));
    TermSum(Bits([r]), Bits([Clocked(r, b)]), b, Dropped(r, b));
  }

  lemma TermSum(r: seq<bool>, s: seq<bool>, b: bool, t: bool)
    requires |r| == |s| == 8 && t == (r[0] != b)
    requires s[0] == r[1] && s[1] == r[2] && s[2] == r[3] && s[3] == r[4] && s[4] == r[5]
    requires s[5] == (r[6] != t) && s[6] == (r[7] != t) && s[7] == t
    ensures Sum(r + [false], Term(t)) == [b] + s
  {
    hide Term, Sum;
    TermBits(t);
    var x, term := r + [false], Term(t);
    forall i | 0 <= i < 9 ensures Sum(x, term)[i] == ([b] + s)[i] {
      SumAt(x, term, i);
    }
  }

  lemma SumAt(a: seq<bool>, b: seq<bool>, i: nat)
    requires |a| == |b| && i < |a|
    ensures Sum(a, b)[i] == (a[i] != b[i])
  {
  }

  lemma TermBits(t: bool)
    ensures forall i :: 0 <= i < 9 ==> Term(t)[i] == (t && (i == 0 || i >= 6))
  {
  }

  lemma SetBits(b: bv8)
    ensures |Bits([b])| == 8
    ensures Bits([b])[0] == Set(b, 0x80) && Bits([b])[1] == Set(b, 0x40) && Bits([b])[2] == Set(b, 0x20)
    ensures Bits([b])[3] == Set(b, 0x10) && Bits([b])[4] == Set(b, 0x08) && Bits([b])[5] == Set(b, 0x04)
    ensures Bits([b])[6] == Set(b, 0x02) && Bits([b])[7] == Set(b, 0x01)
  {
    hide Bits, MsbMask;
    BitsOfByte(b);
  }

  lemma ClockedBits(r: bv8, b: bool)
    ensures var t, s := Dropped(r, b), Clocked(r, b);
            && t == (Set(r, 0x80) != b) && Set(s, 0x80) == Set(r, 0x40) && Set(s, 0x40) == Set(r, 0x20)
            && Set(s, 0x20) == Set(r, 0x10) && Set(s, 0x10) == Set(r, 0x08) && Set(s, 0x08) == Set(r, 0x04)
            && Set(s, 0x04) == (Set(r, 0x02) != t) && Set(s, 0x02) == (Set(r, 0x01) != t) && Set(s, 0x01) == t
  {
  }

  lemma ProductNext(q: seq<bool>, t: bool)
    ensures Product(q + [t]) == Sum(Product(q) + [false], NoTerms(|q|) + Term(t))
  {
    assert (q + [t])[..|q|] == q;
  }

  lemma SumBehind(a: seq<bool>, x: seq<bool>, term: seq<bool>)
    requires |x| == |term|
    ensures Sum(a + x, NoTerms(|a|) + term) == a + Sum(x, term)
  {
  }

  lemma DivisionNext(m: seq<bool>, b: bool)
    ensures Quotient(m + [b]) == Quotient(m) + [Dropped(Register(m), b)]
    ensures Register(m + [b]) == Clocked(Register(m), b)
  {
    assert (m + [b])[..|m|] == m;
  }

  /** The message followed by the register is a multiple of the generator. */
  lemma {:induction false} Division(m: seq<bool>)
    ensures Product(Quotient(m)) == m + Bits([Register(m)])
  {
    hide TimesX, Xor, Bits, Product, Sum, Term, Dropped, Clocked, Quotient, Register;
    if m == [] {
      NoDivision();
    } else {
      var init, b := m[..|m| - 1], m[|m| - 1];
      var r, t := Register(init), Dropped(Register(init), b);
      Division(init);
      DivisionNext(init, b);
      assert m == init + [b];
      ProductNext(Quotient(init), t);
      RegisterBits(r, b);
      SumBehind(init, Bits([r]) + [false], Term(t));
      assert init + Bits([r]) + [false] == init + (Bits([r]) + [false]);
      assert init + ([b] + Bits([Clocked(r, b)])) == m + Bits([Clocked(r, b)]);
    }
  }

  lemma NoDivision()
    ensures Product(Quotient([])) == [] + Bits([Register([])])
  {
    hide Bits, MsbMask;
    BitsOfByte(0);
    NoBits();
  }

  lemma NoBits()
    ensures 0 as bv8 & 0x80 == 0 && 0 as bv8 & 0x40 == 0 && 0 as bv8 & 0x20 == 0 && 0 as bv8 & 0x10 == 0
    ensures 0 as bv8 & 0x08 == 0 && 0 as bv8 & 0x04 == 0 && 0 as bv8 & 0x02 == 0 && 0 as bv8 & 0x01 == 0
  {
  }

  /** A receiver that runs the checksum over payload and checksum gets 0, and
      only for the right checksum byte. */
  lemma ResidueIsZero(data: seq<bv8>, check: bv8)
    ensures Crc(data + [check]) == 0 <==> check == Crc(data)
  {
    assert (data + [check])[..|data|] == data;
    ShiftZero(Xor(Crc(data), check), 8);
    XorZero(Crc(data), check);
  }

  /** What the checksum is: the one byte that makes the payload, followed by it, a
      multiple of the generator polynomial. */
  lemma {:induction false} CheckedIsMultiple(data: seq<bv8>, check: bv8)
    ensures check == Crc(data) <==> exists q :: Product(q) == Bits(data + [check])
  {
    hide Product, Bits, Crc, Remainder, Shift;
    var m := Bits(data);
    var r := Register(m);
    Division(m);
    BitsConcat(data, [r]);
    MultipleIsChecked(data, r, Quotient(m));
    if q :| Product(q) == Bits(data + [check]) {
      MultipleIsChecked(data, check, q);
    }
  }

  lemma MultipleIsChecked(data: seq<bv8>, check: bv8, q: seq<bool>)
    requires Product(q) == Bits(data + [check])
    ensures check == Crc(data)
  {
    hide Product, Bits, Crc, Remainder, Shift;
    ProductRemainder(q);
    CrcIsRemainder(data + [check]);
    ShiftZero(0, 8);
    ResidueIsZero(data, check);
  }

  // --- Error detection -----------------------------------------------------------

  function XorSeq(a: seq<bv8>, b: seq<bv8>): seq<bv8>
    requires |a| == |b|
  {
    seq(|a|, i requires 0 <= i < |a| => Xor(a[i], b[i]))
  }

  lemma {:induction false} CrcLinear(a: seq<bv8>, b: seq<bv8>)
    requires |a| == |b|
    ensures Crc(XorSeq(a, b)) == Xor(Crc(a), Crc(b))
  {
    if a != [] {
      var n := |a| - 1;
      CrcLinear(a[..n], b[..n]);
      assert XorSeq(a, b)[..n] == XorSeq(a[..n], b[..n]);
      ShiftLinear(Xor(Crc(a[..n]), a[n]), Xor(Crc(b[..n]), b[n]), 8);
      XorMedial(Crc(a[..n]), Crc(b[..n]), a[n], b[n]);
    } else {
      XorZeroRight(0);
    }
  }

  /** Equal tails keep the checksums apart exactly when the heads differ. */
  lemma {:induction false} CrcSameTail(p: seq<bv8>, q: seq<bv8>, tail: seq<bv8>)
    ensures Crc(p + tail) == Crc(q + tail) <==> Crc(p) == Crc(q)
  {
    if tail == [] {
      assert p + tail == p && q + tail == q;
    } else {
      var n := |tail| - 1;
      CrcSameTail(p, q, tail[..n]);
      assert (p + tail)[..|p| + n] == p + tail[..n] && (q + tail)[..|q| + n] == q + tail[..n];
      var a, b := Crc(p + tail[..n]), Crc(q + tail[..n]);
      ShiftInjective(Xor(a, tail[n]), Xor(b, tail[n]), 8);
      XorCancel(a, b, tail[n]);
    }
  }

  lemma XorCancel(a: bv8, b: bv8, c: bv8)
    ensures Xor(a, c) == Xor(b, c) <==> a == b
  {
  }

  lemma XorBit(a: bv8, b: bv8, t: nat)
    requires t < 8
    ensures Xor(a, b) & MsbMask(t) == 0 <==> (a & MsbMask(t) != 0 <==> b & MsbMask(t) != 0)
  {
    MaskTable();
    if t < 4 {
      assert t == 0 || t == 1 || t == 2 || t == 3;
    } else {
      assert t == 4 || t == 5 || t == 6 || t == 7;
    }
  }

  /** No error confined to the low bits of one byte and the high bits of the
      next one cancels in the register, unless it is empty. */
  lemma BurstDoesNotCancel(d0: bv8, d1: bv8, s: nat)
    requires s < 8
    requires forall t :: 0 <= t < s ==> d0 & MsbMask(t) == 0
    requires forall t :: s <= t < 8 ==> d1 & MsbMask(t) == 0
    requires Shift(d0, 8) == d1
    ensures d0 == 0 && d1 == 0
  {
    MaskTable();
    UnrollShift(d0);
    assert s > 0 ==> d0 & MsbMask(0) == 0;
    assert s > 1 ==> d0 & MsbMask(1) == 0;
    assert s > 2 ==> d0 & MsbMask(2) == 0;
    assert s > 3 ==> d0 & MsbMask(3) == 0;
    assert s > 4 ==> d0 & MsbMask(4) == 0;
    assert s > 5 ==> d0 & MsbMask(5) == 0;
    assert s > 6 ==> d0 & MsbMask(6) == 0;
    assert d1 & MsbMask(7) == 0;
    assert s <= 1 ==> d1 & MsbMask(1) == 0;
    assert s <= 2 ==> d1 & MsbMask(2) == 0;
    assert s <= 3 ==> d1 & MsbMask(3) == 0;
    assert s <= 4 ==> d1 & MsbMask(4) == 0;
    assert s <= 5 ==> d1 & MsbMask(5) == 0;
    assert s <= 6 ==> d1 & MsbMask(6) == 0;
    assert s <= 0 ==> d1 & MsbMask(0) == 0;
  }

  lemma UnrollShift(d: bv8)
    ensures Shift(d, 8) == TimesX(TimesX(TimesX(TimesX(TimesX(TimesX(TimesX(TimesX(d))))))))
  {
    hide TimesX;
    assert Shift(d, 1) == TimesX(Shift(d, 0));
    assert Shift(d, 2) == TimesX(Shift(d, 1));
    assert Shift(d, 3) == TimesX(Shift(d, 2));
    assert Shift(d, 4) == TimesX(Shift(d, 3));
    assert Shift(d, 5) == TimesX(Shift(d, 4));
    assert Shift(d, 6) == TimesX(Shift(d, 5));
    assert Shift(d, 7) == TimesX(Shift(d, 6));
  }

  lemma CrcSnoc(p: seq<bv8>, b: bv8)
    ensures Crc(p + [b]) == Shift(Xor(Crc(p), b), 8)
  {
    assert (p + [b])[..|p|] == p;
  }

  /** Two bytes after a common head, with a difference of at most 8 adjacent
      bits that starts `s` bits into the first one. */
  lemma TwoByteBurst(head: seq<bv8>, a0: bv8, a1: bv8, b0: bv8, b1: bv8, s: nat)
    requires s < 8 && (a0 != b0 || a1 != b1)
    requires forall t :: 0 <= t < s ==> (a0 & MsbMask(t) != 0 <==> b0 & MsbMask(t) != 0)
    requires forall t :: s <= t < 8 ==> (a1 & MsbMask(t) != 0 <==> b1 & MsbMask(t) != 0)
    ensures Crc(head + [a0] + [a1]) != Crc(head + [b0] + [b1])
  {
    var c := Crc(head);
    CrcSnoc(head, a0);
    CrcSnoc(head, b0);
    CrcSnoc(head + [a0], a1);
    CrcSnoc(head + [b0], b1);
    var x, y := Shift(Xor(c, a0), 8), Shift(Xor(c, b0), 8);
    ShiftInjective(Xor(x, a1), Xor(y, b1), 8);
    if Xor(x, a1) == Xor(y, b1) {
      var d0, d1 := Xor(a0, b0), Xor(a1, b1);
      XorSwap(x, a1, y, b1);
      ShiftLinear(Xor(c, a0), Xor(c, b0), 8);
      XorMedial(c, a0, c, b0);
      XorDrop(c, d0);
      forall t | 0 <= t < s ensures d0 & MsbMask(t) == 0 { XorBit(a0, b0, t); }
      forall t | s <= t < 8 ensures d1 & MsbMask(t) == 0 { XorBit(a1, b1, t); }
      BurstDoesNotCancel(d0, d1, s);
      XorZero(a0, b0);
      XorZero(a1, b1);
    }
  }

  lemma XorSwap(x: bv8, a: bv8, y: bv8, b: bv8)
    requires Xor(x, a) == Xor(y, b)
    ensures Xor(x, y) == Xor(a, b)
  {
  }

  lemma XorDrop(c: bv8, d: bv8)
    ensures Xor(Xor(c, c), d) == d
  {
  }

  lemma ByteAgrees(p: seq<bv8>, q: seq<bv8>, i: nat)
    requires |p| == |q| && i < |p|
    requires forall j :: 8 * i <= j < 8 * i + 8 ==> Bits(p)[j] == Bits(q)[j]
    ensures p[i] == q[i]
  {
    forall t | 0 <= t < 8 ensures p[i] & MsbMask(t) != 0 <==> q[i] & MsbMask(t) != 0 {
      assert Bits(p)[8 * i + t] == Bits(q)[8 * i + t];
      assert (8 * i + t) / 8 == i && (8 * i + t) % 8 == t;
    }
    ByteFromBits(p[i], q[i]);
  }

  lemma LastByteError(head: seq<bv8>, a: bv8, b: bv8)
    requires a != b
    ensures Crc(head + [a]) != Crc(head + [b])
  {
    CrcSnoc(head, a);
    CrcSnoc(head, b);
    ShiftInjective(Xor(Crc(head), a), Xor(Crc(head), b), 8);
    XorCancelLeft(Crc(head), a, b);
  }

  lemma XorCancelLeft(c: bv8, a: bv8, b: bv8)
    ensures Xor(c, a) == Xor(c, b) <==> a == b
  {
  }

  /** Outside the two bytes a burst touches, the payloads agree. */
  lemma BurstOutside(p: seq<bv8>, q: seq<bv8>, k: nat, m: nat)
    requires |p| == |q| && m < |p| && m != k / 8 && m != k / 8 + 1
    requires forall j :: 0 <= j < 8 * |p| && !(k <= j < k + 8) ==> Bits(p)[j] == Bits(q)[j]
    ensures p[m] == q[m]
  {
    hide *;
    ByteAgrees(p, q, m);
  }

  /** Inside them, the bits before and after the burst agree. */
  lemma BurstInside(p: seq<bv8>, q: seq<bv8>, k: nat, i: nat, t: nat)
    requires |p| == |q| && i < |p| && t < 8 && !(k <= 8 * i + t < k + 8)
    requires forall j :: 0 <= j < 8 * |p| && !(k <= j < k + 8) ==> Bits(p)[j] == Bits(q)[j]
    ensures p[i] & MsbMask(t) != 0 <==> q[i] & MsbMask(t) != 0
  {
    hide *;
    BitOfByte(p, i, t);
    BitOfByte(q, i, t);
  }

  lemma SplitLast(p: seq<bv8>)
    requires p != []
    ensures p == p[..|p| - 1] + [p[|p| - 1]]
  {
  }

  lemma SplitAt(p: seq<bv8>, i: nat)
    requires i + 1 < |p|
    ensures p == p[..i] + [p[i]] + [p[i + 1]] + p[i + 2..]
  {
  }

  /** Payloads that differ only in byte `i`, or in bytes `i` and `i + 1` by a
      short burst. */
  lemma NeighbourBytes(p: seq<bv8>, q: seq<bv8>, i: nat, s: nat)
    requires |p| == |q| && p != q && s < 8
    requires forall m :: 0 <= m < |p| && m != i && m != i + 1 ==> p[m] == q[m]
    requires i + 1 < |p| ==> forall t :: 0 <= t < s ==> (p[i] & MsbMask(t) != 0 <==> q[i] & MsbMask(t) != 0)
    requires i + 1 < |p| ==> forall t :: s <= t < 8 ==> (p[i + 1] & MsbMask(t) != 0 <==> q[i + 1] & MsbMask(t) != 0)
    ensures Crc(p) != Crc(q)
  {
    hide *;
    if i + 1 == |p| {
      SplitLast(p);
      SplitLast(q);
      assert q[..i] == p[..i];
      LastByteError(p[..i], p[i], q[i]);
    } else if i + 1 < |p| {
      var head := p[..i];
      SplitAt(p, i);
      SplitAt(q, i);
      assert q[..i] == head && q[i + 2..] == p[i + 2..];
      TwoByteBurst(head, p[i], p[i + 1], q[i], q[i + 1], s);
      CrcSameTail(head + [p[i]] + [p[i + 1]], head + [q[i]] + [q[i + 1]], p[i + 2..]);
    }
  }

  /** Every corruption confined to 8 adjacent bits of a payload, of any length
      and at any position, changes the checksum. */
  lemma {:induction false} BurstDetected(p: seq<bv8>, q: seq<bv8>, k: nat)
    requires |p| == |q| && p != q
    requires forall j :: 0 <= j < 8 * |p| && !(k <= j < k + 8) ==> Bits(p)[j] == Bits(q)[j]
    ensures Crc(p) != Crc(q)
  {
    hide *;
    var i, s := k / 8, k % 8;
    forall m | 0 <= m < |p| && m != i && m != i + 1 ensures p[m] == q[m] {
      BurstOutside(p, q, k, m);
    }
    if i + 1 < |p| {
      forall t | 0 <= t < s ensures p[i] & MsbMask(t) != 0 <==> q[i] & MsbMask(t) != 0 {
        BurstInside(p, q, k, i, t);
      }
      forall t | s <= t < 8 ensures p[i + 1] & MsbMask(t) != 0 <==> q[i + 1] & MsbMask(t) != 0 {
        BurstInside(p, q, k, i + 1, t);
      }
    }
    NeighbourBytes(p, q, i, s);
  }
}
