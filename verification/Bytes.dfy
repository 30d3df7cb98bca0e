/** Options, byte-level integers and bit sequences shared by the codecs. */
module Bytes {

  datatype Option<+T> = None | Some(value: T)

  /** The low and the next byte of a length, as an `as u8` cast keeps them. */
  function Lo(n: nat): bv8 { (n % 256) as bv8 }

  function Hi(n: nat): bv8 { (n / 256 % 256) as bv8 }

  function Le16(n: nat): seq<bv8> { [Lo(n), Hi(n)] }

  function FromLe16(lo: bv8, hi: bv8): nat { lo as nat + 256 * (hi as nat) }

  function Le32(n: nat): seq<bv8> { Le16(n % 65536) + Le16(n / 65536) }

  function FromLe32(a: bv8, b: bv8, c: bv8, d: bv8): nat {
    FromLe16(a, b) + 65536 * FromLe16(c, d)
  }

  // --- Conversions between bytes and numbers ---------------------------------------

  function Weight(b: bv8, mask: bv8): nat { if b & mask != 0 then 1 else 0 }

  function Weights(b: bv8): nat {
    128 * Weight(b, 0x80) + 64 * Weight(b, 0x40) + 32 * Weight(b, 0x20) + 16 * Weight(b, 0x10)
    + 8 * Weight(b, 0x08) + 4 * Weight(b, 0x04) + 2 * Weight(b, 0x02) + Weight(b, 0x01)
  }

  lemma ByteIsItsWeights(b: bv8)
    ensures b as nat == Weights(b)
  {
  }

  ghost predicate HasBitsOf(b: bv8, n: nat) {
    && Weight(b, 0x01) == n % 2 && Weight(b, 0x02) == n / 2 % 2
    && Weight(b, 0x04) == n / 4 % 2 && Weight(b, 0x08) == n / 8 % 2
    && Weight(b, 0x10) == n / 16 % 2 && Weight(b, 0x20) == n / 32 % 2
    && Weight(b, 0x40) == n / 64 % 2 && Weight(b, 0x80) == n / 128 % 2
  }

  lemma CastKeepsBits(n: nat)
    requires n < 256
    ensures HasBitsOf(n as bv8, n)
  {
  }

  lemma Halve(n: nat, k: nat)
    requires k in {1, 2, 4, 8, 16, 32, 64, 128}
    ensures n / k == 2 * (n / (2 * k)) + n / k % 2
  {
    if k == 2 {
      assert n / 2 / 2 == n / 4;
    } else if k == 4 {
      assert n / 4 / 2 == n / 8;
    } else if k == 8 {
      assert n / 8 / 2 == n / 16;
    } else if k == 16 {
      assert n / 16 / 2 == n / 32;
    } else if k == 32 {
      assert n / 32 / 2 == n / 64;
    } else if k == 64 {
      assert n / 64 / 2 == n / 128;
    } else if k == 128 {
      assert n / 128 / 2 == n / 256;
    }
  }

  lemma LowBits(n: nat)
    ensures n == 16 * (n / 16) + 8 * (n / 8 % 2) + 4 * (n / 4 % 2) + 2 * (n / 2 % 2) + n % 2
  {
    Halve(n, 1);
    Halve(n, 2);
    Halve(n, 4);
    Halve(n, 8);
  }

  lemma HighBits(n: nat)
    requires n < 256
    ensures n / 16 == 8 * (n / 128 % 2) + 4 * (n / 64 % 2) + 2 * (n / 32 % 2) + n / 16 % 2
  {
    Halve(n, 16);
    Halve(n, 32);
    Halve(n, 64);
    Halve(n, 128);
  }

  lemma WeightsOfNumber(b: bv8, n: nat)
    requires n < 256 && HasBitsOf(b, n)
    ensures Weights(b) == n
  {
    hide Weight;
    LowBits(n);
    HighBits(n);
  }

  lemma ByteRoundTrip(n: nat)
    requires n < 256
    ensures (n as bv8) as nat == n
  {
    hide *;
    ByteIsItsWeights(n as bv8);
    CastKeepsBits(n);
    WeightsOfNumber(n as bv8, n);
  }

  /** The lower byte comes first. */
  lemma FieldOrder()
    ensures Le16(0x0102) == [0x02, 0x01] && FromLe16(0x02, 0x01) == 0x0102
  {
    hide Lo, Hi;
    LoIs(0x0102, 0x02, 0x02);
    HiIs(0x0102, 0x01, 0x01);
  }

  lemma WideFieldOrder()
    ensures FromLe32(0x04, 0x03, 0x02, 0x01) == 0x0102_0304
  {
  }

  lemma LoHiValue(n: nat)
    ensures Lo(n) as nat == n % 256
    ensures Hi(n) as nat == n / 256 % 256
  {
    ByteRoundTrip(n % 256);
    ByteRoundTrip(n / 256 % 256);
  }

  lemma FromLe16RoundTrip(lo: bv8, hi: bv8)
    ensures Le16(FromLe16(lo, hi)) == [lo, hi]
  {
    hide Lo, Hi, FromLe16;
    ByteBound(lo);
    ByteBound(hi);
    FromLe16Value(lo, hi, lo as nat, hi as nat);
    FromDigits(FromLe16(lo, hi), lo, hi, lo as nat, hi as nat);
  }

  lemma ByteBound(b: bv8)
    ensures b as nat < 256
  {
  }

  lemma FromLe16Value(lo: bv8, hi: bv8, a: nat, b: nat)
    requires a == lo as nat && b == hi as nat
    ensures FromLe16(lo, hi) == a + 256 * b
  {
  }

  lemma FromDigits(n: nat, lo: bv8, hi: bv8, a: nat, b: nat)
    requires a == lo as nat && b == hi as nat && a < 256 && b < 256 && n == a + 256 * b
    ensures Lo(n) == lo && Hi(n) == hi
  {
    hide Lo, Hi;
    TwoDigits(n, a, b);
    LoIs(n, lo, a);
    HiIs(n, hi, b);
  }

  lemma TwoDigits(n: nat, a: nat, b: nat)
    requires a < 256 && b < 256 && n == a + 256 * b
    ensures n % 256 == a && n / 256 % 256 == b
  {
  }

  lemma LoIs(n: nat, b: bv8, v: nat)
    requires n % 256 == v && v == b as nat
    ensures Lo(n) == b
  {
    CastBack(b);
  }

  lemma HiIs(n: nat, b: bv8, v: nat)
    requires n / 256 % 256 == v && v == b as nat
    ensures Hi(n) == b
  {
    CastBack(b);
  }

  lemma CastBack(b: bv8)
    ensures (b as nat) as bv8 == b
  {
  }

  lemma Le16RoundTrip(n: nat)
    ensures FromLe16(Lo(n), Hi(n)) == n % 65536
  {
    LoHiValue(n);
    var lo, hi := Lo(n) as nat, Hi(n) as nat;
    assert lo + 256 * hi == n % 65536;
  }

  lemma Le32RoundTrip(n: nat)
    requires n < 0x1_0000_0000
    ensures FromLe32(Le32(n)[0], Le32(n)[1], Le32(n)[2], Le32(n)[3]) == n
  {
    hide Lo, Hi, FromLe16;
    var low, high := n % 65536, n / 65536;
    Le16RoundTrip(low);
    Le16RoundTrip(high);
    assert Le32(n) == [Lo(low), Hi(low), Lo(high), Hi(high)];
    assert n == low + 65536 * high;
  }

  /** Bit `k` of a byte counted from the most / least significant end. */
  function MsbMask(k: nat): bv8
    requires k < 8
  {
    0x80 >> k
  }

  function LsbMask(k: nat): bv8
    requires k < 8
  {
    1 << k
  }

  /** The bits of a byte string, most significant bit of each byte first. */
  function Bits(s: seq<bv8>): seq<bool> {
    seq(8 * |s|, j requires 0 <= j < 8 * |s| => s[j / 8] & MsbMask(j % 8) != 0)
  }

  /** The bits of a byte string, least significant bit of each byte first. */
  function LsbBits(s: seq<bv8>): seq<bool> {
    seq(8 * |s|, j requires 0 <= j < 8 * |s| => s[j / 8] & LsbMask(j % 8) != 0)
  }

  lemma BitsConcat(a: seq<bv8>, b: seq<bv8>)
    ensures Bits(a + b) == Bits(a) + Bits(b)
  {
    assert forall j :: 0 <= j < 8 * |a| ==> (a + b)[j / 8] == a[j / 8];
    forall j | 8 * |a| <= j < 8 * |a + b|
      ensures Bits(a + b)[j] == (Bits(a) + Bits(b))[j]
    {
      assert (j - 8 * |a|) / 8 == j / 8 - |a| && (j - 8 * |a|) % 8 == j % 8;
    }
  }

  lemma MaskTable()
    ensures MsbMask(0) == 0x80 && MsbMask(1) == 0x40 && MsbMask(2) == 0x20 && MsbMask(3) == 0x10
    ensures MsbMask(4) == 0x08 && MsbMask(5) == 0x04 && MsbMask(6) == 0x02 && MsbMask(7) == 0x01
    ensures LsbMask(0) == 0x01 && LsbMask(1) == 0x02 && LsbMask(2) == 0x04 && LsbMask(3) == 0x08
    ensures LsbMask(4) == 0x10 && LsbMask(5) == 0x20 && LsbMask(6) == 0x40 && LsbMask(7) == 0x80
  {
  }

  lemma BitsOfByte(b: bv8)
    ensures Bits([b]) == [b & 0x80 != 0, b & 0x40 != 0, b & 0x20 != 0, b & 0x10 != 0,
                          b & 0x08 != 0, b & 0x04 != 0, b & 0x02 != 0, b & 0x01 != 0]
  {
    hide *;
    MaskTable();
    forall t | 0 <= t < 8 ensures |Bits([b])| == 8 && Bits([b])[t] == (b & MsbMask(t) != 0) {
      BitOfByte([b], 0, t);
    }
  }

  lemma BitOfByte(p: seq<bv8>, i: nat, t: nat)
    requires i < |p| && t < 8
    ensures |Bits(p)| == 8 * |p| && Bits(p)[8 * i + t] == (p[i] & MsbMask(t) != 0)
  {
    hide MsbMask;
    assert (8 * i + t) / 8 == i && (8 * i + t) % 8 == t;
  }

  /** A byte is determined by its eight bits. */
  lemma ByteFromBits(a: bv8, b: bv8)
    requires forall k :: 0 <= k < 8 ==> (a & MsbMask(k) != 0 <==> b & MsbMask(k) != 0)
    ensures a == b
  {
    MaskTable();
    assert a & MsbMask(0) != 0 <==> b & MsbMask(0) != 0;
    assert a & MsbMask(1) != 0 <==> b & MsbMask(1) != 0;
    assert a & MsbMask(2) != 0 <==> b & MsbMask(2) != 0;
    assert a & MsbMask(3) != 0 <==> b & MsbMask(3) != 0;
    assert a & MsbMask(4) != 0 <==> b & MsbMask(4) != 0;
    assert a & MsbMask(5) != 0 <==> b & MsbMask(5) != 0;
    assert a & MsbMask(6) != 0 <==> b & MsbMask(6) != 0;
    assert a & MsbMask(7) != 0 <==> b & MsbMask(7) != 0;
  }
}
