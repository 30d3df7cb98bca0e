/** Base58 and the Matrix recovery key. */
module Base58 {
  import opened Bytes
  import opened Numerals
  import Text

  /** The Bitcoin alphabet: 1-9, A-Z without I and O, a-z without l. */
  function CharOf(d: nat): char
    requires d < 58
  {
    if d < 9 then (d + '1' as int) as char
    else if d < 17 then (d - 9 + 'A' as int) as char
    else if d < 22 then (d - 17 + 'J' as int) as char
    else if d < 33 then (d - 22 + 'P' as int) as char
    else if d < 44 then (d - 33 + 'a' as int) as char
    else (d - 44 + 'm' as int) as char
  }

  lemma AlphabetSpelled()
    ensures seq(9, i requires 0 <= i < 9 => CharOf(i)) == "123456789"
    ensures seq(8, i requires 0 <= i < 8 => CharOf(9 + i)) == "ABCDEFGH"
    ensures seq(5, i requires 0 <= i < 5 => CharOf(17 + i)) == "JKLMN"
    ensures seq(11, i requires 0 <= i < 11 => CharOf(22 + i)) == "PQRSTUVWXYZ"
    ensures seq(11, i requires 0 <= i < 11 => CharOf(33 + i)) == "abcdefghijk"
    ensures seq(14, i requires 0 <= i < 14 => CharOf(44 + i)) == "mnopqrstuvwxyz"
  {
  }

  /** Position of a character in the alphabet, searching from `i` on. */
  function Position(c: char, i: nat): (r: Option<nat>)
    requires i <= 58
    ensures r.Some? ==> i <= r.value < 58 && CharOf(r.value) == c
    ensures r.None? ==> forall k :: i <= k < 58 ==> CharOf(k) != c
    decreases 58 - i
  {
    if i == 58 then None
    else if CharOf(i) == c then Some(i)
    else Position(c, i + 1)
  }

  predicate IsDigit(c: char) { Position(c, 0).Some? }

  function Digit(c: char): (d: nat)
    requires IsDigit(c)
    ensures d < 58 && CharOf(d) == c
  {
    Position(c, 0).value
  }

  function DigitString(s: string): seq<nat>
    requires forall c :: c in s ==> IsDigit(c)
  {
    seq(|s|, i requires 0 <= i < |s| => Digit(s[i]))
  }

  function CharString(ds: seq<nat>): string
    requires AreDigits(ds, 58)
  {
    seq(|ds|, i requires 0 <= i < |ds| => CharOf(ds[i]))
  }

  /** Decoding reads the string as a base-58 numeral and writes it in base 256. */
  ghost function Decoded(s: string): Option<seq<nat>> {
    if forall c :: c in s ==> IsDigit(c) then Some(Convert(DigitString(s), 58, 256)) else None
  }

  ghost function Encoded(data: seq<nat>): string
    requires AreDigits(data, 256)
  {
    ConvertShape(data, 256, 58);
    CharString(Convert(data, 256, 58))
  }

  /** The inner loop of both conversions: multiply a little-endian numeral in
      place and add; the carry never reaches the multiplier. */
  method MulAddInPlace(ds: seq<nat>, mul: nat, add: nat, base: nat) returns (out: seq<nat>)
    requires base >= 2 && add < mul && AreDigits(ds, base)
    ensures out == MulAdd(ds, mul, add, base)
  {
    hide MulAdd, ToDigits;
    out := ds;
    var carry: nat := add;
    for j := 0 to |out|
      invariant |out| == |ds| && carry < mul && out[j..] == ds[j..]
      invariant out[..j] + MulAdd(ds[j..], mul, carry, base) == MulAdd(ds, mul, add, base)
    {
      assert out[j] == out[j..][0] == ds[j];
      var x := carry + out[j] * mul;
      CarryStep(ds, j, mul, carry, base, x);
      out := out[j := x % base];
      carry := x / base;
    }
    CarryLeft(ds, mul, carry, base);
    while carry > 0
      invariant out + ToDigits(carry, base) == MulAdd(ds, mul, add, base)
    {
      DigitStep(carry, base);
      out := out + [carry % base];
      carry := carry / base;
    }
    NoDigitsLeft(base);
  }

  method Base58Decode(s: string) returns (r: Option<seq<nat>>)
    ensures r == Decoded(s)
  {
    var number: seq<nat> := [];
    NoDigitsLeft(256);
    for i := 0 to |s|
      invariant forall c :: c in s[..i] ==> IsDigit(c)
      invariant number == ToDigits(BeValue(DigitString(s[..i]), 58), 256)
    {
      hide ToDigits, BeValue, MulAdd, IsDigit;
      var pos := Position(s[i], 0);
      if pos.None? {
        NotADigit(s, i);
        return None;
      }
      NextDigit(s, i);
      DigitsAreCanonical(BeValue(DigitString(s[..i]), 58), 256);
      number := MulAddInPlace(number, 58, pos.value, 256);
      AppendDigit(BeValue(DigitString(s[..i]), 58), pos.value, 58, 256);
    }
    assert s[..|s|] == s;
    var zeros := LeadingOnes(s);
    var out := number + zeros;
    ReverseZeros(number, |zeros|);
    r := Some(Reverse(out));
  }

  /** One zero byte for every leading '1'. */
  method LeadingOnes(s: string) returns (zeros: seq<nat>)
    requires forall c :: c in s ==> IsDigit(c)
    ensures zeros == Zeros(LeadingZeros(DigitString(s)))
  {
    hide IsDigit, Digit;
    var i := 0;
    zeros := [];
    ghost var ds := DigitString(s);
    while i < |s| && s[i] == '1'
      invariant i <= |s| && zeros == Zeros(i)
      invariant LeadingZeros(ds) == i + LeadingZeros(ds[i..])
    {
      assert s[i] in s;
      OneIsZero(s[i]);
      assert ds[i..][1..] == ds[i + 1..];
      zeros := zeros + [0];
      i := i + 1;
    }
    if i < |s| {
      assert s[i] in s;
      OneIsZero(s[i]);
    }
  }

  method Base58Encode(data: seq<nat>) returns (r: string)
    requires AreDigits(data, 256)
    ensures r == Encoded(data)
  {
    var digits: seq<nat> := [];
    NoDigitsLeft(58);
    for i := 0 to |data|
      invariant digits == ToDigits(BeValue(data[..i], 256), 58)
    {
      hide ToDigits, MulAdd, BeValue;
      DigitsAreCanonical(BeValue(data[..i], 256), 58);
      digits := MulAddInPlace(digits, 256, data[i], 58);
      BeValueStep(data, i);
      AppendDigit(BeValue(data[..i], 256), data[i], 256, 58);
    }
    assert data[..|data|] == data;
    var ones := LeadingZeroOnes(data);
    DigitsAreCanonical(BeValue(data, 256), 58);
    var tail := Spell(digits);
    EncodedParts(data);
    r := ones + tail;
  }

  lemma EncodedParts(data: seq<nat>)
    requires AreDigits(data, 256) && AreDigits(Reverse(ToDigits(BeValue(data, 256), 58)), 58)
    ensures Encoded(data) == seq(LeadingZeros(data), _ => '1')
                             + CharString(Reverse(ToDigits(BeValue(data, 256), 58)))
  {
    hide ToDigits, BeValue, LeadingZeros, Reverse, AreDigits;
    ConvertShape(data, 256, 58);
    assert CharOf(0) == '1';
    hide CharOf;
  }

  /** One '1' for every leading zero byte. */
  method LeadingZeroOnes(data: seq<nat>) returns (ones: string)
    ensures ones == seq(LeadingZeros(data), _ => '1')
  {
    var i := 0;
    ones := "";
    while i < |data| && data[i] == 0
      invariant i <= |data| && ones == seq(i, _ => '1')
      invariant LeadingZeros(data) == i + LeadingZeros(data[i..])
    {
      assert data[i..][1..] == data[i + 1..];
      ones := ones + ['1'];
      i := i + 1;
    }
  }

  /** The digits from the most significant end down, as characters. */
  method Spell(digits: seq<nat>) returns (r: string)
    requires AreDigits(digits, 58)
    ensures AreDigits(Reverse(digits), 58) && r == CharString(Reverse(digits))
  {
    hide CharOf;
    ReverseElements(digits);
    CanonicalReversed(digits, 58);
    ghost var rev := Reverse(digits);
    var top := |digits|;
    r := "";
    while top > 0
      invariant 0 <= top <= |digits| && |r| == |digits| - top
      invariant forall k :: 0 <= k < |r| ==> r[k] == CharOf(rev[k])
    {
      top := top - 1;
      assert rev[|r|] == digits[top];
      r := r + [CharOf(digits[top])];
    }
  }

  // --- The loops -----------------------------------------------------------------

  lemma CarryStep(ds: seq<nat>, j: nat, mul: nat, carry: nat, base: nat, x: nat)
    requires base >= 2 && j < |ds| && ds[j] < base && carry < mul && x == carry + ds[j] * mul
    ensures MulAdd(ds[j..], mul, carry, base) == [x % base] + MulAdd(ds[j + 1..], mul, x / base, base)
    ensures x / base < mul
  {
    assert ds[j..][0] == ds[j] && ds[j..][1..] == ds[j + 1..];
    assert mul * ds[j] == ds[j] * mul;
    CarryBound(ds[j], carry, mul, base);
  }

  lemma CarryLeft(ds: seq<nat>, mul: nat, carry: nat, base: nat)
    requires base >= 2
    ensures MulAdd(ds[|ds|..], mul, carry, base) == ToDigits(carry, base)
  {
  }

  lemma DigitStep(n: nat, base: nat)
    requires base >= 2 && n > 0
    ensures n / base < n && ToDigits(n, base) == [n % base] + ToDigits(n / base, base)
  {
    QuotientIsSmaller(n, base);
  }

  lemma NoDigitsLeft(base: nat)
    requires base >= 2
    ensures ToDigits(0, base) == [] && BeValue([], base) == 0
  {
  }

  lemma BeValueStep(data: seq<nat>, i: nat)
    requires i < |data|
    ensures BeValue(data[..i + 1], 256) == 256 * BeValue(data[..i], 256) + data[i]
  {
    assert data[..i + 1][..i] == data[..i];
  }

  lemma NotADigit(s: string, i: nat)
    requires i < |s| && Position(s[i], 0).None?
    ensures Decoded(s) == None
  {
    assert s[i] in s && !IsDigit(s[i]);
  }

  /** One more digit on the right multiplies the numeral by its base. */
  lemma AppendDigit(n: nat, d: nat, mul: nat, base: nat)
    requires base >= 2 && mul >= 1
    ensures MulAdd(ToDigits(n, base), mul, d, base) == ToDigits(mul * n + d, base)
  {
    DigitsHaveValue(n, base);
    DigitsAreCanonical(n, base);
    MulAddValue(ToDigits(n, base), mul, d, base);
    MulAddCanonical(ToDigits(n, base), mul, d, base);
    ValueHasDigits(MulAdd(ToDigits(n, base), mul, d, base), base);
  }

  lemma NextDigit(s: string, i: nat)
    requires i < |s| && IsDigit(s[i]) && forall c :: c in s[..i] ==> IsDigit(c)
    ensures forall c :: c in s[..i + 1] ==> IsDigit(c)
    ensures BeValue(DigitString(s[..i + 1]), 58) == 58 * BeValue(DigitString(s[..i]), 58) + Digit(s[i])
  {
    assert s[..i + 1] == s[..i] + [s[i]];
    assert DigitString(s[..i + 1])[..i] == DigitString(s[..i]);
  }

  lemma {:induction false} ReverseZeros(ds: seq<nat>, z: nat)
    ensures Reverse(ds + Zeros(z)) == Zeros(z) + Reverse(ds)
  {
    if z == 0 {
      assert ds + Zeros(0) == ds && Zeros(0) + Reverse(ds) == Reverse(ds);
    } else {
      ReverseZeros(ds, z - 1);
      ReverseSnoc(ds + Zeros(z - 1), 0);
      assert ds + Zeros(z) == ds + Zeros(z - 1) + [0];
      assert Zeros(z) == [0] + Zeros(z - 1);
    }
  }

  // --- The alphabet ----------------------------------------------------------------

  lemma AlphabetAscending(i: nat, j: nat)
    requires i < j < 58
    ensures CharOf(i) < CharOf(j)
  {
  }

  lemma DigitOfChar(d: nat)
    requires d < 58
    ensures IsDigit(CharOf(d)) && Digit(CharOf(d)) == d
  {
    var p := Position(CharOf(d), 0);
    if p.Some? && p.value < d {
      AlphabetAscending(p.value, d);
    } else if p.Some? && p.value > d {
      AlphabetAscending(d, p.value);
    }
  }

  lemma OneIsZero(c: char)
    requires IsDigit(c)
    ensures c == '1' <==> Digit(c) == 0
  {
    DigitOfChar(0);
    assert CharOf(0) == '1';
  }

  lemma CharsOfDigits(ds: seq<nat>)
    requires AreDigits(ds, 58)
    ensures (forall c :: c in CharString(ds) ==> IsDigit(c)) && DigitString(CharString(ds)) == ds
  {
    hide CharOf, IsDigit;
    forall d | d in ds ensures IsDigit(CharOf(d)) && Digit(CharOf(d)) == d {
      DigitOfChar(d);
    }
  }

  lemma DigitsOfChars(s: string)
    requires forall c :: c in s ==> IsDigit(c)
    ensures AreDigits(DigitString(s), 58) && CharString(DigitString(s)) == s
  {
    hide CharOf, Position, IsDigit;
    forall i | 0 <= i < |s| ensures DigitString(s)[i] < 58 && CharOf(DigitString(s)[i]) == s[i] {
      assert s[i] in s;
    }
  }

  // --- Round trips -----------------------------------------------------------------

  /** Decoding inverts encoding for every byte string. */
  lemma DecodeEncode(data: seq<nat>)
    requires AreDigits(data, 256)
    ensures Decoded(Encoded(data)) == Some(data)
  {
    ConvertRoundTrip(data, 256, 58);
    CharsOfDigits(Convert(data, 256, 58));
  }

  /** And every string that decodes is the encoding of what it decodes to. */
  lemma EncodeDecode(s: string, data: seq<nat>)
    requires Decoded(s) == Some(data)
    ensures AreDigits(data, 256) && Encoded(data) == s
  {
    DigitsOfChars(s);
    ConvertRoundTrip(DigitString(s), 58, 256);
  }

  /** What decoding means: the bytes have the value of the digits, highest first,
      and as many leading zeros; there are no others. */
  lemma {:induction false} DecodedExactly(s: string, data: seq<nat>)
    ensures Decoded(s) == Some(data)
       <==> (forall c :: c in s ==> IsDigit(c)) && AreDigits(data, 256)
            && BeValue(data, 256) == BeValue(DigitString(s), 58)
            && LeadingZeros(data) == LeadingZeros(DigitString(s))
  {
    hide IsDigit, BeValue, LeadingZeros, ToDigits, Reverse;
    if forall c :: c in s ==> IsDigit(c) {
      var ds := DigitString(s);
      var decoded := Convert(ds, 58, 256);
      ConvertShape(ds, 58, 256);
      if AreDigits(data, 256) && BeValue(data, 256) == BeValue(ds, 58) && LeadingZeros(data) == LeadingZeros(ds) {
        SameNumeral(data, decoded);
        ConvertRoundTrip(data, 256, 58);
        ConvertRoundTrip(decoded, 256, 58);
      }
    }
  }

  lemma SameNumeral(a: seq<nat>, b: seq<nat>)
    requires BeValue(a, 256) == BeValue(b, 256) && LeadingZeros(a) == LeadingZeros(b)
    ensures Convert(a, 256, 58) == Convert(b, 256, 58)
  {
  }

  /** Digits and bytes are read with the highest first: "5R" is 4 * 58 + 24. */
  lemma DecodedExample()
    ensures Decoded("5R") == Some([1, 0])
  {
    assert CharOf(4) == '5' && CharOf(24) == 'R';
    DigitOfChar(4);
    DigitOfChar(24);
    assert DigitString("5R") == [4, 24];
    TwoDigitValues();
    hide BeValue, LeadingZeros, CharOf;
    DecodedExactly("5R", [1, 0]);
  }

  lemma TwoDigitValues()
    ensures BeValue([4, 24], 58) == 256 && BeValue([1, 0], 256) == 256
    ensures LeadingZeros([4, 24]) == 0 && LeadingZeros([1, 0]) == 0
  {
    assert [4, 24][..1] == [4] && [1, 0][..1] == [1] && [4][..0] == [] && [1][..0] == [];
    assert BeValue([4], 58) == 4 && BeValue([1], 256) == 1;
  }

  // --- Recovery keys -----------------------------------------------------------------

  function XorByte(a: nat, b: nat): nat
    requires a < 256 && b < 256
  {
    ((a as bv8) ^ (b as bv8)) as nat
  }

  function Parity(bytes: seq<nat>): (p: nat)
    requires AreDigits(bytes, 256)
    ensures p < 256
  {
    if bytes == [] then 0 else XorByte(Parity(bytes[..|bytes| - 1]), bytes[|bytes| - 1])
  }

  /** How many of the bytes have bit `k` set. */
  function BitCount(bytes: seq<nat>, k: nat): nat
    requires AreDigits(bytes, 256) && k < 8
  {
    if bytes == [] then 0
    else BitCount(bytes[..|bytes| - 1], k) + if HasBit(bytes[|bytes| - 1], k) then 1 else 0
  }

  predicate HasBit(b: nat, k: nat)
    requires b < 256 && k < 8
  {
    (b as bv8) & LsbMask(k) != 0
  }

  /** Every bit position is set in an even number of the bytes. */
  predicate EvenBits(bytes: seq<nat>)
    requires AreDigits(bytes, 256)
  {
    forall k: nat :: k < 8 ==> BitCount(bytes, k) % 2 == 0
  }

  lemma XorByteBit(a: nat, b: nat, k: nat)
    requires a < 256 && b < 256 && k < 8
    ensures XorByte(a, b) < 256 && (HasBit(XorByte(a, b), k) <==> HasBit(a, k) != HasBit(b, k))
  {
    var x, y := a as bv8, b as bv8;
    CastBack(x ^ y);
    ByteBound(x ^ y);
    hide HasBit, XorByte;
    XorHasBit(x, y, k);
    XorByteIs(a, b);
    HasBitIs(XorByte(a, b), x ^ y, k);
    HasBitIs(a, x, k);
    HasBitIs(b, y, k);
  }

  lemma HasBitIs(n: nat, b: bv8, k: nat)
    requires n < 256 && k < 8 && n as bv8 == b
    ensures HasBit(n, k) <==> b & LsbMask(k) != 0
  {
  }

  lemma XorByteIs(a: nat, b: nat)
    requires a < 256 && b < 256
    ensures XorByte(a, b) == ((a as bv8) ^ (b as bv8)) as nat
  {
  }

  lemma XorHasBit(x: bv8, y: bv8, k: nat)
    requires k < 8
    ensures (x ^ y) & LsbMask(k) != 0 <==> (x & LsbMask(k) != 0) != (y & LsbMask(k) != 0)
  {
    MaskTable();
    hide LsbMask, MsbMask;
  }

  /** Bit `k` of the parity tells whether an odd number of the bytes have it set. */
  lemma {:induction false} ParityCountsBits(bytes: seq<nat>, k: nat)
    requires AreDigits(bytes, 256) && k < 8
    ensures HasBit(Parity(bytes), k) <==> BitCount(bytes, k) % 2 == 1
  {
    hide HasBit, XorByte;
    if bytes == [] {
      ZeroHasNoBit(k);
    } else {
      var init, b := bytes[..|bytes| - 1], bytes[|bytes| - 1];
      ParityCountsBits(init, k);
      XorByteBit(Parity(init), b, k);
    }
  }

  lemma ZeroHasNoBit(k: nat)
    requires k < 8
    ensures !HasBit(0, k)
  {
    MaskTable();
    hide LsbMask, MsbMask;
  }

  lemma {:induction false} ParityZeroIffEven(bytes: seq<nat>)
    requires AreDigits(bytes, 256)
    ensures Parity(bytes) == 0 <==> EvenBits(bytes)
  {
    hide HasBit, Parity, BitCount;
    forall k: nat | k < 8 ensures HasBit(Parity(bytes), k) <==> BitCount(bytes, k) % 2 == 1 {
      ParityCountsBits(bytes, k);
    }
    if Parity(bytes) == 0 {
      forall k: nat | k < 8 ensures BitCount(bytes, k) % 2 == 0 {
        ZeroHasNoBit(k);
      }
    } else {
      SomeBit(Parity(bytes));
      var k: nat :| k < 8 && HasBit(Parity(bytes), k);
      assert BitCount(bytes, k) % 2 == 1;
    }
  }

  lemma SomeBit(n: nat)
    requires 0 < n < 256
    ensures exists k: nat :: k < 8 && HasBit(n, k)
  {
    var b := n as bv8;
    ByteRoundTrip(n);
    SomeMask(b);
    var k: nat :| k < 8 && b & LsbMask(k) != 0;
    assert HasBit(n, k);
  }

  lemma SomeMask(b: bv8)
    requires b != 0
    ensures exists k: nat :: k < 8 && b & LsbMask(k) != 0
  {
    MaskTable();
    hide LsbMask, MsbMask;
    assert b & 0x01 != 0 || b & 0x02 != 0 || b & 0x04 != 0 || b & 0x08 != 0
        || b & 0x10 != 0 || b & 0x20 != 0 || b & 0x40 != 0 || b & 0x80 != 0;
  }

  ghost function RecoveryKeyOf(bytes: seq<nat>): Option<seq<nat>> {
    if |bytes| == 35 && bytes[0] == 0x8b && bytes[1] == 0x01 && AreDigits(bytes, 256) && Parity(bytes) == 0
    then Some(bytes[2..34])
    else None
  }

  ghost function ParsedKey(s: string): Option<seq<nat>> {
    match Decoded(Text.Strip(s))
    case None => None
    case Some(bytes) => RecoveryKeyOf(bytes)
  }

  /** Decode, check length, prefix and parity; cut the key out. */
  method ParseRecoveryKey(s: string) returns (r: Option<seq<nat>>)
    ensures r == ParsedKey(s)
  {
    hide Decoded, XorByte;
    var cleaned := Text.Strip(s);
    var decoded := Base58Decode(cleaned);
    if decoded.None? {
      return None;
    }
    var bytes := decoded.value;
    EncodeDecode(cleaned, bytes);
    if |bytes| != 35 || bytes[0] != 0x8b || bytes[1] != 0x01 {
      return None;
    }
    var parity := 0;
    for i := 0 to 35
      invariant parity == Parity(bytes[..i])
    {
      assert bytes[..i + 1][..i] == bytes[..i];
      parity := XorByte(parity, bytes[i]);
    }
    assert bytes[..35] == bytes;
    if parity != 0 {
      return None;
    }
    r := Some(bytes[2..34]);
  }

  /** A text is accepted as the recovery key of `key` exactly when, white space
      aside, it spells 0x8B, 0x01, the 32 bytes of `key`, and a byte with which
      every bit is set in an even number of the bytes. */
  lemma {:induction false} RecoveryKeyExact(s: string, key: seq<nat>)
    ensures ParsedKey(s) == Some(key)
       <==> |key| == 32 && AreDigits(key, 256)
            && exists p :: p < 256 && EvenBits([0x8b, 0x01] + key + [p])
                           && Text.Strip(s) == Encoded([0x8b, 0x01] + key + [p])
  {
    hide Decoded, Encoded, XorByte, EvenBits, Parity;
    var cleaned := Text.Strip(s);
    if |key| == 32 && AreDigits(key, 256)
       && exists p :: p < 256 && EvenBits([0x8b, 0x01] + key + [p]) && cleaned == Encoded([0x8b, 0x01] + key + [p])
    {
      var p :| p < 256 && EvenBits([0x8b, 0x01] + key + [p]) && cleaned == Encoded([0x8b, 0x01] + key + [p]);
      var bytes := [0x8b, 0x01] + key + [p];
      DecodeEncode(bytes);
      ParityZeroIffEven(bytes);
      assert bytes[2..34] == key;
    }
    if ParsedKey(s) == Some(key) {
      var bytes := Decoded(cleaned).value;
      EncodeDecode(cleaned, bytes);
      ParityZeroIffEven(bytes);
      assert bytes == [0x8b, 0x01] + key + [bytes[34]];
    }
  }

  /** Every 32-byte key has exactly one such byte: the parity of the rest. */
  lemma {:induction false} ParityByteIsUnique(key: seq<nat>, p: nat)
    requires |key| == 32 && AreDigits(key, 256) && p < 256
    ensures EvenBits([0x8b, 0x01] + key + [p]) <==> p == Parity([0x8b, 0x01] + key)
  {
    hide XorByte, EvenBits;
    var head := [0x8b, 0x01] + key;
    assert (head + [p])[..34] == head;
    ParityZeroIffEven(head + [p]);
    XorByteZero(Parity(head), p);
  }

  lemma XorByteZero(a: nat, b: nat)
    requires a < 256 && b < 256
    ensures XorByte(a, b) == 0 <==> a == b
  {
    ByteRoundTrip(a);
    ByteRoundTrip(b);
    XorBitsZero(a as bv8, b as bv8);
  }

  lemma XorBitsZero(x: bv8, y: bv8)
    ensures (x ^ y) as nat == 0 <==> x == y
  {
  }
}
