/** The three formats in so many words, and the conversions of compiler-rt into them. */
module FloatBits {
  import opened IntToFloat
  import opened Rounding
  import opened Words

  // ----- what the bits say (IEEE 754-2019, table 3.5)

  /** bits is a as a binary32, rounded to nearest with ties to even: a sign bit, 8 bits of exponent
      biased by 127, and 23 more digits of a significand of 24. From 2^128 - 2^103 on it is infinity. */
  ghost predicate Says32(a: int, bits: nat) {
    if a == 0 then bits == 0
    else
      var exponent, fraction := bits / 0x80_0000 % 0x100, bits % 0x80_0000;
      && bits / 0x8000_0000 == (if a < 0 then 1 else 0)
      && if Magnitude(a) >= 0xFFFF_FF80_0000_0000_0000_0000_0000_0000 then exponent == 255 && fraction == 0
         else 0 < exponent < 255 && Nearest(24, Magnitude(a), Scaled(0x80_0000 + fraction, exponent - 150))
  }

  /** As a binary64, for integers that are not too large for it: 11 bits of exponent biased by 1023,
      and 52 more digits of a significand of 53. */
  ghost predicate Says64(a: int, bits: nat) {
    if a == 0 then bits == 0
    else
      var exponent, fraction := bits / 0x10_0000_0000_0000 % 0x800, bits % 0x10_0000_0000_0000;
      && bits / 0x8000_0000_0000_0000 == (if a < 0 then 1 else 0)
      && 0 < exponent < 2047
      && Nearest(53, Magnitude(a), Scaled(0x10_0000_0000_0000 + fraction, exponent - 1075))
  }

  /** As a binary128: 15 bits of exponent biased by 16383, and 112 more digits of a significand
      of 113. */
  ghost predicate Says128(a: int, bits: nat) {
    if a == 0 then bits == 0
    else
      var unit := 0x1_0000_0000_0000_0000_0000_0000_0000;
      var exponent, fraction := bits / unit % 0x8000, bits % unit;
      && bits / 0x8000_0000_0000_0000_0000_0000_0000_0000 == (if a < 0 then 1 else 0)
      && 0 < exponent < 32767
      && Nearest(113, Magnitude(a), Scaled(unit + fraction, exponent - 16495))
  }

  // ----- powers of two

  lemma ShlNext(n: nat)
    ensures Shl(1, n + 3) == 8 * Shl(1, n) && Shl(1, n + 4) == 16 * Shl(1, n) && Shl(1, n + 8) == 0x100 * Shl(1, n)
  {
    hide Shl;
    Doubles(n);
    Doubles(n + 1);
    Doubles(n + 2);
    Doubles(n + 3);
    Doubles(n + 4);
    Doubles(n + 5);
    Doubles(n + 6);
    Doubles(n + 7);
  }

  /** A product with a power of two is a shift. */
  lemma {:induction false} ShlTimes(x: nat, n: nat)
    ensures Shl(x, n) == x * Shl(1, n)
  {
    if n > 0 {
      ShlTimes(x, n - 1);
      assert x * (2 * Shl(1, n - 1)) == 2 * (x * Shl(1, n - 1));
    }
  }

  lemma LowPowers()
    ensures Shl(1, 8) == 0x100
    ensures Shl(1, 11) == 0x800
    ensures Shl(1, 15) == 0x8000
    ensures Shl(1, 23) == 0x80_0000
    ensures Shl(1, 31) == 0x8000_0000
    ensures Shl(1, 52) == 0x10_0000_0000_0000
    ensures Shl(1, 63) == 0x8000_0000_0000_0000
    ensures Shl(1, 64) == 0x1_0000_0000_0000_0000
  {
    hide Shl;
    ShlZero(1);
    ShlNext(0);
    ShlNext(8);
    ShlNext(16);
    ShlNext(24);
    ShlNext(32);
    ShlNext(40);
    ShlNext(48);
    ShlNext(56);
    Doubles(15);
    Doubles(23);
    Doubles(31);
    Doubles(63);
  }

  lemma HighPowers()
    ensures Shl(1, 103) == 0x80_0000_0000_0000_0000_0000_0000
    ensures Shl(1, 112) == 0x1_0000_0000_0000_0000_0000_0000_0000
    ensures Shl(1, 127) == 0x8000_0000_0000_0000_0000_0000_0000_0000
    ensures Shl(1, 128) == 0x1_0000_0000_0000_0000_0000_0000_0000_0000
  {
    hide Shl;
    LowPowers();
    ShlNext(64);
    ShlNext(72);
    ShlNext(80);
    ShlNext(88);
    ShlNext(96);
    ShlNext(104);
    ShlNext(112);
    ShlNext(120);
    Doubles(103);
    Doubles(127);
  }

  /** Those that are needed here. */
  lemma BitPowers()
    ensures Shl(1, 8) == 0x100
    ensures Shl(1, 11) == 0x800
    ensures Shl(1, 15) == 0x8000
    ensures Shl(1, 23) == 0x80_0000
    ensures Shl(1, 31) == 0x8000_0000
    ensures Shl(1, 52) == 0x10_0000_0000_0000
    ensures Shl(1, 63) == 0x8000_0000_0000_0000
    ensures Shl(1, 103) == 0x80_0000_0000_0000_0000_0000_0000
    ensures Shl(1, 112) == 0x1_0000_0000_0000_0000_0000_0000_0000
    ensures Shl(1, 127) == 0x8000_0000_0000_0000_0000_0000_0000_0000
    ensures Shl(1, 128) == 0x1_0000_0000_0000_0000_0000_0000_0000_0000
  {
    LowPowers();
    HighPowers();
  }

  lemma MoreTimes(p: nat, q: nat, d: nat)
    ensures p < q ==> p * d + d <= q * d
  {
    if p < q {
      assert q * d == (q - 1) * d + d && (q - 1) * d >= p * d;
    }
  }

  /** The quotient and the remainder are the only ones. */
  lemma DivIs(x: nat, d: nat, q: nat, r: nat)
    requires x == q * d + r && r < d
    ensures x / d == q && x % d == r
  {
    MoreTimes(x / d, q, d);
    MoreTimes(q, x / d, d);
  }

  lemma FieldIs(x: nat, n: nat)
    ensures Shl(1, n) > 0 && Shr(x, n) == x / Shl(1, n) && Low(x, n) == x % Shl(1, n)
  {
    hide Shl, Shr, Low;
    Positive(1, n);
    HighLow(x, n);
    ShlTimes(Shr(x, n), n);
    DivIs(x, Shl(1, n), Shr(x, n), Low(x, n));
  }

  // ----- the formats

  /** Their widths, and that the exponents are biased by half their range. */
  lemma Widths()
    ensures BINARY32.p + BINARY32.w == 32 && BINARY64.p + BINARY64.w == 64 && BINARY128.p + BINARY128.w == 128
    ensures BINARY32.bias == 127 && BINARY64.bias == 1023 && BINARY128.bias == 16383
  {
  }

  lemma FieldsOf(f: Format, bits: nat)
    requires f.p > 0
    ensures Shl(1, f.p - 1) > 0 && Shl(1, f.w) > 0 && Shl(1, f.p - 1 + f.w) > 0
    ensures SignField(f, bits) == bits / Shl(1, f.p - 1 + f.w)
    ensures ExponentField(f, bits) == bits / Shl(1, f.p - 1) % Shl(1, f.w)
    ensures Fraction(f, bits) == bits % Shl(1, f.p - 1)
  {
    hide Shl, Shr, Low;
    FieldIs(bits, f.p - 1);
    FieldIs(Shr(bits, f.p - 1), f.w);
    FieldIs(bits, f.p - 1 + f.w);
    ShrShr(bits, f.p - 1, f.w);
  }

  lemma OverflowAt()
    ensures FormatOk(BINARY32) && FormatOk(BINARY64) && FormatOk(BINARY128)
    ensures Overflow(BINARY32) == 0xFFFF_FF80_0000_0000_0000_0000_0000_0000
    ensures Overflow(BINARY64) >= 0x1_0000_0000_0000_0000_0000_0000_0000_0000
    ensures Overflow(BINARY128) >= 0x1_0000_0000_0000_0000_0000_0000_0000_0000
  {
    hide Shl;
    FormatsOk();
    BitPowers();
    Doubles(1023);
    ShlMonotone(1, 970, 1023);
    ShlMonotone(1, 128, 1023);
    Doubles(16383);
    ShlMonotone(1, 16270, 16383);
    ShlMonotone(1, 128, 16383);
  }

  lemma SaysWhatConverts32(a: int, bits: nat)
    requires FormatOk(BINARY32) && Converts(BINARY32, a, bits)
    ensures Says32(a, bits)
  {
    hide Shl, Nearest, Overflow, SignField, ExponentField, Fraction;
    BitPowers();
    FieldsOf(BINARY32, bits);
    OverflowAt();
  }

  lemma SaysWhatConverts64(a: int, bits: nat)
    requires FormatOk(BINARY64) && Converts(BINARY64, a, bits)
    requires Magnitude(a) < 0x1_0000_0000_0000_0000_0000_0000_0000_0000
    ensures Says64(a, bits)
  {
    hide Shl, Nearest, Overflow, SignField, ExponentField, Fraction;
    BitPowers();
    FieldsOf(BINARY64, bits);
    OverflowAt();
  }

  lemma SaysWhatConverts128(a: int, bits: nat)
    requires FormatOk(BINARY128) && Converts(BINARY128, a, bits)
    requires Magnitude(a) < 0x1_0000_0000_0000_0000_0000_0000_0000_0000
    ensures Says128(a, bits)
  {
    hide Shl, Nearest, Overflow, SignField, ExponentField, Fraction;
    BitPowers();
    FieldsOf(BINARY128, bits);
    OverflowAt();
  }

  lemma ShiftedDigits(p: nat, m: nat, k: nat)
    requires p > 0 && Normal(p, m)
    ensures Shl(m, k) > 0 && Digits(Shl(m, k)) == p + k
  {
    hide Shl, Digits;
    Positive(1, p - 1);
    Positive(m, k);
    ShlShl(1, p, k);
    ShlShl(1, p - 1, k);
    assert p - 1 + k == p + k - 1;
    ShlLess(Shl(1, p - 1), m, k);
    ShlLess(Shl(1, p), m, k);
    DigitsAtMost(Shl(m, k), p + k);
    DigitsAtMost(Shl(m, k), p + k - 1);
  }

  lemma RoundsToItself(p: nat, m: nat, k: nat)
    requires p > 0 && Normal(p, m)
    ensures Shl(m, k) > 0 && Rounded(p, Shl(m, k)) == Scaled(m, k)
  {
    hide Shl, Shr, Low, Digits;
    ShiftedDigits(p, m, k);
    if k == 0 {
      ShlZero(m);
      ExactNormal(p, m);
    } else {
      Positive(1, k);
      Positive(1, k - 1);
      HighLowIs(Shl(m, k), k, m, 0);
    }
  }

  /** The largest finite number: all digits ones, and the exponent one below that of infinity. */
  lemma Largest(f: Format)
    requires FormatOk(f)
    ensures Shl(1, f.p) > 0 && Shl(1, f.p - 1) > 0
    ensures Converts(f, Shl(Shl(1, f.p) - 1, f.bias + 1 - f.p), Shl(2 * f.bias, f.p - 1) + (Shl(1, f.p - 1) - 1))
  {
    hide Shl, Shr, Low, Digits, Converts;
    var m, k := Shl(1, f.p) - 1, f.bias + 1 - f.p;
    Positive(1, f.p - 1);
    Doubles(f.p - 1);
    RoundsToItself(f.p, m, k);
    ShlShl(1, f.p, k);
    ShlLess(m, Shl(1, f.p), k);
    ShlLess(Shl(1, f.p), m, k);
    EncodedConverts(f, Shl(m, k));
  }

  lemma One(f: Format)
    requires FormatOk(f)
    ensures Converts(f, 1, Shl(f.bias, f.p - 1))
  {
    hide Shl, Converts;
    ShlMonotone(2, 0, f.bias);
    ShlTwice(1, f.bias);
    Doubles(f.bias);
    ShlZero(2);
    ExactNormal(f.p, 1);
    EncodedConverts(f, 1);
  }

  /** The bits of 1. */
  lemma OneIs()
    ensures FormatOk(BINARY32) && FormatOk(BINARY64) && FormatOk(BINARY128)
    ensures Converts(BINARY32, 1, 0x3F80_0000) && Converts(BINARY64, 1, 0x3FF0_0000_0000_0000)
    ensures Converts(BINARY128, 1, 0x3FFF_0000_0000_0000_0000_0000_0000_0000)
  {
    hide Shl, Converts;
    FormatsOk();
    BitPowers();
    One(BINARY32);
    One(BINARY64);
    One(BINARY128);
    ShlTimes(127, 23);
    ShlTimes(1023, 52);
    ShlTimes(16383, 112);
  }

  /** The largest finite numbers: 2^128 - 2^104, 2^1024 - 2^971 and 2^16384 - 2^16271. */
  lemma LargestIs()
    ensures FormatOk(BINARY32) && FormatOk(BINARY64) && FormatOk(BINARY128)
    ensures Converts(BINARY32, Shl(0xFF_FFFF, 104), 0x7F7F_FFFF)
    ensures Converts(BINARY64, Shl(0x1F_FFFF_FFFF_FFFF, 971), 0x7FEF_FFFF_FFFF_FFFF)
    ensures Converts(BINARY128, Shl(0x1_FFFF_FFFF_FFFF_FFFF_FFFF_FFFF_FFFF, 16271),
                     0x7FFE_FFFF_FFFF_FFFF_FFFF_FFFF_FFFF_FFFF)
  {
    hide Shl, Converts;
    FormatsOk();
    BitPowers();
    Doubles(23);
    Doubles(52);
    Doubles(112);
    Largest(BINARY32);
    Largest(BINARY64);
    Largest(BINARY128);
    ShlTimes(254, 23);
    ShlTimes(2046, 52);
    ShlTimes(32766, 112);
  }

  // ----- the conversions, and what their bits say

  method FloatTiDf(a: int) returns (bits: nat)
    requires 0 - Shl(1, 127) <= a < Shl(1, 127)
    ensures FormatOk(BINARY64) && Converts(BINARY64, a, bits)
    ensures Says64(a, bits)
  {
    FormatsOk();
    bits := FromSigned(BINARY64, 128, 32, a);
    BitPowers();
    SaysWhatConverts64(a, bits);
  }

  method FloatTiSf(a: int) returns (bits: nat)
    requires 0 - Shl(1, 127) <= a < Shl(1, 127)
    ensures FormatOk(BINARY32) && Converts(BINARY32, a, bits)
    ensures Says32(a, bits)
  {
    FormatsOk();
    bits := FromSigned(BINARY32, 128, 0, a);
    SaysWhatConverts32(a, bits);
  }

  method FloatTiTf(a: int) returns (bits: nat)
    requires 0 - Shl(1, 127) <= a < Shl(1, 127)
    ensures FormatOk(BINARY128) && Converts(BINARY128, a, bits)
    ensures Says128(a, bits)
  {
    FormatsOk();
    bits := FromSigned(BINARY128, 128, 64, a);
    BitPowers();
    SaysWhatConverts128(a, bits);
  }

  method FloatUnTiDf(a: nat) returns (bits: nat)
    requires a < Shl(1, 128)
    ensures FormatOk(BINARY64) && Converts(BINARY64, a, bits)
    ensures Says64(a, bits)
  {
    FormatsOk();
    bits := FromUnsigned(BINARY64, 128, 32, a);
    BitPowers();
    SaysWhatConverts64(a, bits);
  }

  /** The one that can overflow, to infinity. */
  method FloatUnTiSf(a: nat) returns (bits: nat)
    requires a < Shl(1, 128)
    ensures FormatOk(BINARY32) && Converts(BINARY32, a, bits)
    ensures Says32(a, bits)
  {
    FormatsOk();
    bits := FromUnsigned(BINARY32, 128, 0, a);
    SaysWhatConverts32(a, bits);
  }

  method FloatUnTiTf(a: nat) returns (bits: nat)
    requires a < Shl(1, 128)
    ensures FormatOk(BINARY128) && Converts(BINARY128, a, bits)
    ensures Says128(a, bits)
  {
    FormatsOk();
    bits := FromUnsigned(BINARY128, 128, 64, a);
    BitPowers();
    SaysWhatConverts128(a, bits);
  }

  method FloatDiSf(a: int) returns (bits: nat)
    requires 0 - Shl(1, 63) <= a < Shl(1, 63)
    ensures FormatOk(BINARY32) && Converts(BINARY32, a, bits)
    ensures Says32(a, bits)
  {
    FormatsOk();
    bits := FromSigned(BINARY32, 64, 0, a);
    SaysWhatConverts32(a, bits);
  }

  method FloatUnDiSf(a: nat) returns (bits: nat)
    requires a < Shl(1, 64)
    ensures FormatOk(BINARY32) && Converts(BINARY32, a, bits)
    ensures Says32(a, bits)
  {
    FormatsOk();
    bits := FromUnsigned(BINARY32, 64, 0, a);
    SaysWhatConverts32(a, bits);
  }

  method FloatDiDf(a: int) returns (bits: nat)
    requires 0 - Shl(1, 63) <= a < Shl(1, 63)
    ensures FormatOk(BINARY64) && Converts(BINARY64, a, bits)
    ensures Says64(a, bits)
  {
    FormatsOk();
    bits := FromSigned(BINARY64, 64, 32, a);
    BitPowers();
    SaysWhatConverts64(a, bits);
  }

  method FloatUnDiDf(a: nat) returns (bits: nat)
    requires a < Shl(1, 64)
    ensures FormatOk(BINARY64) && Converts(BINARY64, a, bits)
    ensures Says64(a, bits)
  {
    FormatsOk();
    bits := FromUnsigned(BINARY64, 64, 32, a);
    BitPowers();
    SaysWhatConverts64(a, bits);
  }

  method FloatSiSf(a: int) returns (bits: nat)
    requires 0 - Shl(1, 31) <= a < Shl(1, 31)
    ensures FormatOk(BINARY32) && Converts(BINARY32, a, bits)
    ensures Says32(a, bits)
  {
    FormatsOk();
    FormatFacts(BINARY32);
    Doubles(31);
    bits := FromWord(BINARY32, 32, a);
    SaysWhatConverts32(a, bits);
  }

  method FloatUnSiSf(a: nat) returns (bits: nat)
    requires a < Shl(1, 32)
    ensures FormatOk(BINARY32) && Converts(BINARY32, a, bits)
    ensures Says32(a, bits)
  {
    FormatsOk();
    FormatFacts(BINARY32);
    bits := FromWord(BINARY32, 32, a);
    SaysWhatConverts32(a, bits);
  }
}
