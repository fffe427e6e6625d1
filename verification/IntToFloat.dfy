/** The conversions from integers to binary floats: sticky-bit rounding of `__floattidf` and
    its kind, and the other way `__floatsisf` does it. */
module IntToFloat {
  import opened Words
  import opened Rounding

  /** p significant digits, w bits of exponent. */
  datatype Format = Format(p: nat, w: nat, bias: nat)

  const BINARY32 := Format(24, 8, 127)
  const BINARY64 := Format(53, 11, 1023)
  const BINARY128 := Format(113, 15, 16383)

  predicate FormatOk(f: Format) { f.p >= 3 && f.w > 0 && f.bias + 1 == Shl(1, f.w - 1) && f.bias >= f.p }

  lemma FormatsOk()
    ensures FormatOk(BINARY32) && FormatOk(BINARY64) && FormatOk(BINARY128)
  {
    assert Shl(1, 4) == 16;
    ShlShl(1, 4, 3);
    assert Shl(16, 3) == 128;
    ShlShl(1, 7, 3);
    assert Shl(128, 3) == 1024;
    ShlShl(1, 10, 4);
    assert Shl(1024, 4) == 16384;
  }

  // ----- what a float says (IEEE 754-2019, section 3.4)

  function SignField(f: Format, bits: nat): nat
    requires f.p > 0
  {
    Shr(Shr(bits, f.p - 1), f.w)
  }

  function ExponentField(f: Format, bits: nat): nat
    requires f.p > 0
  {
    Low(Shr(bits, f.p - 1), f.w)
  }

  function Fraction(f: Format, bits: nat): nat
    requires f.p > 0
  {
    Low(bits, f.p - 1)
  }

  /** From here on a magnitude rounds to infinity (section 4.3.1): half a unit in the last
      place above the largest finite float. */
  function Overflow(f: Format): int
    requires FormatOk(f)
  {
    Shl(1, f.bias + 1) - Shl(1, f.bias - f.p)
  }

  function Magnitude(a: int): nat { if a < 0 then -a else a }

  /** bits is the float nearest to a, ties to even. */
  ghost predicate Converts(f: Format, a: int, bits: nat)
    requires FormatOk(f)
  {
    if a == 0 then bits == 0
    else
      && SignField(f, bits) == (if a < 0 then 1 else 0)
      && if Magnitude(a) >= Overflow(f) then ExponentField(f, bits) == Shl(1, f.w) - 1 && Fraction(f, bits) == 0
         else
           && 0 < ExponentField(f, bits) < Shl(1, f.w) - 1
           && Nearest(f.p, Magnitude(a), Scaled(Shl(1, f.p - 1) + Fraction(f, bits),
                                                ExponentField(f, bits) - f.bias - (f.p - 1)))
  }

  /** The fields, one above the other; a carry out of the fraction moves into the exponent. */
  function Encoded(f: Format, neg: bool, r: Scaled): (bits: int)
    requires FormatOk(f) && r.k + f.p - 1 + f.bias >= 0
  {
    Shl((if neg then Shl(1, f.w) else 0) + (r.k + f.p - 1 + f.bias), f.p - 1) + r.m - Shl(1, f.p - 1)
  }

  lemma EncodedFields(f: Format, neg: bool, r: Scaled)
    requires FormatOk(f) && Normal(f.p, r.m) && 0 <= r.k + f.p - 1 + f.bias < Shl(1, f.w)
    ensures Encoded(f, neg, r) >= 0
    ensures SignField(f, Encoded(f, neg, r)) == if neg then 1 else 0
    ensures ExponentField(f, Encoded(f, neg, r)) == r.k + f.p - 1 + f.bias
    ensures Shl(1, f.p - 1) + Fraction(f, Encoded(f, neg, r)) == r.m
  {
    var e := r.k + f.p - 1 + f.bias;
    var g := (if neg then Shl(1, f.w) else 0) + e;
    assert Shl(1, f.p) == 2 * Shl(1, f.p - 1);
    HighLowIs(Encoded(f, neg, r), f.p - 1, g, r.m - Shl(1, f.p - 1));
    ShlAdds(0, 0, f.w);
    HighLowIs(g, f.w, if neg then 1 else 0, e);
  }

  /** Where the rounding leaves the range of the format. */
  lemma OverflowIs(f: Format, a: nat)
    requires FormatOk(f) && 0 < a < Shl(1, f.bias + 1)
    ensures 0 <= Rounded(f.p, a).k + f.p - 1 <= f.bias + 1
    ensures Rounded(f.p, a).k + f.p - 1 == f.bias + 1 <==> a >= Overflow(f)
    ensures a >= Overflow(f) ==> Rounded(f.p, a).m == Shl(1, f.p - 1)
  {
    hide Shl, Shr, Low, Digits;
    DigitsBound(a);
    DigitsAtMost(a, f.bias + 1);
    Doubles(f.bias);
    Doubles(f.bias - 1);
    ShlMonotone(1, f.bias - f.p, f.bias - 1);
    if Digits(a) <= f.bias {
      ShlMonotone(1, Digits(a), f.bias);
    } else {
      AtTheTop(f, a);
    }
  }

  lemma AtTheTop(f: Format, a: nat)
    requires FormatOk(f) && 0 < a < Shl(1, f.bias + 1) && Digits(a) == f.bias + 1
    ensures Rounded(f.p, a).k == f.bias + 2 - f.p <==> a >= Overflow(f)
    ensures Rounded(f.p, a).k == f.bias + 1 - f.p || Rounded(f.p, a).k == f.bias + 2 - f.p
    ensures a >= Overflow(f) ==> Rounded(f.p, a).m == Shl(1, f.p - 1)
  {
    hide Shl, Shr, Low, Digits;
    var k := f.bias + 1 - f.p;
    var q, rem, top := Shr(a, k), Low(a, k), Shl(1, f.p);
    Kept(f.p, a, k);
    Doubles(f.p - 1);
    Doubles(k - 1);
    ShlShl(1, f.p, k);
    assert f.p + k == f.bias + 1 && k - 1 == f.bias - f.p;
    ShlAdds(top - 1, 1, k);
    ShlAdds(q + 1, top - 1, k);
    ShlAdds(q, 1, k);
  }

  /** The rounded magnitude, encoded, is the conversion. */
  lemma EncodedConverts(f: Format, a: int)
    requires FormatOk(f) && a != 0 && Magnitude(a) < Shl(1, f.bias + 1)
    ensures Rounded(f.p, Magnitude(a)).k + f.p - 1 >= 0
    ensures Encoded(f, a < 0, Rounded(f.p, Magnitude(a))) >= 0
    ensures Converts(f, a, Encoded(f, a < 0, Rounded(f.p, Magnitude(a))))
  {
    var u := Magnitude(a);
    var r := Rounded(f.p, u);
    OverflowIs(f, u);
    assert Shl(1, f.w) == 2 * Shl(1, f.w - 1);
    RoundedIsNearest(f.p, u);
    EncodedFields(f, a < 0, r);
  }

  // ----- rounding with a sticky bit

  /** What the sticky bit says: four times the digits kept, two for the half, one for any
      bit below that. */
  ghost predicate Jammed(a: nat, q: nat, rem: nat, half: nat) {
    a == 4 * q + (if rem >= half then 2 else 0) + (if rem != 0 && rem != half then 1 else 0)
  }

  lemma JamFew(a0: nat, k: nat)
    requires k == 1 || k == 2
    ensures Jammed(if k == 1 then 2 * a0 else a0, Shr(a0, k), Low(a0, k), Shl(1, k - 1))
  {
    HighLow(a0, k);
    assert Shl(Shr(a0, k), k) == if k == 1 then 2 * Shr(a0, k) else 4 * Shr(a0, k);
    assert Shl(1, k) == if k == 1 then 2 else 4;
    assert Shl(1, k - 1) == if k == 1 then 1 else 2;
  }

  lemma JamMany(a0: nat, k: nat)
    requires k > 2
    ensures Jammed(Or(Shr(a0, k - 2), if Low(a0, k - 2) != 0 then 1 else 0), Shr(a0, k), Low(a0, k), Shl(1, k - 1))
  {
    hide *;
    var t, low, unit := Shr(a0, k - 2), Low(a0, k - 2), Shl(1, k - 2);
    HighLow(a0, k - 2);
    ShrShr(a0, k - 2, 2);
    HighLow(t, 2);
    var q, u := Shr(t, 2), Low(t, 2);
    ShlTwo(q);
    ShlTwo(1);
    ShlAdds(Shl(q, 2), u, k - 2);
    ShlShl(q, 2, k - 2);
    ShlShl(1, 2, k - 2);
    FourTimes(1, k - 2);
    Doubles(k - 2);
    Quarter(u, low, k - 2, unit, Shl(u, k - 2));
    HighLowIs(a0, k, q, Shl(u, k - 2) + low);
    OrBit(t, if low != 0 then 1 else 0);
    JamDigits(q, u, low, unit, Shl(u, k - 2));
  }

  lemma Parity(x: nat, b: nat)
    requires b < 2
    ensures (2 * x + b) % 2 == b
  {
  }

  /** Two digits kept for later, and whether anything is below them. */
  lemma JamDigits(q: nat, u: nat, low: nat, unit: nat, shifted: nat)
    requires u < 4 && low < unit
    requires shifted == (if u == 0 then 0 else if u == 1 then unit else if u == 2 then 2 * unit else 3 * unit)
    ensures var t, s := 4 * q + u, if low != 0 then 1 else 0;
      Jammed(if t % 2 == 1 then t else t + s, q, shifted + low, 2 * unit)
  {
    Parity(2 * q + u / 2, u % 2);
  }

  lemma Quarter(u: nat, low: nat, n: nat, unit: nat, shifted: nat)
    requires u < 4 && unit == Shl(1, n) && shifted == Shl(u, n)
    ensures shifted == (if u == 0 then 0 else if u == 1 then unit else if u == 2 then 2 * unit else 3 * unit)
  {
    ShlAdds(0, 0, n);
    ShlAdds(1, 1, n);
    ShlAdds(2, 1, n);
  }

  lemma RoundJammed(p: nat, q: nat, rem: nat, half: nat, a: nat)
    requires p > 0 && Jammed(a, q, rem, half) && q < Shl(1, p) && half > 0 && rem < 2 * half
    ensures var b := Or(a, if And(a, 4) != 0 then 1 else 0);
      b + 1 <= 4 * Shl(1, p) && Shr(b + 1, 2) == q + if RoundsUp(q, rem, half) then 1 else 0
  {
    assert Shl(1, 2) == 4;
    AndBit(a, 2);
    assert Shr(a, 2) == a / 2 / 2;
    OrBit(a, if And(a, 4) != 0 then 1 else 0);
  }

  lemma TopBit(p: nat, a: nat)
    requires a <= Shl(1, p)
    ensures And(a, Shl(1, p)) != 0 <==> a == Shl(1, p)
  {
    AndBit(a, p);
    if a < Shl(1, p) {
      LowAll(a, p);
    } else {
      HighLowIs(a, p, 1, 0);
    }
  }

  lemma RoundedIs(p: nat, a: nat)
    requires p > 0 && a > 0
    ensures Digits(a) >= 1 && a < Shl(1, Digits(a))
    ensures Digits(a) <= p ==> Rounded(p, a) == Scaled(Shl(a, p - Digits(a)), Digits(a) - p)
    ensures Digits(a) > p ==>
      var k := Digits(a) - p;
      var r := Shr(a, k) + if RoundsUp(Shr(a, k), Low(a, k), Shl(1, k - 1)) then 1 else 0;
      && Rounded(p, a) == (if r == Shl(1, p) then Scaled(Shl(1, p - 1), k + 1) else Scaled(r, k))
      && Shr(a, k) < Shl(1, p) && Low(a, k) < 2 * Shl(1, k - 1)
  {
    DigitsBound(a);
    if Digits(a) > p {
      Kept(p, a, Digits(a) - p);
    }
  }

  lemma Halves(p: nat)
    requires p > 0
    ensures Shr(Shl(1, p), 1) == Shl(1, p - 1)
  {
    assert Shl(1, p) == 2 * Shl(1, p - 1);
  }

  /** The digits of a, and its exponent, rounded to p digits in an n-bit word. */
  method RoundOff(n: nat, p: nat, a0: nat) returns (a: nat, e: int)
    requires p >= 2 && p + 3 <= n && 0 < a0 < Shl(1, n)
    ensures Scaled(a, e - (p - 1)) == Rounded(p, a0)
  {
    hide *;
    DigitsAtMost(a0, n);
    RoundedIs(p, a0);
    var sd := Digits(a0);
    e := sd - 1;
    a := a0;
    if sd > p {
      ghost var k := sd - p;
      ghost var q, rem, half := Shr(a0, k), Low(a0, k), Shl(1, k - 1);
      if sd == p + 1 {
        ShiftFits(a, sd, 1, n);
        JamFew(a, 1);
        Twice(a);
        a := ShiftLeft(a, 1, n);
      } else if sd == p + 2 {
        JamFew(a, 2);
      } else {
        MaskIs(n, n + p + 2 - sd);
        AndMask(a, sd - p - 2);
        JamMany(a, k);
        a := Or(Shr(a, sd - (p + 2)), if And(a, Shr(Shl(1, n) - 1, n + p + 2 - sd)) != 0 then 1 else 0);
      }
      Doubles(k - 1);
      RoundJammed(p, q, rem, half, a);
      a := Or(a, if And(a, 4) != 0 then 1 else 0);
      WordHolds(a + 1, p, n);
      a := Low(a + 1, n);
      a := Shr(a, 2);
      TopBit(p, a);
      if And(a, Shl(1, p)) != 0 {
        Halves(p);
        a := Shr(a, 1);
        e := e + 1;
      }
    } else {
      ShiftFits(a, sd, p - sd, n);
      a := ShiftLeft(a, p - sd, n);
    }
  }

  lemma Twice(a: nat)
    ensures Shl(a, 1) == 2 * a
  {
  }

  /** The increment stays in the word, which has a bit to spare for it. */
  lemma WordHolds(a: nat, p: nat, n: nat)
    requires a <= 4 * Shl(1, p) && p + 3 <= n
    ensures Low(a, n) == a
  {
    assert Shl(1, p + 2) == 4 * Shl(1, p) && Shl(1, p + 3) == 2 * Shl(1, p + 2);
    ShlMonotone(1, 0, p);
    ShlMonotone(1, p + 3, n);
    LowAll(a, n);
  }

  // ----- putting the fields together

  /** The low bits of a word, taken in two parts. */
  lemma LowInParts(a: nat, l: nat, n: nat)
    requires l <= n
    ensures Shl(Low(Shr(a, l), n - l), l) + Low(a, l) == Low(a, n)
  {
    hide Shl, Shr, Low;
    HighLow(a, l);
    HighLow(Shr(a, l), n - l);
    var hi, mid, lo := Shr(Shr(a, l), n - l), Low(Shr(a, l), n - l), Low(a, l);
    ShlAdds(Shl(hi, n - l), mid, l);
    ShlShl(hi, n - l, l);
    ShlAdds(mid + 1, Shl(1, n - l), l);
    ShlAdds(mid, 1, l);
    ShlShl(1, n - l, l);
    HighLowIs(a, n, hi, Shl(mid, l) + lo);
  }

  lemma FieldsAdd(f: Format, l: nat, neg: bool, e: nat, a: nat)
    requires FormatOk(f) && f.p > 0 && l < f.p && e + f.bias < Shl(1, f.w) && Normal(f.p, a)
    ensures var x := f.p - 1 - l;
      var high := Or(Or(if neg then Shl(1, f.w + x) else 0, Shl(e + f.bias, x)), Low(Shr(a, l), x));
      Or(Shl(high, l), Low(a, l)) == Encoded(f, neg, Scaled(a, e - (f.p - 1)))
  {
    hide Shl, Shr, Low, Or, FormatOk;
    var x := f.p - 1 - l;
    var g := (if neg then Shl(1, f.w) else 0) + (e + f.bias);
    var mid, lo := Low(Shr(a, l), x), Low(a, l);
    HighLow(Shr(a, l), x);
    HighLow(a, l);
    SignAdds(f, x, neg, e + f.bias);
    OrDisjoint(g, x, mid);
    OrDisjoint(Shl(g, x) + mid, l, lo);
    ShlAdds(Shl(g, x), mid, l);
    ShlShl(g, x, l);
    LowInParts(a, l, f.p - 1);
    Doubles(f.p - 1);
    ShlAdds(0, 1, f.p - 1);
    HighLowIs(a, f.p - 1, 1, a - Shl(1, f.p - 1));
  }

  lemma SignAdds(f: Format, x: nat, neg: bool, e: nat)
    requires e < Shl(1, f.w)
    ensures Or(if neg then Shl(1, f.w + x) else 0, Shl(e, x)) == Shl((if neg then Shl(1, f.w) else 0) + e, x)
  {
    if neg {
      ShlAdds(e, Shl(1, f.w), x);
      ShlShl(1, f.w, x);
      OrDisjoint(1, f.w + x, Shl(e, x));
      ShlAdds(Shl(1, f.w), e, x);
    }
  }

  /** Sign, exponent and fraction, in a high word and a low one of l bits. */
  method Pack(f: Format, l: nat, neg: bool, e: int, a: nat) returns (bits: nat)
    requires FormatOk(f) && l < f.p && 0 <= e + f.bias < Shl(1, f.w) && e >= 0 && Normal(f.p, a)
    ensures bits == Encoded(f, neg, Scaled(a, e - (f.p - 1)))
  {
    hide *;
    var x := f.p - 1 - l;
    ghost var mantissa := Low(Shr(a, l), x);
    AndMask(Shr(a, l), x);
    FieldsAdd(f, l, neg, e, a);
    var high := Or(Or(if neg then Shl(1, f.w + x) else 0, Shl(e + f.bias, x)), And(Shr(a, l), Shl(1, x) - 1));
    var low := Low(a, l);
    bits := Or(Shl(high, l), low);
  }

  /** `__floattidf` and its kind: an n-bit signed integer. */
  method FromSigned(f: Format, n: nat, l: nat, a: int) returns (bits: nat)
    requires FormatOk(f) && f.p + 3 <= n <= f.bias + 1 && l < f.p
    requires 0 - Shl(1, n - 1) <= a < Shl(1, n - 1)
    ensures Converts(f, a, bits)
  {
    if a == 0 {
      return 0;
    }
    var s := if a < 0 then -1 else 0;
    var u := (if s == -1 then -a - 1 else a) - s;
    bits := FromMagnitude(f, n, l, s == -1, u, a);
  }

  method FromUnsigned(f: Format, n: nat, l: nat, a: nat) returns (bits: nat)
    requires FormatOk(f) && f.p + 3 <= n <= f.bias + 1 && l < f.p && a < Shl(1, n)
    ensures Converts(f, a, bits)
  {
    if a == 0 {
      return 0;
    }
    bits := FromMagnitude(f, n, l, false, a, a);
  }

  method FromMagnitude(f: Format, n: nat, l: nat, neg: bool, u: nat, ghost a: int) returns (bits: nat)
    requires FormatOk(f) && f.p + 3 <= n <= f.bias + 1 && l < f.p
    requires a != 0 && u == Magnitude(a) && 0 < u < Shl(1, n) && neg == (a < 0)
    ensures Converts(f, a, bits)
  {
    hide *;
    FormatFacts(f);
    ShlMonotone(1, n, f.bias + 1);
    OverflowIs(f, u);
    RoundedNormal(f.p, u);
    EncodedConverts(f, a);
    var m, e := RoundOff(n, f.p, u);
    bits := Pack(f, l, neg, e, m);
  }

  lemma FormatFacts(f: Format)
    requires FormatOk(f)
    ensures f.p >= 3 && 2 * f.bias + 2 == Shl(1, f.w)
  {
    assert Shl(1, f.w) == 2 * Shl(1, f.w - 1);
  }

  lemma RoundedNormal(p: nat, a: nat)
    requires p >= 2 && a > 0
    ensures Normal(p, Rounded(p, a).m)
  {
    RoundedIsNearest(p, a);
  }

  // ----- the other way of rounding

  /** What was shifted out, at the top of an n-bit word, compares with the top bit as it
      compares with half a unit. */
  lemma OutAtTop(a: nat, k: nat, n: nat)
    requires 0 < k <= n
    ensures ShiftLeft(a, n - k, n) == Shl(Low(a, k), n - k)
    ensures ShiftLeft(a, n - k, n) > Shl(1, n - 1) <==> Low(a, k) > Shl(1, k - 1)
    ensures ShiftLeft(a, n - k, n) == Shl(1, n - 1) <==> Low(a, k) == Shl(1, k - 1)
  {
    hide Shl, Shr, Low;
    var hi, lo := Shr(a, k), Low(a, k);
    HighLow(a, k);
    ShlAdds(Shl(hi, k), lo, n - k);
    ShlShl(hi, k, n - k);
    ShlShl(1, k, n - k);
    ShlAdds(lo, Shl(1, k), n - k);
    HighLowIs(Shl(a, n - k), n, hi, Shl(lo, n - k));
    ShlShl(1, k - 1, n - k);
    assert k - 1 + (n - k) == n - 1;
    ShlAdds(lo, Shl(1, k - 1), n - k);
    ShlAdds(Shl(1, k - 1), lo, n - k);
  }

  lemma TopOff(p: nat, q: nat)
    requires p > 0 && Normal(p, q)
    ensures Xor(q, Shl(1, p - 1)) == q - Shl(1, p - 1) && q - Shl(1, p - 1) < Shl(1, p - 1)
  {
    Doubles(p - 1);
    XorTop(q - Shl(1, p - 1), p - 1);
  }

  /** The fraction, with the carry still in it, below the exponent and the sign. */
  lemma InsertExponent(f: Format, n: nat, frac: nat, e: nat)
    requires FormatOk(f) && f.p > 0 && n == f.w + f.p && frac <= Shl(1, f.p - 1) && e + f.bias + 1 < Shl(1, f.w)
    ensures frac + Shl(e + f.bias, f.p - 1) < Shl(1, n - 1)
    ensures Or(frac + Shl(e + f.bias, f.p - 1), Shl(1, n - 1)) ==
            Shl(Shl(1, f.w) + (e + f.bias), f.p - 1) + frac
  {
    hide Shl, FormatOk;
    var x := f.p - 1;
    ShlAdds(e + f.bias, 1, x);
    ShlAdds(e + f.bias + 1, Shl(1, f.w), x);
    ShlShl(1, f.w, x);
    assert f.w + x == n - 1;
    ShlAdds(Shl(1, f.w), e + f.bias, x);
    var body := frac + Shl(e + f.bias, x);
    OrDisjoint(1, n - 1, body);
    OrSwap(body, Shl(1, n - 1));
  }

  lemma {:induction false} OrSwap(x: nat, y: nat)
    ensures Or(x, y) == Or(y, x)
    decreases x + y
  {
    if x > 0 && y > 0 {
      OrSwap(x / 2, y / 2);
    } else if x > 0 {
      OrZero(x);
    } else if y > 0 {
      OrZero(y);
    }
  }

  /** The bits of a magnitude that rounds within the exponents of the format. */
  method RoundedBits(f: Format, n: nat, u: nat) returns (result: nat)
    requires FormatOk(f) && n == f.w + f.p && 0 < u < Shl(1, n) && n + f.bias < Shl(1, f.w)
    ensures Rounded(f.p, u).k + f.p - 1 >= 0
    ensures result == Encoded(f, false, Rounded(f.p, u))
    ensures Or(result, Shl(1, n - 1)) == Encoded(f, true, Rounded(f.p, u))
  {
    hide *;
    FormatFacts(f);
    DigitsAtMost(u, n);
    RoundedIs(f.p, u);
    RoundedNormal(f.p, u);
    Doubles(f.p - 1);
    var sb := f.p - 1;
    var exponent := Digits(u) - 1;
    if exponent <= sb {
      var shift := sb - exponent;
      ShiftFits(u, Digits(u), shift, n);
      result := Xor(ShiftLeft(u, shift, n), Shl(1, sb));
      TopOff(f.p, Shl(u, shift));
    } else {
      var shift := exponent - sb;
      KeptNormal(f.p, u, shift);
      TopOff(f.p, Shr(u, shift));
      result := Xor(Shr(u, shift), Shl(1, sb));
      OutAtTop(u, shift, n);
      OddStays(f.p, Shr(u, shift), result);
      WhenUp(Shr(u, shift), Low(u, shift), Shl(1, shift - 1));
      var round := ShiftLeft(u, n - shift, n);
      if round > Shl(1, n - 1) {
        result := result + 1;
      }
      if round == Shl(1, n - 1) {
        OddBit(result);
        result := result + And(result, 1);
      }
    }
    Carried(f, exponent, result, Rounded(f.p, u));
    InsertExponent(f, n, result, exponent);
    result := result + Shl(exponent + f.bias, sb);
  }

  lemma WhenUp(q: nat, rem: nat, half: nat)
    ensures RoundsUp(q, rem, half) <==> rem > half || (rem == half && q % 2 == 1)
  {
  }

  lemma OddBit(x: nat)
    ensures And(x, 1) == x % 2
  {
    AndZero(x / 2);
  }

  lemma KeptNormal(p: nat, a: nat, k: nat)
    requires p > 0 && a > 0 && Digits(a) == p + k
    ensures Normal(p, Shr(a, k))
  {
    Kept(p, a, k);
  }

  lemma OddStays(p: nat, q: nat, x: nat)
    requires p >= 2 && q == x + Shl(1, p - 1)
    ensures x % 2 == q % 2
  {
    assert Shl(1, p - 1) == 2 * Shl(1, p - 2);
  }

  /** A carry out of the fraction is one more in the exponent. */
  lemma Carried(f: Format, e: nat, frac: nat, r: Scaled)
    requires FormatOk(f)
    requires r == if frac == Shl(1, f.p - 1) then Scaled(Shl(1, f.p - 1), e + 1 - (f.p - 1))
                  else Scaled(frac + Shl(1, f.p - 1), e - (f.p - 1))
    ensures Shl(e + f.bias, f.p - 1) + frac == Encoded(f, false, r)
    ensures Shl(Shl(1, f.w) + (e + f.bias), f.p - 1) + frac == Encoded(f, true, r)
  {
    ShlAdds(e + f.bias, 1, f.p - 1);
    ShlAdds(Shl(1, f.w) + (e + f.bias), 1, f.p - 1);
  }

  /** `__floatsisf` and `__floatunsisf`: an integer as wide as the float. */
  method FromWord(f: Format, n: nat, a: int) returns (bits: nat)
    requires FormatOk(f) && n == f.w + f.p && n + f.bias < Shl(1, f.w) && n <= f.bias + 1
    requires 0 - Shl(1, n - 1) <= a < Shl(1, n)
    ensures Converts(f, a, bits)
  {
    if a == 0 {
      return 0;
    }
    var sign, u := 0, a;
    if a < 0 {
      sign := Shl(1, n - 1);
      u := -a;
    }
    bits := Signed(f, n, sign, u, a);
  }

  method Signed(f: Format, n: nat, sign: nat, u: nat, ghost a: int) returns (bits: nat)
    requires FormatOk(f) && n == f.w + f.p && n + f.bias < Shl(1, f.w) && n <= f.bias + 1 && n > 0
    requires a != 0 && u == Magnitude(a) && 0 < u < Shl(1, n) && sign == if a < 0 then Shl(1, n - 1) else 0
    ensures Converts(f, a, bits)
  {
    hide *;
    FormatFacts(f);
    ShlMonotone(1, n, f.bias + 1);
    EncodedConverts(f, a);
    var result := RoundedBits(f, n, u);
    OrZero(result);
    bits := Or(result, sign);
  }

  /** No other bits will do: the conversions, however written, agree. */
  lemma ConvertsOnce(f: Format, a: int, b: nat, c: nat)
    requires FormatOk(f) && Converts(f, a, b) && Converts(f, a, c)
    ensures b == c
  {
    hide Shl, Shr, Low, Nearest, FormatOk, Overflow;
    if a != 0 {
      FormatFacts(f);
      if Magnitude(a) < Overflow(f) {
        var e, d := ExponentField(f, b) - f.bias - (f.p - 1), ExponentField(f, c) - f.bias - (f.p - 1);
        NearestIsRounded(f.p, Magnitude(a), Scaled(Shl(1, f.p - 1) + Fraction(f, b), e));
        NearestIsRounded(f.p, Magnitude(a), Scaled(Shl(1, f.p - 1) + Fraction(f, c), d));
      }
      HighLow(b, f.p - 1);
      HighLow(c, f.p - 1);
      HighLow(Shr(b, f.p - 1), f.w);
      HighLow(Shr(c, f.p - 1), f.w);
    }
  }
}
