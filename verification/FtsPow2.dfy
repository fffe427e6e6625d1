/** `fts_pow2`: the next power of two, by spreading the highest bit over all below it. */
module FtsPow2 {
  import opened Words
  import FtsSeen

  lemma OrHalf(x: nat, y: nat)
    ensures Or(x, y) / 2 == Or(x / 2, y / 2)
  {
  }

  lemma {:induction false} ShrOr(x: nat, y: nat, n: nat)
    ensures Shr(Or(x, y), n) == Or(Shr(x, n), Shr(y, n))
    decreases n
  {
    if n > 0 {
      hide Or;
      OrHalf(x, y);
      ShrOr(x / 2, y / 2, n - 1);
    }
  }

  /** Or-ing ones over the low bits. */
  lemma {:induction false} OrOnes(hi: nat, m: nat, lo: nat)
    requires lo < Shl(1, m)
    ensures Or(Shl(hi, m) + lo, Shl(1, m) - 1) == Shl(hi, m) + Shl(1, m) - 1
    decreases m
  {
    if m == 0 {
      OrZero(hi);
    } else {
      assert Shl(1, m) == 2 * Shl(1, m - 1) && Shl(hi, m) == 2 * Shl(hi, m - 1);
      OrOnes(hi, m - 1, lo / 2);
      assert (Shl(hi, m) + lo) / 2 == Shl(hi, m - 1) + lo / 2 && (Shl(1, m) - 1) / 2 == Shl(1, m - 1) - 1;
    }
  }

  /** The m highest of d bits are ones. */
  ghost predicate TopOnes(x: nat, d: nat, m: nat)
  {
    m <= d && Shl(1, m) >= 1 && Shr(x, d - m) == Shl(1, m) - 1
  }

  /** One spreading step doubles them. */
  lemma Spread(x: nat, d: nat, m: nat)
    requires x < Shl(1, d) && TopOnes(x, d, m)
    ensures Or(x, Shr(x, m)) < Shl(1, d)
    ensures TopOnes(Or(x, Shr(x, m)), d, if 2 * m <= d then 2 * m else d)
  {
    var y := Or(x, Shr(x, m));
    var e := if 2 * m <= d then d - 2 * m else 0;
    var a := Shr(x, e);
    ShrOr(x, Shr(x, m), e);
    ShrShr(x, m, e);
    Above(x, d, m, e);
    Fits(x, d, m);
  }

  /** The highest bits of x or-ed with those of x shifted: all ones. */
  lemma Above(x: nat, d: nat, m: nat, e: nat)
    requires x < Shl(1, d) && TopOnes(x, d, m) && m <= d && e == if 2 * m <= d then d - 2 * m else 0
    ensures Shl(1, d - e) >= 1 && Or(Shr(x, e), Shr(x, m + e)) == Shl(1, d - e) - 1
  {
    hide Shl, Shr, Or;
    var k := d - m - e;
    var a := Shr(x, e);
    ShrShr(x, e, k);
    HighLow(a, k);
    assert Shr(a, k) == Shl(1, m) - 1;
    ShlShl(1, m, k);
    ShlAdds(Shl(1, m) - 1, 1, k);
    ShlMonotone(1, 0, d - e);
    ShlMonotone(1, 0, k);
    if 2 * m <= d {
      OrOnes(Shl(1, m) - 1, m, Low(a, k));
    } else {
      ShrShr(x, d - m, k);
      Reaches(x, d, m);
      OrOnes(Shl(1, m) - 1, k, Low(a, k));
    }
  }

  /** Past the middle, the shifted ones cover all that is left. */
  lemma Reaches(x: nat, d: nat, m: nat)
    requires x < Shl(1, d) && TopOnes(x, d, m) && m <= d < 2 * m
    ensures Shr(x, m) == Shl(1, d - m) - 1 && Shl(1, d - m) >= 1
  {
    hide Shl, Shr;
    var n := d - m;
    ShrShr(x, n, m - n);
    assert n + (m - n) == m;
    ShlMonotone(1, 0, n);
    MaskIs(m, m - n);
    assert m - (m - n) == n;
  }

  lemma Fits(x: nat, d: nat, m: nat)
    requires x < Shl(1, d)
    ensures Or(x, Shr(x, m)) < Shl(1, d)
  {
    ShrSmaller(x, m);
    OrFits(x, Shr(x, m), d);
  }

  lemma {:induction false} ShrSmaller(x: nat, m: nat)
    ensures Shr(x, m) <= x
    decreases m
  {
    if m > 0 {
      ShrSmaller(x / 2, m - 1);
    }
  }

  lemma {:induction false} OrFits(x: nat, y: nat, d: nat)
    requires x < Shl(1, d) && y < Shl(1, d)
    ensures Or(x, y) < Shl(1, d)
    decreases d
  {
    if d > 0 {
      OrFits(x / 2, y / 2, d - 1);
    }
  }

  /** The highest bit alone. */
  lemma TopOne(x: nat)
    requires x > 0
    ensures Digits(x) >= 1 && x < Shl(1, Digits(x)) && TopOnes(x, Digits(x), 1)
  {
    var d := Digits(x);
    DigitsBound(x);
    HighLow(x, d - 1);
    var q := Shr(x, d - 1);
    if q == 0 {
      ShlAdds(0, 0, d - 1);
    } else if q > 1 {
      ShlAdds(2, q, d - 1);
      ShlTwice(1, d - 1);
    }
    assert Shl(1, 1) == 2;
  }

  /** Of d bits, the s highest are ones, or all are. */
  ghost predicate Spreading(x: nat, d: nat, s: nat) {
    Shl(1, d) >= 1 && x < Shl(1, d) && if s < d then TopOnes(x, d, s) else x == Shl(1, d) - 1
  }

  lemma Starts(x: nat)
    ensures Spreading(x, Digits(x), 1)
  {
    if x > 0 {
      TopOne(x);
    }
  }

  lemma Step(x: nat, d: nat, s: nat)
    requires Spreading(x, d, s)
    ensures Spreading(Or(x, Shr(x, s)), d, 2 * s)
  {
    if s < d {
      Spread(x, d, s);
    } else {
      ShlMonotone(1, d, s);
      LowAll(x, s);
      OrZero(x);
    }
  }

  /** `fts_pow2`, on words of 64 bits. */
  method Pow2(x0: nat) returns (x: nat)
    requires 0 < x0 && Digits(x0 - 1) <= 63
    ensures x == Shl(1, Digits(x0 - 1))
  {
    hide *;
    x := x0 - 1;
    ghost var d := Digits(x);
    Starts(x);
    Step(x, d, 1);
    x := Or(x, Shr(x, 1));
    Step(x, d, 2);
    x := Or(x, Shr(x, 2));
    Step(x, d, 4);
    x := Or(x, Shr(x, 4));
    Step(x, d, 8);
    x := Or(x, Shr(x, 8));
    Step(x, d, 16);
    x := Or(x, Shr(x, 16));
    Step(x, d, 32);
    x := Or(x, Shr(x, 32));
    AllOnes(x, d);
    x := Low(x + 1, 64);
  }

  lemma AllOnes(x: nat, d: nat)
    requires Spreading(x, d, 64) && d <= 63
    ensures x + 1 == Shl(1, d) && Low(x + 1, 64) == x + 1
  {
    ShlMonotone(1, d, 63);
    LowAll(x + 1, 64);
  }

  /** It is the smallest power of two that is not less. */
  lemma Pow2IsNext(x: nat, k: nat)
    requires x > 0
    ensures x <= Shl(1, Digits(x - 1)) && (x <= Shl(1, k) ==> Shl(1, Digits(x - 1)) <= Shl(1, k))
  {
    DigitsAtMost(x - 1, Digits(x - 1));
    DigitsAtMost(x - 1, k);
    if x <= Shl(1, k) {
      ShlMonotone(1, Digits(x - 1), k);
    }
  }

  /** And so the size that doubling from 1 comes to. */
  lemma {:induction false} Pow2IsRoundUp(x: nat, k: nat)
    requires x > 0 && k <= Digits(x - 1)
    ensures Shl(1, k) > 0 && FtsSeen.RoundUp(x, Shl(1, k)) == Shl(1, Digits(x - 1))
    decreases Digits(x - 1) - k
  {
    hide Shl, Digits;
    Doubled(k);
    DigitsAtMost(x - 1, k);
    if k < Digits(x - 1) {
      Pow2IsRoundUp(x, k + 1);
    }
  }

  lemma Doubled(k: nat)
    ensures Shl(1, k) > 0 && Shl(1, k + 1) == 2 * Shl(1, k)
  {
    ShlMonotone(1, 0, k);
  }
}
