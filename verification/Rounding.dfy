/** Rounding a positive integer to p significant digits: to nearest, ties to even
    (IEEE 754-2019, section 4.3.1), and the sticky-bit way the conversions do it. */
module Rounding {
  import opened Words

  /** The number m * 2^k. */
  datatype Scaled = Scaled(m: nat, k: int)

  predicate Normal(p: nat, m: nat)
    requires p > 0
  {
    Shl(1, p - 1) <= m < Shl(1, p)
  }

  /** The number x, in units of 2^-j. */
  function Units(x: Scaled, j: nat): nat
    requires x.k + j >= 0
  {
    Shl(x.m, x.k + j)
  }

  function Dist(x: nat, y: nat): nat { if x <= y then y - x else x - y }

  /** r is at least as close to a as v is, and if it is just as close but not the same
      number, r is the even one. */
  ghost predicate NoBetter(a: nat, r: Scaled, v: Scaled, j: nat)
    requires r.k + j >= 0 && v.k + j >= 0
  {
    && Dist(Shl(a, j), Units(r, j)) <= Dist(Shl(a, j), Units(v, j))
    && (Dist(Shl(a, j), Units(r, j)) == Dist(Shl(a, j), Units(v, j)) && Units(r, j) != Units(v, j) ==> r.m % 2 == 0)
  }

  /** Of all numbers with p significant digits, whatever their exponent, r is the one that
      a is rounded to. */
  ghost predicate Nearest(p: nat, a: nat, r: Scaled)
    requires p > 0
  {
    && Normal(p, r.m)
    && forall v: Scaled, j: nat :: (v.m == 0 || Normal(p, v.m)) && r.k + j >= 0 && v.k + j >= 0 ==> NoBetter(a, r, v, j)
  }

  function RoundsUp(q: nat, rem: nat, half: nat): bool { rem > half || (rem == half && q % 2 == 1) }

  function Rounded(p: nat, a: nat): Scaled
    requires p > 0 && a > 0
  {
    var d := Digits(a);
    DigitsBound(a);
    if d <= p then Scaled(Shl(a, p - d), d - p)
    else
      var k := d - p;
      var q := Shr(a, k);
      var r := if RoundsUp(q, Low(a, k), Shl(1, k - 1)) then q + 1 else q;
      if r == Shl(1, p) then Scaled(Shl(1, p - 1), k + 1) else Scaled(r, k)
  }

  /** No number with p digits lies between two multiples of the last place. */
  lemma Gap(p: nat, q: nat, k: int, v: Scaled, j: nat)
    requires p > 0 && q >= Shl(1, p - 1) && (v.m == 0 || Normal(p, v.m)) && v.k + j >= 0 && k + j >= 0
    ensures Units(v, j) <= Shl(q, k + j) || Units(v, j) >= Shl(q + 1, k + j)
  {
    if v.k >= k {
      var t := Shl(v.m, v.k - k);
      ShlShl(v.m, v.k - k, k + j);
      if t <= q {
        ShlAdds(t, q, k + j);
      } else {
        ShlAdds(q + 1, t, k + j);
      }
    } else {
      ShlAdds(v.m, Shl(1, p), v.k + j);
      ShlAdds(0, Shl(1, p), v.k + j);
      ShlShl(1, p, v.k + j);
      ShlMonotone(1, p + (v.k + j), p - 1 + (k + j));
      ShlShl(1, p - 1, k + j);
      ShlAdds(Shl(1, p - 1), q, k + j);
    }
  }

  /** The digits kept: p of them. */
  lemma Kept(p: nat, a: nat, k: nat)
    requires p > 0 && a > 0 && Digits(a) == p + k
    ensures Shl(1, p - 1) <= Shr(a, k) < Shl(1, p)
    ensures a == Shl(Shr(a, k), k) + Low(a, k) && Low(a, k) < Shl(1, k)
  {
    hide Shl, Shr, Low, Digits;
    DigitsBound(a);
    HighLow(a, k);
    var q := Shr(a, k);
    ShlShl(1, p - 1, k);
    ShlShl(1, p, k);
    if q < Shl(1, p - 1) {
      ShlAdds(q + 1, Shl(1, p - 1), k);
      ShlAdds(q, 1, k);
    }
    if q >= Shl(1, p) {
      ShlAdds(Shl(1, p), q, k);
    }
  }

  /** Distances to the two neighbours, in units of 2^-j. */
  lemma Sides(a: nat, q: nat, rem: nat, k: nat, j: nat)
    requires k > 0 && a == Shl(q, k) + rem && rem < Shl(1, k)
    ensures Shl(a, j) == Shl(q, k + j) + Shl(rem, j) && Shl(q + 1, k + j) == Shl(q, k + j) + Shl(1, k + j)
    ensures Shl(1, k + j) == 2 * Shl(Shl(1, k - 1), j) && Shl(rem, j) < Shl(1, k + j)
    ensures rem < Shl(1, k - 1) ==> Shl(rem, j) < Shl(Shl(1, k - 1), j)
    ensures rem == Shl(1, k - 1) ==> Shl(rem, j) == Shl(Shl(1, k - 1), j)
    ensures rem > Shl(1, k - 1) ==> Shl(rem, j) > Shl(Shl(1, k - 1), j)
  {
    ShlAdds(Shl(q, k), rem, j);
    ShlShl(q, k, j);
    ShlAdds(q, 1, k + j);
    ShlShl(1, k - 1, j);
    ShlShl(1, k, j);
    ShlAdds(rem, Shl(1, k), j);
    ShlAdds(rem, Shl(1, k - 1), j);
    ShlAdds(Shl(1, k - 1), rem, j);
  }

  lemma RoundedValue(p: nat, a: nat, k: nat, j: nat)
    requires p > 0 && a > 0 && k > 0 && Digits(a) == p + k
    ensures var up := RoundsUp(Shr(a, k), Low(a, k), Shl(1, k - 1));
      var r := Rounded(p, a);
      && Normal(p, r.m) && r.k + j >= 0
      && Units(r, j) == Shl(Shr(a, k) + (if up then 1 else 0), k + j)
      && (r.m % 2 == (Shr(a, k) + (if up then 1 else 0)) % 2 || (up && r.k == k + 1 && r.m == Shl(1, p - 1)))
  {
    Kept(p, a, k);
    var q := Shr(a, k);
    var r := Rounded(p, a);
    if r.k == k + 1 {
      ShlShl(1, p - 1, k + 1 + j);
      ShlShl(1, p, k + j);
      ShlMonotone(1, 0, p - 1);
    }
  }

  /** The rounding is the one the standard asks for. */
  lemma RoundedIsNearest(p: nat, a: nat)
    requires p >= 2 && a > 0
    ensures Nearest(p, a, Rounded(p, a))
  {
    var r := Rounded(p, a);
    DigitsBound(a);
    if Digits(a) <= p {
      ExactIsNearest(p, a);
    } else {
      var k := Digits(a) - p;
      RoundedValue(p, a, k, 0);
      forall v: Scaled, j: nat | (v.m == 0 || Normal(p, v.m)) && r.k + j >= 0 && v.k + j >= 0
        ensures NoBetter(a, r, v, j)
      {
        RoundedNoWorse(p, a, k, v, j);
      }
    }
  }

  lemma ExactNormal(p: nat, a: nat)
    requires p > 0 && a > 0 && Digits(a) <= p
    ensures Rounded(p, a) == Scaled(Shl(a, p - Digits(a)), Digits(a) - p) && Normal(p, Shl(a, p - Digits(a)))
  {
    hide Shl, Shr, Low, Digits;
    var d := Digits(a);
    DigitsBound(a);
    ShlShl(1, d - 1, p - d);
    ShlShl(1, d, p - d);
    ShlAdds(Shl(1, d - 1), a, p - d);
    ShlAdds(a, Shl(1, d), p - d);
  }

  lemma ExactIsNearest(p: nat, a: nat)
    requires p > 0 && a > 0 && Digits(a) <= p
    ensures Nearest(p, a, Rounded(p, a))
  {
    hide Shl, Digits, NoBetter, Rounded;
    var n, r := p - Digits(a), Rounded(p, a);
    ExactNormal(p, a);
    forall v: Scaled, j: nat | (v.m == 0 || Normal(p, v.m)) && r.k + j >= 0 && v.k + j >= 0
      ensures NoBetter(a, r, v, j)
    {
      ExactNoWorse(a, n, r, v, j);
    }
  }

  lemma ExactNoWorse(a: nat, n: nat, r: Scaled, v: Scaled, j: nat)
    requires r == Scaled(Shl(a, n), 0 - n) && r.k + j >= 0 && v.k + j >= 0
    ensures NoBetter(a, r, v, j)
  {
    hide Shl;
    ShlShl(a, n, r.k + j);
    assert n + (r.k + j) == j;
  }

  lemma RoundedNoWorse(p: nat, a: nat, k: nat, v: Scaled, j: nat)
    requires p >= 2 && a > 0 && k > 0 && Digits(a) == p + k && (v.m == 0 || Normal(p, v.m)) && v.k + j >= 0
    requires Rounded(p, a).k + j >= 0
    ensures NoBetter(a, Rounded(p, a), v, j)
  {
    hide Shl, Shr, Low, Digits, Rounded;
    var q, rem := Shr(a, k), Low(a, k);
    RoundedValue(p, a, k, j);
    Kept(p, a, k);
    Sides(a, q, rem, k, j);
    Gap(p, q, k, v, j);
    Doubles(p - 2);
  }

  /** A number has only one form with p digits. */
  lemma SameForm(p: nat, r: Scaled, v: Scaled, j: nat)
    requires p > 0 && Normal(p, r.m) && Normal(p, v.m) && r.k + j >= 0 && v.k + j >= 0
    requires Units(r, j) == Units(v, j)
    ensures r == v
  {
    if r.k < v.k {
      Larger(p, r.m, r.k + j, v.m, v.k + j);
    } else if v.k < r.k {
      Larger(p, v.m, v.k + j, r.m, r.k + j);
    } else {
      ShlAdds(r.m, v.m, r.k + j);
      ShlAdds(v.m, r.m, r.k + j);
    }
  }

  lemma Larger(p: nat, m: nat, x: nat, m': nat, y: nat)
    requires p > 0 && Normal(p, m) && Normal(p, m') && x < y
    ensures Shl(m, x) < Shl(m', y)
  {
    ShlAdds(m, Shl(1, p), x);
    ShlShl(1, p, x);
    ShlMonotone(1, p + x, p - 1 + y);
    ShlShl(1, p - 1, y);
    ShlAdds(Shl(1, p - 1), m', y);
  }

  /** Nothing else is nearest: the rounding is determined. */
  lemma NearestIsRounded(p: nat, a: nat, v: Scaled)
    requires p >= 2 && a > 0 && Nearest(p, a, v)
    ensures v == Rounded(p, a)
  {
    var r := Rounded(p, a);
    RoundedIsNearest(p, a);
    var j: nat := (if r.k < 0 then 0 - r.k else 0) + (if v.k < 0 then 0 - v.k else 0);
    assert NoBetter(a, r, v, j) && NoBetter(a, v, r, j);
    if Digits(a) <= p {
      ExactForm(p, a, r, v, j);
    } else {
      RoundedForm(p, a, Digits(a) - p, v, j);
    }
  }

  lemma ExactForm(p: nat, a: nat, r: Scaled, v: Scaled, j: nat)
    requires p >= 2 && a > 0 && Digits(a) <= p && r == Rounded(p, a) && Normal(p, r.m) && Normal(p, v.m)
    requires r.k + j >= 0 && v.k + j >= 0 && NoBetter(a, v, r, j)
    ensures r == v
  {
    hide Shl;
    ExactNormal(p, a);
    ShlShl(a, p - Digits(a), r.k + j);
    assert p - Digits(a) + (r.k + j) == j;
    SameForm(p, r, v, j);
  }

  lemma RoundedForm(p: nat, a: nat, k: nat, v: Scaled, j: nat)
    requires p >= 2 && a > 0 && k > 0 && Digits(a) == p + k && Normal(p, v.m) && v.k + j >= 0
    requires Rounded(p, a).k + j >= 0 && NoBetter(a, Rounded(p, a), v, j) && NoBetter(a, v, Rounded(p, a), j)
    ensures v == Rounded(p, a)
  {
    var q, rem, r := Shr(a, k), Low(a, k), Rounded(p, a);
    RoundedValue(p, a, k, j);
    Kept(p, a, k);
    Sides(a, q, rem, k, j);
    Gap(p, q, k, v, j);
    assert Shl(1, p) == 2 * Shl(1, p - 1);
    TieForm(p, a, q, rem, k, r, v, j);
    SameForm(p, r, v, j);
  }

  /** At a tie the odd neighbour is not nearest. */
  lemma TieForm(p: nat, a: nat, q: nat, rem: nat, k: nat, r: Scaled, v: Scaled, j: nat)
    requires p >= 2 && k > 0 && Normal(p, q) && Normal(p, v.m) && v.k + j >= 0 && r.k + j >= 0
    requires Shl(1, p) == 2 * Shl(1, p - 1)
    requires Units(v, j) <= Shl(q, k + j) || Units(v, j) >= Shl(q + 1, k + j)
    requires Shl(a, j) == Shl(q, k + j) + Shl(rem, j) && Shl(q + 1, k + j) == Shl(q, k + j) + Shl(1, k + j)
    requires Shl(1, k + j) == 2 * Shl(Shl(1, k - 1), j) && Shl(rem, j) < Shl(1, k + j)
    requires rem < Shl(1, k - 1) ==> Shl(rem, j) < Shl(Shl(1, k - 1), j)
    requires rem > Shl(1, k - 1) ==> Shl(rem, j) > Shl(Shl(1, k - 1), j)
    requires Units(r, j) == Shl(q + (if RoundsUp(q, rem, Shl(1, k - 1)) then 1 else 0), k + j)
    requires NoBetter(a, r, v, j) && NoBetter(a, v, r, j)
    ensures Units(r, j) == Units(v, j)
  {
    hide Shl;
    if Units(v, j) == Shl(q, k + j) {
      SameForm(p, v, Scaled(q, k), j);
    } else if Units(v, j) == Shl(q + 1, k + j) && q + 1 < Shl(1, p) {
      SameForm(p, v, Scaled(q + 1, k), j);
    }
  }
}
