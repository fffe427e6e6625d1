/** The size of the buffer `xar_to_base64` allocates, which it computes in single precision as
    `(((float)len) * 4 / 3) + 5`, each operation rounded to nearest with ties to even (section 4.3.1
    of IEEE 754-2019) and the result cut off to an integer. */
module Base64Size {
  import opened Words
  import opened Rounding

  // ----- a third, rounded

  /** r is at least as close to a/3 as v is, and if it is just as close but not the same number,
      r is the even one. */
  ghost predicate NoBetterThird(a: nat, r: Scaled, v: Scaled, j: nat)
    requires r.k + j >= 0 && v.k + j >= 0
  {
    && Dist(Shl(a, j), 3 * Units(r, j)) <= Dist(Shl(a, j), 3 * Units(v, j))
    && (Dist(Shl(a, j), 3 * Units(r, j)) == Dist(Shl(a, j), 3 * Units(v, j)) && Units(r, j) != Units(v, j) ==>
          r.m % 2 == 0)
  }

  /** a/3 to p digits: p + 2 more digits of a leave enough of them in the quotient. */
  function ThirdRounded(p: nat, a: nat): (r: Scaled)
    requires p > 0 && a > 0
  {
    var b := Shl(a, p + 2);
    EnoughDigits(p, a);
    var k := Digits(b / 3) - p;
    var q := Shr(b / 3, k);
    var up := RoundsUp(q, 3 * Low(b / 3, k) + b % 3, 3 * Shl(1, k - 1));
    var m := if up then q + 1 else q;
    if m == Shl(1, p) then Scaled(Shl(1, p - 1), k + 1 - (p + 2)) else Scaled(m, k - (p + 2))
  }

  lemma EnoughDigits(p: nat, a: nat)
    requires p > 0 && a > 0
    ensures Shl(a, p + 2) >= 4 * Shl(1, p) && Shl(1, p) > 0 && Digits(Shl(a, p + 2) / 3) > p
  {
    ShlAdds(1, a, p + 2);
    ShlMonotone(1, 0, p);
    assert Shl(1, p + 2) == 2 * Shl(1, p + 1) == 4 * Shl(1, p);
    DigitsAtMost(Shl(a, p + 2) / 3, p);
  }

  /** The quotient's digits that are kept, and what of a is left, in units 2^-j. */
  lemma ThirdParts(p: nat, a: nat, j: nat) returns (k: nat, q: nat, rem: nat, h: nat, up: bool)
    requires p > 0 && a > 0 && j >= p + 2
    ensures k > 0 && Shl(1, p - 1) <= q < Shl(1, p) && h == Shl(Shl(1, k - 1), j - (p + 2))
    ensures Shl(a, j) == 3 * Shl(q, k + (j - (p + 2))) + rem && rem < 6 * h
    ensures Shl(q + 1, k + (j - (p + 2))) == Shl(q, k + (j - (p + 2))) + 2 * h
    ensures up <==> rem > 3 * h || (rem == 3 * h && q % 2 == 1)
    ensures var m := if up then q + 1 else q;
      ThirdRounded(p, a) == if m == Shl(1, p) then Scaled(Shl(1, p - 1), k + 1 - (p + 2)) else Scaled(m, k - (p + 2))
  {
    hide Shl, Shr, Low, Digits;
    var b, i := Shl(a, p + 2), j - (p + 2);
    EnoughDigits(p, a);
    k := Digits(b / 3) - p;
    q := Shr(b / 3, k);
    var low := Low(b / 3, k);
    Kept(p, b / 3, k);
    var r := 3 * low + b % 3;
    rem, h := Shl(r, i), Shl(Shl(1, k - 1), i);
    var half := 3 * Shl(1, k - 1);
    up := RoundsUp(q, r, half);
    ShlShl(a, p + 2, i);
    assert p + 2 + i == j && b == 3 * Shl(q, k) + r;
    Triple(Shl(q, k), i);
    Triple(Shl(1, k - 1), i);
    ShlAdds(3 * Shl(q, k), r, i);
    ShlShl(q, k, i);
    ShlAdds(q, 1, k + i);
    Doubles(k - 1);
    ShlShl(1, k, i);
    ShlTwice(Shl(1, k - 1), i);
    ShlTwice(half, i);
    ShlAdds(r, 2 * half, i);
    ShlAdds(r, half, i);
    ShlAdds(half, r, i);
  }

  /** It is the nearest number of p digits to a/3, whatever their exponents, in units 2^-j. */
  lemma ThirdIsNearest(p: nat, a: nat, v: Scaled, j: nat)
    requires p >= 2 && a > 0 && j >= p + 2 && (v.m == 0 || Normal(p, v.m)) && v.k + j >= 0
    ensures Normal(p, ThirdRounded(p, a).m) && ThirdRounded(p, a).k + j >= 0
    ensures NoBetterThird(a, ThirdRounded(p, a), v, j)
  {
    hide Shl, ThirdRounded;
    var k, q, rem, h, up := ThirdParts(p, a, j);
    var i := j - (p + 2);
    Gap(p, q, k - (p + 2), v, j);
    Doubles(p - 1);
    Doubles(p - 2);
    if up && q + 1 == Shl(1, p) {
      ShlShl(1, p - 1, k + 1 + i);
      ShlShl(1, p, k + i);
      assert p - 1 + (k + 1 + i) == p + (k + i);
    }
  }

  // ----- the arithmetic of `xar_to_base64`

  function Single(n: nat): Scaled
    requires n > 0
  {
    Rounded(24, n)
  }

  /** The product with 4 is exact. */
  function TimesFourThirds(x: Scaled): Scaled
    requires x.m > 0
  {
    if x.k >= 0 then
      Positive(x.m, x.k);
      ThirdRounded(24, 4 * Shl(x.m, x.k))
    else
      var t := ThirdRounded(24, 4 * x.m);
      Scaled(t.m, t.k + x.k)
  }

  function PlusFive(x: Scaled): Scaled {
    if x.k >= 0 then Rounded(24, Shl(x.m, x.k) + 5)
    else
      Positive(5, 0 - x.k);
      var s := Rounded(24, x.m + Shl(5, 0 - x.k));
      Scaled(s.m, s.k + x.k)
  }

  /** The conversion to an integer. */
  function CutOff(x: Scaled): nat {
    if x.k >= 0 then Shl(x.m, x.k) else Shr(x.m, 0 - x.k)
  }

  function OutSize(len: nat): nat {
    if len == 0 then 5
    else
      SinglePositive(len);
      CutOff(PlusFive(TimesFourThirds(Single(len))))
  }

  /** What the encoding of n bytes and its end mark take. */
  function Needed(n: nat): nat { (n + 2) / 3 * 4 + 1 }

  lemma SinglePositive(n: nat)
    requires n > 0
    ensures Single(n).m > 0
  {
    RoundedIsNearest(24, n);
    Positive(1, 23);
  }

  lemma Powers()
    ensures Shl(1, 23) == 0x80_0000 && Shl(1, 24) == 0x100_0000 && Shl(1, 25) == 0x200_0000
  {
    assert Shl(1, 5) == 32;
    ShlShl(1, 5, 5);
    assert Shl(32, 5) == 1024;
    ShlShl(1, 10, 5);
    assert Shl(1024, 5) == 32768;
    ShlShl(1, 15, 5);
    assert Shl(32768, 5) == 1048576;
    ShlShl(1, 20, 3);
    assert Shl(1048576, 3) == 0x80_0000;
    Doubles(23);
    Doubles(24);
  }

  // ----- sizes below 2^24

  ghost predicate AtLeast(x: Scaled, v: nat) {
    if x.k >= 0 then Shl(x.m, x.k) >= v else x.m >= Shl(v, 0 - x.k)
  }

  lemma UnitsAtLeast(x: Scaled, v: nat, j: nat)
    requires x.k + j >= 0 && Units(x, j) >= Shl(v, j)
    ensures AtLeast(x, v)
  {
    hide Shl;
    if x.k >= 0 {
      ShlShl(x.m, x.k, j);
      ShlLess(v, Shl(x.m, x.k), j);
    } else {
      ShlShl(v, 0 - x.k, x.k + j);
      assert 0 - x.k + (x.k + j) == j;
      ShlLess(Shl(v, 0 - x.k), x.m, x.k + j);
    }
  }

  lemma CutOffAtLeast(x: Scaled, v: nat)
    requires AtLeast(x, v)
    ensures CutOff(x) >= v
  {
    hide Shl, Shr, Low;
    if x.k < 0 {
      var n, q := 0 - x.k, Shr(x.m, 0 - x.k);
      HighLow(x.m, n);
      ShlAdds(q, 1, n);
      ShlLess(q + 1, v, n);
    }
  }

  /** v, with p digits at most, in the form with p digits. */
  lemma Form(p: nat, v: nat, j: nat) returns (x: Scaled)
    requires p > 0 && 0 < v < Shl(1, p)
    ensures Normal(p, x.m) && x.k + p >= 0 && (j >= p ==> Units(x, j) == Shl(v, j))
  {
    hide Shl;
    DigitsAtMost(v, p);
    ExactNormal(p, v);
    var n := p - Digits(v);
    x := Scaled(Shl(v, n), 0 - n);
    if j >= p {
      ShlShl(v, n, j - n);
      assert n + (j - n) == j;
    }
  }

  /** Rounding does not take a number past another that needs no rounding. */
  lemma RoundedAtLeast(p: nat, a: nat, w: nat, e: nat, k: int)
    requires p >= 2 && a > 0 && 0 < w < Shl(1, p) && a >= Shl(w, e) && 0 <= e + k
    ensures AtLeast(Scaled(Rounded(p, a).m, Rounded(p, a).k + k), Shl(w, e + k))
  {
    hide Shl, Rounded;
    var r := Rounded(p, a);
    var j: nat := p + (if r.k < 0 then 0 - r.k else 0) + (if k < 0 then 0 - k else k) + e;
    var x := Form(p, w, j + e);
    var v := Scaled(x.m, x.k + e);
    RoundedIsNearest(p, a);
    assert NoBetter(a, r, v, j);
    ShlShl(w, e, j);
    assert e + j == j + e;
    ShlLess(Shl(w, e), a, j);
    var y := Scaled(r.m, r.k + k);
    ShlShl(w, e + k, j - k);
    assert e + k + (j - k) == e + j;
    UnitsAtLeast(y, Shl(w, e + k), j - k);
  }

  lemma ThirdAtLeast(p: nat, a: nat, w: nat, e: nat)
    requires p >= 2 && a > 0 && 0 < w < Shl(1, p) && a >= 3 * Shl(w, e)
    ensures var t := ThirdRounded(p, a); AtLeast(Scaled(t.m, t.k - e), w)
  {
    hide Shl, ThirdRounded;
    var t := ThirdRounded(p, a);
    var j: nat := 2 * p + 2;
    var x := Form(p, w, j + e);
    var v := Scaled(x.m, x.k + e);
    ThirdIsNearest(p, a, v, j);
    ShlShl(w, e, j);
    assert e + j == j + e;
    ShlLess(3 * Shl(w, e), a, j);
    Triple(Shl(w, e), j);
    assert Units(t, j) >= Shl(w, e + j);
    UnitsAtLeast(Scaled(t.m, t.k - e), w, j + e);
  }

  lemma ThirdPart(n: nat) returns (t: Scaled)
    requires 0 < n && 4 * n / 3 < 0x100_0000
    ensures Single(n).m > 0 && t == TimesFourThirds(Single(n)) && AtLeast(t, 4 * n / 3)
  {
    hide Shl, ThirdRounded, Rounded, Digits;
    Powers();
    DigitsAtMost(n, 24);
    ExactNormal(24, n);
    Positive(1, 23);
    var x, e, f := Single(n), 24 - Digits(n), 4 * n / 3;
    ShlZero(x.m);
    t := TimesFourThirds(x);
    FourTimes(n, e);
    ShlLess(3 * f, 4 * n, e);
    Triple(f, e);
    ThirdAtLeast(24, 4 * x.m, f, e);
    var u := ThirdRounded(24, 4 * x.m);
    assert t == Scaled(u.m, u.k - e);
  }

  lemma SumAtLeast(t: Scaled, f: nat)
    requires AtLeast(t, f) && f < 0x100_0000
    ensures AtLeast(PlusFive(t), (f + 5) / 2 * 2)
  {
    hide Shl, Rounded;
    Powers();
    var w := (f + 5) / 2;
    ShlZero(w);
    if t.k >= 0 {
      RoundedAtLeast(24, Shl(t.m, t.k) + 5, w, 1, 0);
    } else {
      var n := 0 - t.k;
      ShlAdds(f, 5, n);
      ShlLess(2 * w, f + 5, n);
      ShlShl(w, 1, n);
      assert 1 + n == n + 1;
      Positive(5, n);
      RoundedAtLeast(24, t.m + Shl(5, n), w, n + 1, t.k);
    }
  }

  lemma SmallFits(n: nat)
    requires 4 * n / 3 < 0x100_0000
    ensures OutSize(n) >= Needed(n)
  {
    hide Shl, Rounded, TimesFourThirds, PlusFive, CutOff, AtLeast;
    if n > 0 {
      SinglePositive(n);
      var t := ThirdPart(n);
      SumAtLeast(t, 4 * n / 3);
      CutOffAtLeast(PlusFive(t), (4 * n / 3 + 5) / 2 * 2);
    }
  }
}
