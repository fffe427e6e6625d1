/** When the buffer that `xar_to_base64` allocates is large enough, for every length: between one
    power of two or three times one and the next, that only depends on what is left of the length
    after a certain multiple of three. */
module Base64Bands {
  import opened Base64Size
  import opened Rounding
  import opened Words

  // ----- rounding to a place

  /** How many of its digits a float cannot hold. */
  function Place(v: nat): nat { if Digits(v) > 24 then Digits(v) - 24 else 0 }

  /** How many times 2^k goes into v, to the nearest, ties to even. */
  function Quotient(v: nat, k: nat): nat {
    if RoundsUp(Shr(v, k), 2 * Low(v, k), Shl(1, k)) then Shr(v, k) + 1 else Shr(v, k)
  }

  function Near(v: nat, k: nat): nat { Shl(Quotient(v, k), k) }

  lemma PlaceBound(v: nat)
    requires v >= 0x80_0000
    ensures Shl(0x80_0000, Place(v)) <= v < Shl(0x100_0000, Place(v)) && Digits(v) == 24 + Place(v)
    ensures 0x80_0000 <= Shr(v, Place(v)) < 0x100_0000
  {
    hide Shl, Shr, Low, Digits;
    Powers();
    DigitsAtMost(v, 23);
    Kept(24, v, Place(v));
    DigitsBound(v);
    ShlShl(1, 23, Place(v));
    ShlShl(1, 24, Place(v));
  }

  lemma PlaceIs(v: nat, k: nat)
    requires Shl(0x80_0000, k) <= v < Shl(0x100_0000, k)
    ensures v >= 0x80_0000 && Place(v) == k
  {
    hide Shl, Digits;
    Powers();
    ShlMonotone(0x80_0000, 0, k);
    ShlZero(0x80_0000);
    ShlShl(1, 23, k);
    ShlShl(1, 24, k);
    DigitsAtMost(v, 23 + k);
    DigitsAtMost(v, 24 + k);
  }

  /** Rounding to 24 digits rounds to that place. */
  lemma RoundedIsNear(v: nat)
    requires v >= 0x80_0000
    ensures var r := Rounded(24, v);
      r.m > 0 && r.k >= 0 && Shl(r.m, r.k) == Near(v, Place(v))
  {
    hide Shl, Shr, Low, Digits;
    Powers();
    PlaceBound(v);
    var k := Place(v);
    var q := Quotient(v, k);
    if k == 0 {
      ShlZero(v);
      ShlZero(1);
      Unshifted(v);
    } else {
      Doubles(k - 1);
      ShlShl(1, 23, k + 1);
      ShlShl(1, 24, k);
      assert 23 + (k + 1) == 24 + k;
    }
  }

  lemma Unshifted(v: nat)
    ensures Shr(v, 0) == v && Low(v, 0) == 0 && Quotient(v, 0) == v
  {
  }

  lemma RoundsShift(q: nat, c: nat, rem: nat, half: nat)
    ensures RoundsUp(2 * c + q, rem, half) == RoundsUp(q, rem, half)
  {
  }

  /** An even number of units more is as many more after rounding. */
  lemma NearShift(v: nat, c: nat, k: nat)
    ensures Quotient(Shl(2 * c, k) + v, k) == 2 * c + Quotient(v, k)
    ensures Near(Shl(2 * c, k) + v, k) == Shl(2 * c, k) + Near(v, k)
  {
    hide Shl, Shr, Low, RoundsUp;
    HighLow(v, k);
    ShlAdds(2 * c, Shr(v, k), k);
    HighLowIs(Shl(2 * c, k) + v, k, 2 * c + Shr(v, k), Low(v, k));
    RoundsShift(Shr(v, k), c, 2 * Low(v, k), Shl(1, k));
    ShlAdds(2 * c, Quotient(v, k), k);
  }

  lemma NearSmall(m: nat, d: nat, k: nat)
    requires 2 * d < Shl(1, k)
    ensures Near(Shl(m, k) + d, k) == Shl(m, k)
  {
    hide Shl, Shr, Low;
    HighLowIs(Shl(m, k) + d, k, m, d);
  }

  // ----- the size of the buffer

  /** A third of 4q to the nearest, or of 2q. It is never as near to another. */
  function Thirds(q: nat, wide: bool): nat { if wide then (4 * q + 3) / 6 else (8 * q + 3) / 6 }

  /** A third of four times q * 2^a, in units of 2^a or of 2^(a + 1). */
  function Product(q: nat, a: nat, wide: bool): nat { Shl(Thirds(q, wide), if wide then a + 1 else a) }

  /** A third of four times the length takes a digit more than the length. */
  predicate Wide(n: nat) { Shr(n, Place(n)) >= 0xC0_0000 }

  lemma ThirdsIs(q: nat, wide: bool)
    ensures var w, m := if wide then 2 * q else 4 * q, Thirds(q, wide);
      3 * m <= w + 1 && w <= 3 * m + 1
    ensures 0xC0_0000 <= q <= 0x100_0000 && wide ==> 0x80_0000 <= Thirds(q, wide) < 0x100_0000
    ensures 0x80_0000 <= q <= 0xC0_0000 && !wide ==> 0x80_0000 < Thirds(q, wide) <= 0x100_0000
    ensures 0x80_0000 <= q < 0xC0_0000 && !wide ==> Thirds(q, wide) < 0x100_0000
  {
  }

  /** A third of w and m are within a third of a unit; in units of 2^-j. */
  lemma CloseBy(w: nat, m: nat, b: nat, j: nat)
    requires 3 * m <= w + 1 && w <= 3 * m + 1
    ensures Shl(1, b + j) > 0 && Dist(Shl(Shl(w, b), j), 3 * Shl(m, b + j)) <= Shl(1, b + j)
    ensures 3 * m <= w ==> 3 * Shl(m, b + j) <= Shl(Shl(w, b), j)
    ensures w <= 3 * m ==> Shl(Shl(w, b), j) <= 3 * Shl(m, b + j)
  {
    hide Shl;
    Positive(1, b + j);
    ShlShl(w, b, j);
    Triple(m, b + j);
    ShlAdds(w, 1, b + j);
    ShlAdds(3 * m, 1, b + j);
    ShlLess(3 * m, w + 1, b + j);
    ShlLess(w, 3 * m + 1, b + j);
    ShlLess(3 * m, w, b + j);
    ShlLess(w, 3 * m, b + j);
  }

  /** No other number with 24 digits is as near to a third of w. */
  lemma ThirdIs(w: nat, m: nat, b: nat)
    requires 0 < w && 0x80_0000 <= m <= 0x100_0000 && 3 * m <= w + 1 && w <= 3 * m + 1
    requires m == 0x80_0000 ==> 3 * m <= w
    ensures Shl(w, b) > 0
    ensures ThirdRounded(24, Shl(w, b)) == if m == 0x100_0000 then Scaled(0x80_0000, b + 1) else Scaled(m, b)
  {
    hide Shl, ThirdRounded;
    Powers();
    Positive(w, b);
    var v, j := if m == 0x100_0000 then Scaled(0x80_0000, b + 1) else Scaled(m, b), 26;
    var r := ThirdRounded(24, Shl(w, b));
    assert Units(v, j) == Shl(m, b + j) by {
      ShlZero(0x80_0000);
      ShlShl(0x80_0000, 1, b + j);
      assert 1 + (b + j) == b + 1 + j;
    }
    ThirdIsNearest(24, Shl(w, b), v, j);
    CloseBy(w, m, b, j);
    Gap(24, m, b, r, j);
    ShlAdds(m, 1, b + j);
    if 3 * m > w {
      Gap(24, m - 1, b, r, j);
      ShlAdds(m - 1, 1, b + j);
    }
    SameForm(24, r, v, j);
  }

  /** The three roundings, on integers. */
  lemma ClosedForm(n: nat)
    requires 0xC0_0000 <= n
    ensures var y := Product(Quotient(n, Place(n)), Place(n), Wide(n));
      OutSize(n) == Near(y + 5, Place(y + 5)) && y >= 0x80_0000
  {
    hide Shl, Shr, Low, Digits, Rounded, ThirdRounded, Near, Thirds, Quotient, Place;
    var a, wide := Place(n), Wide(n);
    var q := Quotient(n, a);
    QuotientBound(n);
    RoundedIsNear(n);
    IsNear(n, a);
    ThirdsIs(q, wide);
    var w, m, b := if wide then 2 * q else 4 * q, Thirds(q, wide), if wide then a + 1 else a;
    ShlTwice(q, a);
    FourTimes(q, a);
    ShlNext(2 * q, a);
    assert Shl(w, b) == 4 * Shl(q, a);
    ThirdIs(w, m, b);
    ShlZero(0x80_0000);
    ShlShl(0x80_0000, 1, b);
    assert 1 + b == b + 1;
    var y := Shl(m, b);
    ShlMonotone(m, 0, b);
    ShlZero(m);
    RoundedIsNear(y + 5);
  }

  lemma IsNear(v: nat, k: nat)
    ensures Near(v, k) == Shl(Quotient(v, k), k)
  {
  }

  lemma ShlNext(x: nat, n: nat)
    ensures Shl(x, n + 1) == 2 * Shl(x, n)
  {
  }

  lemma QuotientBound(n: nat)
    requires 0x80_0000 <= n
    ensures var q := Quotient(n, Place(n));
      if Wide(n) then 0xC0_0000 <= q <= 0x100_0000 else 0x80_0000 <= q <= 0xC0_0000
  {
    hide Shl, Shr, Low, Place;
    PlaceBound(n);
  }

  // ----- what is left after a multiple of 3 * 2^(a + 1)

  /** How often that goes into n. */
  function Rounds(n: nat, a: nat): nat { Shr(n, a) / 6 }

  function Residue(n: nat, a: nat): nat { Shl(Shr(n, a) % 6, a) + Low(n, a) }

  lemma ResidueIs(n: nat, a: nat)
    ensures n == Shl(6 * Rounds(n, a), a) + Residue(n, a)
    ensures Shr(Residue(n, a), a) == Shr(n, a) % 6 && Residue(n, a) < Shl(6, a)
  {
    hide Shl, Shr, Low;
    HighLow(n, a);
    var t, h := Shr(n, a) / 6, Shr(n, a) % 6;
    ShlAdds(6 * t, h, a);
    HighLowIs(Residue(n, a), a, h, Low(n, a));
    ShlAdds(h, 1, a);
    ShlLess(h + 1, 6, a);
  }

  /** The size of the buffer for what is left, as long as adding 5 takes no digit more. */
  function SizeAt(r: nat, a: nat, wide: bool): nat {
    Near(Product(Quotient(r, a), a, wide) + 5, if wide then a + 1 else a)
  }

  /** All of it moves by the same amount. */
  lemma Shifted(n: nat, a: nat, wide: bool, k: nat)
    requires a <= k <= a + 1 && (wide ==> k == a + 1)
    ensures var r, more := Residue(n, a), Shl(8 * Rounds(n, a), a);
      var y, z := Product(Quotient(n, a), a, wide), Product(Quotient(r, a), a, wide);
      && Needed(n) == more + Needed(r) && y == more + z
      && Near(y + 5, k) == more + Near(z + 5, k)
  {
    hide *;
    var t, r := Rounds(n, a), Residue(n, a);
    ResidueIs(n, a);
    NearShift(r, 3 * t, a);
    assert 2 * (3 * t) == 6 * t;
    ProductShift(Quotient(r, a), t, a, wide);
    NeededShift(r, t, a);
    var z := Product(Quotient(r, a), a, wide);
    NearShift(z + 5, 4 * t, a);
    NearShift(z + 5, 2 * t, a + 1);
    TwoMore(t, a);
    assert 2 * (4 * t) == 8 * t && 2 * (2 * t) == 4 * t;
    assert Shl(8 * t, a) + z + 5 == Shl(8 * t, a) + (z + 5);
  }

  lemma TwoMore(t: nat, a: nat)
    ensures Shl(8 * t, a) == Shl(4 * t, a + 1)
  {
    ShlTwice(4 * t, a);
  }

  lemma ProductShift(q: nat, t: nat, a: nat, wide: bool)
    ensures Product(6 * t + q, a, wide) == Shl(8 * t, a) + Product(q, a, wide)
  {
    hide Shl;
    ThirdsShift(q, t, wide);
    ShlAdds(8 * t, Thirds(q, wide), a);
    ShlAdds(4 * t, Thirds(q, wide), a + 1);
    TwoMore(t, a);
  }

  lemma NeededShift(r: nat, t: nat, a: nat)
    ensures Needed(Shl(6 * t, a) + r) == Shl(8 * t, a) + Needed(r)
  {
    hide Shl;
    Triple(2 * t, a);
    FourTimes(2 * t, a);
    assert Needed(3 * Shl(2 * t, a) + r) == 4 * Shl(2 * t, a) + Needed(r);
  }

  lemma ThirdsShift(q: nat, t: nat, wide: bool)
    ensures Thirds(6 * t + q, wide) == (if wide then 4 * t else 8 * t) + Thirds(q, wide)
  {
  }

  // ----- where adding 5 takes a digit more

  lemma LastPlace(n: nat)
    requires 0xC0_0000 <= n
    ensures var a := Place(n);
      var y := Product(Quotient(n, a), a, Wide(n));
      var b := if Wide(n) then a + 1 else a;
      && b > 0
      && (y + 5 < Shl(0x100_0000, b) ==> Place(y + 5) == b)
      && (y + 5 >= Shl(0x100_0000, b) ==> Place(y + 5) == b + 1 && !Wide(n))
  {
    hide Shl, Shr, Low, Digits, Place, Quotient, Thirds;
    var a, wide := Place(n), Wide(n);
    var q, b := Quotient(n, a), if wide then a + 1 else a;
    PlaceBound(n);
    QuotientBound(n);
    if a == 0 {
      Unshifted(n);
    }
    ThirdsIs(q, wide);
    var m := Thirds(q, wide);
    NotLast(q);
    Five(b);
    ShlLess(0x80_0000, m, b);
    ShlAdds(m, 3, b);
    ShlLess(m + 3, 0x100_0000, b);
    ShlLess(m, 0x100_0000, b);
    ShlNext(0x80_0000, b);
    ShlTwice(0x80_0000, b);
    ShlTwice(0x100_0000, b);
    ShlNext(0x100_0000, b);
    ShlAdds(0x100_0000, 0x100_0000, b);
    ShlLess(3, 0x100_0000, b);
    if m + 3 <= 0x100_0000 {
      PlaceIs(Shl(m, b) + 5, b);
    } else if Shl(m, b) + 5 < Shl(0x100_0000, b) {
      PlaceIs(Shl(m, b) + 5, b);
    } else {
      PlaceIs(Shl(m, b) + 5, b + 1);
    }
  }

  lemma NotLast(q: nat)
    requires q <= 0x100_0000
    ensures Thirds(q, true) + 3 <= 0x100_0000
  {
  }

  lemma Five(b: nat)
    requires b > 0
    ensures Shl(3, b) > 5
  {
    hide Shl;
    ShlMonotone(3, 1, b);
    ShlZero(3);
  }

  // ----- what adding 5 does

  /** The nearest is the only multiple of 2^k within half of it. */
  lemma QuotientIs(v: nat, k: nat, q: nat)
    requires k > 0 && v <= Shl(q, k) + Shl(1, k - 1) && Shl(q, k) <= v + Shl(1, k - 1)
    requires v + Shl(1, k - 1) == Shl(q, k) || v == Shl(q, k) + Shl(1, k - 1) ==> q % 2 == 0
    ensures Quotient(v, k) == q
  {
    hide Shl, Shr, Low;
    Doubles(k - 1);
    Positive(1, k - 1);
    ShlAdds(0, 0, k);
    if v >= Shl(q, k) {
      HighLowIs(v, k, q, v - Shl(q, k));
    } else {
      ShlAdds(q - 1, 1, k);
      HighLowIs(v, k, q - 1, v - Shl(q - 1, k));
    }
  }

  /** What it adds, in units of 2^b. */
  function Extra(m: nat, b: nat): nat {
    if b == 0 then 5 else if b == 1 then 2 + m % 2 else if b <= 3 then 1 else 0
  }

  lemma NearFive(m: nat, b: nat)
    ensures Near(Shl(m, b) + 5, b) == Shl(m + Extra(m, b), b)
  {
    hide Quotient, Shl;
    if b == 0 {
      Unshifted(Shl(m, 0) + 5);
      ShlAt(m);
    } else if b <= 3 {
      ShlAt(1);
      ShlAt(m);
      ShlAt(m + Extra(m, b));
      QuotientIs(Shl(m, b) + 5, b, m + Extra(m, b));
    } else {
      Sixteen(b);
      NearSmall(m, 5, b);
    }
  }

  lemma Sixteen(k: nat)
    requires k >= 4
    ensures Shl(1, k) >= 16
  {
    hide Shl;
    ShlMonotone(1, 4, k);
    ShlAt(1);
  }

  lemma ShlAt(x: nat)
    ensures Shl(x, 0) == x && Shl(x, 1) == 2 * x && Shl(x, 2) == 4 * x && Shl(x, 3) == 8 * x && Shl(x, 4) == 16 * x
  {
    ShlNext(x, 0);
    ShlNext(x, 1);
    ShlNext(x, 2);
    ShlNext(x, 3);
  }

  // ----- by residues

  /** The buffer has room for what is left. */
  predicate Covers(r: nat, a: nat, wide: bool) { SizeAt(r, a, wide) >= Needed(r) }

  /** The size for the residues that are rounded to q * 2^a. */
  lemma SizeIs(r: nat, a: nat, wide: bool, q: nat)
    requires if a == 0 then q == r
             else
               && r <= Shl(q, a) + Shl(1, a - 1) && Shl(q, a) <= r + Shl(1, a - 1)
               && (r + Shl(1, a - 1) == Shl(q, a) || r == Shl(q, a) + Shl(1, a - 1) ==> q % 2 == 0)
    ensures var b, m := if wide then a + 1 else a, Thirds(q, wide);
      SizeAt(r, a, wide) == Shl(m + Extra(m, b), b)
  {
    hide Shl, Quotient, Near, Thirds, Extra;
    if a == 0 {
      Unshifted(r);
    } else {
      QuotientIs(r, a, q);
    }
    NearFive(Thirds(q, wide), if wide then a + 1 else a);
  }

  lemma ThirdsAt(q: nat)
    requires q <= 6
    ensures Thirds(q, false) == if q < 2 then q else if q < 5 then q + 1 else q + 2
    ensures Thirds(q, true) == if q < 2 then q else if q < 5 then q - 1 else q - 2
  {
  }

  lemma CoversSix(r: nat)
    requires r < 6
    ensures Covers(r, 0, true)
  {
    hide Shl, SizeAt, Thirds;
    SizeIs(r, 0, true, r);
    ThirdsAt(r);
    var m := Thirds(r, true);
    ShlAt(m + Extra(m, 1));
  }

  lemma CoversTwelve(r: nat, wide: bool)
    requires r < 12
    ensures Covers(r, 1, wide) <==> r != 1 && !(wide && r in {4, 5, 10})
    ensures SizeAt(r, 1, false) + 1 >= Needed(r)
  {
    hide Shl, SizeAt, Thirds;
    var q := if r <= 1 then 0 else if r == 2 then 1 else if r <= 5 then 2 else if r == 6 then 3
             else if r <= 9 then 4 else if r == 10 then 5 else 6;
    ShlAt(1);
    ShlAt(q);
    ThirdsAt(q);
    SizeIs(r, 1, true, q);
    SizeIs(r, 1, false, q);
    ShlAt(Thirds(q, true) + 1);
    ShlAt(Thirds(q, false) + Extra(Thirds(q, false), 1));
  }

  lemma CoversTwentyFour(r: nat, wide: bool)
    requires r < 24
    ensures Covers(r, 2, wide) <==> r !in (if wide then {10} else {1, 2, 4, 5, 10, 13, 16, 17, 18})
  {
    hide Shl, SizeAt, Thirds;
    var q := if r <= 2 then 0 else if r < 6 then 1 else if r <= 10 then 2 else if r < 14 then 3
             else if r <= 18 then 4 else if r < 22 then 5 else 6;
    ShlAt(1);
    ShlAt(q);
    ThirdsAt(q);
    SizeIs(r, 2, wide, q);
    ShlAt(Thirds(q, wide) + 1);
  }

  lemma CoversFortyEight(r: nat, wide: bool)
    requires r < 48
    ensures Covers(r, 3, wide) <==>
      if wide then 5 <= r <= 9 || r == 21 || 28 <= r <= 33 || r in {44, 45} else r !in {4, 10, 11, 34, 35, 36}
  {
    hide Shl, SizeAt, Thirds;
    var q := if r <= 4 then 0 else if r < 12 then 1 else if r <= 20 then 2 else if r < 28 then 3
             else if r <= 36 then 4 else if r < 44 then 5 else 6;
    ShlAt(1);
    ShlAt(q);
    ThirdsAt(q);
    SizeIs(r, 3, wide, q);
    ShlAt(Thirds(q, wide) + Extra(Thirds(q, wide), if wide then 4 else 3));
  }

  /** For what is left on the higher places, in quarters of the last. */
  predicate Inside(r: nat, u: nat, wide: bool) {
    if wide then
      2 * u < r <= 6 * u - 3 || 10 * u < r <= 12 * u - 3 || 14 * u <= r <= 18 * u - 3 || 22 * u <= r <= 24 * u - 3
    else
      || 2 * u < r <= 3 * u - 3 || 6 * u <= r <= 9 * u - 3 || 10 * u < r <= 12 * u - 3
      || 14 * u <= r <= 15 * u - 3 || 18 * u < r <= 21 * u - 3 || 22 * u <= r <= 24 * u - 3
  }

  /** The size for what is left, in the same quarters. */
  function Room(r: nat, u: nat, wide: bool): nat {
    if r <= 2 * u then 0
    else if r < 6 * u then (if wide then 2 * u else u)
    else if r <= 10 * u then (if wide then 2 * u else 3 * u)
    else if r < 14 * u then 4 * u
    else if r <= 18 * u then (if wide then 6 * u else 5 * u)
    else if r < 22 * u then (if wide then 6 * u else 7 * u)
    else 8 * u
  }

  lemma SizeAbove(r: nat, a: nat, wide: bool)
    requires a >= 4 && r < Shl(6, a)
    ensures SizeAt(r, a, wide) == 4 * Room(r, Shl(1, a - 2), wide)
  {
    hide Shl, SizeAt;
    var u := Shl(1, a - 2);
    InQuarters(a, u);
    SizeFor(r, a, wide, if r <= 2 * u then 0 else if r < 6 * u then 1 else if r <= 10 * u then 2
                        else if r < 14 * u then 3 else if r <= 18 * u then 4 else if r < 22 * u then 5 else 6);
  }

  lemma InQuarters(a: nat, u: nat)
    requires a >= 2 && u == Shl(1, a - 2)
    ensures Shl(1, a - 1) == 2 * u && Shl(0, a) == 0 && Shl(1, a) == 4 * u && Shl(2, a) == 8 * u && Shl(3, a) == 12 * u
    ensures Shl(4, a) == 16 * u && Shl(5, a) == 20 * u && Shl(6, a) == 24 * u && Shl(7, a) == 28 * u
    ensures Shl(8, a) == 32 * u
    ensures Shl(0, a + 1) == 0 && Shl(1, a + 1) == 8 * u && Shl(2, a + 1) == 16 * u && Shl(3, a + 1) == 24 * u
    ensures Shl(4, a + 1) == 32 * u
  {
    hide Shl;
    Multiples(a);
    Multiples(a + 1);
    Doubles(a - 2);
    Doubles(a - 1);
    Doubles(a);
  }

  lemma SizeFor(r: nat, a: nat, wide: bool, q: nat)
    requires a >= 4 && q <= 6 && r <= Shl(q, a) + Shl(1, a - 1) && Shl(q, a) <= r + Shl(1, a - 1)
    requires r + Shl(1, a - 1) == Shl(q, a) || r == Shl(q, a) + Shl(1, a - 1) ==> q % 2 == 0
    ensures SizeAt(r, a, wide) ==
            if wide then Shl(if q < 2 then q else if q < 5 then q - 1 else q - 2, a + 1)
            else Shl(if q < 2 then q else if q < 5 then q + 1 else q + 2, a)
  {
    hide Shl, SizeAt, Thirds, Extra;
    SizeIs(r, a, wide, q);
    ThirdsAt(q);
    NoExtra(Thirds(q, wide), if wide then a + 1 else a);
  }

  lemma NoExtra(m: nat, b: nat)
    requires b >= 4
    ensures Extra(m, b) == 0
  {
  }

  lemma NeededAtMost(r: nat, c: nat)
    ensures Needed(r) <= 4 * c <==> r + 3 <= 3 * c
  {
  }

  lemma CoversAbove(r: nat, a: nat, wide: bool)
    requires a >= 4 && r < Shl(6, a)
    ensures Covers(r, a, wide) <==> Inside(r, Shl(1, a - 2), wide)
  {
    hide Shl, SizeAt, Needed;
    var u := Shl(1, a - 2);
    InQuarters(a, u);
    SizeAbove(r, a, wide);
    NeededAtMost(r, Room(r, u, wide));
  }

  lemma Multiples(k: nat)
    ensures Shl(0, k) == 0 && Shl(2, k) == 2 * Shl(1, k) && Shl(3, k) == 3 * Shl(1, k) && Shl(4, k) == 4 * Shl(1, k)
    ensures Shl(5, k) == 5 * Shl(1, k) && Shl(6, k) == 6 * Shl(1, k) && Shl(7, k) == 7 * Shl(1, k)
    ensures Shl(8, k) == 8 * Shl(1, k)
  {
    hide Shl;
    ShlAdds(0, 0, k);
    ShlAdds(1, 1, k);
    ShlAdds(2, 1, k);
    ShlAdds(2, 2, k);
    ShlAdds(4, 1, k);
    ShlAdds(4, 2, k);
    ShlAdds(4, 3, k);
    ShlAdds(4, 4, k);
  }

  lemma ResidueAt(n: nat, a: nat)
    requires a <= 3
    ensures Residue(n, a) == if a == 0 then n % 6 else if a == 1 then n % 12 else if a == 2 then n % 24 else n % 48
  {
    hide *;
    var t, r := Rounds(n, a), Residue(n, a);
    ResidueIs(n, a);
    ShlAt(6);
    ShlAt(6 * t);
    if a == 0 {
      LeftOfSix(n, t, r);
    } else if a == 1 {
      LeftOfTwelve(n, t, r);
    } else if a == 2 {
      LeftOfTwentyFour(n, t, r);
    } else {
      LeftOfFortyEight(n, t, r);
    }
  }

  lemma LeftOfSix(n: nat, t: nat, r: nat)
    requires n == 6 * t + r && r < 6
    ensures n % 6 == r
  {
  }

  lemma LeftOfTwelve(n: nat, t: nat, r: nat)
    requires n == 12 * t + r && r < 12
    ensures n % 12 == r
  {
  }

  lemma LeftOfTwentyFour(n: nat, t: nat, r: nat)
    requires n == 24 * t + r && r < 24
    ensures n % 24 == r
  {
  }

  lemma LeftOfFortyEight(n: nat, t: nat, r: nat)
    requires n == 48 * t + r && r < 48
    ensures n % 48 == r
  {
  }

  // ----- for every length

  lemma BandIs(n: nat, k: nat)
    requires Shl(0x80_0000, k) <= n < Shl(0x100_0000, k)
    ensures Place(n) == k && (Wide(n) <==> n >= Shl(0xC0_0000, k))
  {
    hide Shl, Shr, Low, Place;
    PlaceIs(n, k);
    HighLow(n, k);
    var h := Shr(n, k);
    ShlAdds(h, 1, k);
    ShlLess(0xC0_0000, h, k);
    ShlLess(h + 1, 0xC0_0000, k);
  }

  /** Where the quotient lies. */
  lemma QuotientWithin(v: nat, k: nat)
    requires k > 0
    ensures var q, half := Quotient(v, k), Shl(1, k - 1);
      && v <= Shl(q, k) + half && Shl(q, k) <= v + half
      && (v + half == Shl(q, k) || v == Shl(q, k) + half ==> q % 2 == 0)
  {
    hide Shl, Shr, Low;
    HighLow(v, k);
    Doubles(k - 1);
    ShlAdds(Shr(v, k), 1, k);
  }

  /** On the higher places nothing comes of the digit more. */
  lemma TopUnchanged(m: nat, a: nat)
    requires a >= 4 && m <= 0x100_0000 && Shl(m, a) + 5 >= Shl(0x100_0000, a)
    ensures Near(Shl(m, a) + 5, a) == Near(Shl(m, a) + 5, a + 1) == Shl(m, a)
  {
    hide Shl, Near;
    Sixteen(a);
    if m < 0x100_0000 {
      ShlAdds(m, 1, a);
      ShlLess(m + 1, 0x100_0000, a);
    }
    NearSmall(m, 5, a);
    ShlTwice(0x80_0000, a);
    ShlNext(0x80_0000, a);
    Doubles(a);
    NearSmall(0x80_0000, 5, a + 1);
  }

  /** On the lower ones, for what is left. */
  lemma TopResidue(r: nat, a: nat)
    requires 1 <= a <= 3 && r < Shl(6, a)
    requires Product(Quotient(r, a), a, false) + 5 >= Shl(8, a)
    ensures Covers(r, a, false)
    ensures Near(Product(Quotient(r, a), a, false) + 5, a + 1) >= Needed(r) <==> a < 3 || r < 46
    ensures a == 3 ==> r >= 44
  {
    hide Shl, Quotient, Near, Thirds, Covers;
    var q := Quotient(r, a);
    QuotientWithin(r, a);
    ShlAt(6);
    ShlAt(8);
    ShlAt(1);
    ShlAt(q);
    assert q <= 6;
    ThirdsAt(q);
    ShlAt(Thirds(q, false));
    ShlAt(4);
    ShlAt(5);
    NearIs(19, 2, 5);
    NearIs(21, 2, 5);
    NearIs(33, 3, 4);
    NearIs(37, 3, 5);
    NearIs(69, 4, 4);
    if a == 1 {
      CoversTwelve(r, false);
    } else if a == 2 {
      CoversTwentyFour(r, false);
    } else {
      CoversFortyEight(r, false);
    }
  }

  lemma NearIs(v: nat, k: nat, q: nat)
    requires k > 0 && v < Shl(q, k) + Shl(1, k - 1) && Shl(q, k) < v + Shl(1, k - 1)
    ensures Near(v, k) == Shl(q, k)
  {
    hide Shl;
    QuotientIs(v, k, q);
  }

  /** Just before three times a power of two the sum has a digit more. */
  lemma TopPlace(n: nat)
    requires 0xC0_0000 <= n && !Wide(n)
    requires Product(Quotient(n, Place(n)), Place(n), false) + 5 >= Shl(0x100_0000, Place(n))
    ensures var a := Place(n);
      Near(Product(Quotient(n, a), a, false) + 5, a + 1) >= Needed(n) <==>
        Covers(Residue(n, a), a, false) && n != 100_663_294 && n != 100_663_295
    ensures Place(n) <= 2 ==> Covers(Residue(n, Place(n)), Place(n), false)
  {
    hide Shl, Shr, Low, Place, Quotient, Near, Thirds, Residue, Rounds;
    var a := Place(n);
    var m, r := Thirds(Quotient(n, a), false), Residue(n, a);
    PlaceBound(n);
    QuotientBound(n);
    ThirdsIs(Quotient(n, a), false);
    Shifted(n, a, false, a);
    Shifted(n, a, false, a + 1);
    if a == 0 {
      Unshifted(n);
    } else if a >= 4 {
      TopUnchanged(m, a);
      ShlMonotone(0x80_0000, 4, a);
      ShlAt(0x80_0000);
    } else {
      TopRounds(n, a);
      TopResidue(r, a);
      ShlAt(6);
    }
  }

  lemma TopRounds(n: nat, a: nat)
    requires 1 <= a <= 3 && Shr(n, a) < 0xC0_0000
    requires Product(Quotient(n, a), a, false) + 5 >= Shl(0x100_0000, a)
    ensures var r := Residue(n, a);
      && Product(Quotient(r, a), a, false) + 5 >= Shl(8, a) && r < Shl(6, a)
      && (a == 3 ==> n == 100_663_248 + r) && (a < 3 ==> n < 100_663_248)
  {
    hide Shl, Shr, Low, Quotient, Near, Thirds, Residue;
    var r, t := Residue(n, a), Rounds(n, a);
    ResidueIs(n, a);
    Shifted(n, a, false, a);
    var q := Quotient(r, a);
    QuotientWithin(r, a);
    ShlAt(1);
    ShlAt(6);
    ShlAt(8);
    ShlAt(0x100_0000);
    ShlAt(q);
    ThirdsAt(q);
    ShlAt(Thirds(q, false));
    ShlAt(6 * t);
    ShlAt(8 * t);
  }

  /** And there are two lengths for which that matters. */
  lemma TopTwo(n: nat)
    requires n == 100_663_294 || n == 100_663_295
    ensures Place(n) == 3 && !Wide(n) && Product(Quotient(n, 3), 3, false) + 5 >= Shl(0x100_0000, 3)
  {
    hide Shl, Shr, Place, Wide, Quotient;
    ShlAt(0x80_0000);
    ShlAt(0x100_0000);
    ShlAt(0xC0_0000);
    ShlAt(1);
    BandIs(n, 3);
    QuotientIs(n, 3, 0xC0_0000);
  }

  lemma AlmostCovers(n: nat)
    requires 0xC0_0000 <= n < 0x180_0000
    ensures Place(n) <= 1 && SizeAt(Residue(n, Place(n)), Place(n), Wide(n)) + 1 >= Needed(Residue(n, Place(n)))
  {
    hide *;
    var k := if n < 0x100_0000 then 0 else 1;
    ShlAt(0x80_0000);
    ShlAt(0x100_0000);
    ShlAt(0xC0_0000);
    ShlAt(6);
    BandIs(n, k);
    ResidueIs(n, k);
    SizeAtIs(Residue(n, k), k, Wide(n));
    if k == 0 {
      CoversSix(Residue(n, k));
    } else {
      CoversTwelve(Residue(n, k), false);
    }
  }

  /** The length is below 3 * 2^22, or the buffer would be large enough for what is left of it; but
      for two lengths with which the sum takes a digit more. */
  predicate Suffices(n: nat) {
    || n < 0xC0_0000
    || (Covers(Residue(n, Place(n)), Place(n), Wide(n)) && n != 100_663_294 && n != 100_663_295)
  }

  /** Exactly then the buffer is large enough. */
  lemma SizeSuffices(n: nat)
    ensures OutSize(n) >= Needed(n) <==> Suffices(n)
    ensures n < 0x180_0000 ==> OutSize(n) + 1 >= Needed(n)
  {
    hide *;
    SufficesIs(n);
    if n < 0xC0_0000 {
      SmallFits(n);
    } else {
      var a, wide := Place(n), Wide(n);
      var r, b, y := Residue(n, a), if wide then a + 1 else a, Product(Quotient(n, a), a, wide);
      ClosedForm(n);
      LastPlace(n);
      if n == 100_663_294 || n == 100_663_295 {
        TopTwo(n);
      }
      if y + 5 < Shl(0x100_0000, b) {
        Shifted(n, a, wide, b);
      } else {
        TopPlace(n);
      }
      SizeAtIs(r, a, wide);
      if n < 0x180_0000 {
        AlmostCovers(n);
      }
    }
  }

  lemma SufficesIs(n: nat)
    ensures Suffices(n) <==>
      || n < 0xC0_0000
      || (Covers(Residue(n, Place(n)), Place(n), Wide(n)) && n != 100_663_294 && n != 100_663_295)
  {
  }

  lemma SizeAtIs(r: nat, a: nat, wide: bool)
    ensures SizeAt(r, a, wide) == Near(Product(Quotient(r, a), a, wide) + 5, if wide then a + 1 else a)
    ensures Covers(r, a, wide) <==> SizeAt(r, a, wide) >= Needed(r)
  {
  }

  /** The lengths it is too small for: below 2^27 one by one, from there on by intervals. */
  lemma SizeInBands(n: nat)
    ensures n < 0x100_0000 ==> OutSize(n) >= Needed(n)
    ensures 0x100_0000 <= n < 0x180_0000 ==> (OutSize(n) >= Needed(n) <==> n % 12 != 1)
    ensures 0x180_0000 <= n < 0x200_0000 ==> (OutSize(n) >= Needed(n) <==> n % 12 !in {1, 4, 5, 10})
    ensures 0x200_0000 <= n < 0x300_0000 ==>
      (OutSize(n) >= Needed(n) <==> n % 24 !in {1, 2, 4, 5, 10, 13, 16, 17, 18})
    ensures 0x300_0000 <= n < 0x400_0000 ==> (OutSize(n) >= Needed(n) <==> n % 24 != 10)
    ensures 0x400_0000 <= n < 0x600_0000 ==>
      (OutSize(n) >= Needed(n) <==> n % 48 !in {4, 10, 11, 34, 35, 36} && n < 100_663_294)
    ensures 0x600_0000 <= n < 0x800_0000 ==>
      (OutSize(n) >= Needed(n) <==> n % 48 in {5, 6, 7, 8, 9, 21, 28, 29, 30, 31, 32, 33, 44, 45})
    ensures 0x800_0000 <= n ==>
      var a := Place(n);
      a >= 4 && (OutSize(n) >= Needed(n) <==> Inside(Residue(n, a), Shl(1, a - 2), Wide(n)))
  {
    hide *;
    SizeSuffices(n);
    SufficesIs(n);
    if 0xC0_0000 <= n < 0x800_0000 {
      var k := if n < 0x100_0000 then 0 else if n < 0x200_0000 then 1 else if n < 0x400_0000 then 2 else 3;
      ShlAt(0x80_0000);
      ShlAt(0x100_0000);
      ShlAt(0xC0_0000);
      ShlAt(6);
      BandIs(n, k);
      ResidueIs(n, k);
      ResidueAt(n, k);
      var r, wide := Residue(n, k), Wide(n);
      if k == 0 {
        CoversSix(r);
      } else if k == 1 {
        CoversTwelve(r, wide);
      } else if k == 2 {
        CoversTwentyFour(r, wide);
      } else {
        CoversFortyEight(r, wide);
      }
    } else if 0x800_0000 <= n {
      PlaceAtLeast(n);
      var a := Place(n);
      ResidueIs(n, a);
      CoversAbove(Residue(n, a), a, Wide(n));
    }
  }

  lemma PlaceAtLeast(n: nat)
    requires 0x800_0000 <= n
    ensures Place(n) >= 4
  {
    hide Shl, Place;
    PlaceBound(n);
    if Place(n) < 4 {
      ShlMonotone(0x100_0000, Place(n), 3);
      ShlAt(0x100_0000);
    }
  }

  /** The least of them. */
  lemma LeastTooLong()
    ensures OutSize(16_777_225) == 22_369_636 && Needed(16_777_225) == 22_369_637
    ensures forall n: nat :: n < 16_777_225 ==> OutSize(n) >= Needed(n)
  {
    hide OutSize, Place, Shl, Quotient, Wide, Thirds, Near;
    var n, y := 16_777_225, 22_369_632;
    ShlAt(0x80_0000);
    ShlAt(0x100_0000);
    ShlAt(0xC0_0000);
    ShlAt(1);
    BandIs(n, 1);
    ShlAt(8_388_612);
    QuotientIs(n, 1, 8_388_612);
    ClosedForm(n);
    ThirdsIs(8_388_612, false);
    ShlAt(11_184_816);
    PlaceIs(y + 5, 1);
    ShlAt(11_184_818);
    QuotientIs(y + 5, 1, 11_184_818);
    IsNear(y + 5, 1);
    forall m: nat | m < n ensures OutSize(m) >= Needed(m) {
      SizeInBands(m);
    }
  }
}
