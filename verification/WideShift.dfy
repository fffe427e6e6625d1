/** Shifts of a double word held in two words, and normalizing a significand. */
module WideShift {
  import opened Words
  import opened Rounding

  /** The double word. */
  function Both(w: nat, hi: nat, lo: nat): nat { Shl(hi, w) + lo }

  /** Shifted right, the lowest bit also set if any bit was shifted out. */
  function Jam(v: nat, c: nat): nat { Or(Shr(v, c), if Low(v, c) != 0 then 1 else 0) }

  /** Two shifts that jam are one. */
  lemma JamJam(v: nat, c: nat, d: nat)
    ensures Jam(Jam(v, c), d) == Jam(v, c + d)
  {
    var q, s := Shr(v, c), if Low(v, c) != 0 then 1 else 0;
    ShrShr(v, c, d);
    OrBit(q, s);
    if d == 0 {
      OrZero(Jam(v, c));
    } else {
      LowLow(v, c, d);
      JamLow(q, s, d);
    }
  }

  /** What a longer shift loses. */
  lemma LowLow(v: nat, c: nat, d: nat)
    ensures Low(v, c + d) == Shl(Low(Shr(v, c), d), c) + Low(v, c)
    ensures Low(v, c + d) != 0 <==> Low(Shr(v, c), d) != 0 || Low(v, c) != 0
  {
    hide Shl, Shr, Low;
    var q := Shr(v, c);
    HighLow(v, c);
    HighLow(q, d);
    ShlAdds(Shl(Shr(q, d), d), Low(q, d), c);
    ShlShl(Shr(q, d), d, c);
    ShlAdds(Low(q, d) + 1, Shl(1, d), c);
    ShlAdds(Low(q, d), 1, c);
    ShlShl(1, d, c);
    HighLowIs(v, c + d, Shr(q, d), Shl(Low(q, d), c) + Low(v, c));
    ShlAdds(0, Low(q, d), c);
    ShlAdds(0, 0, c);
  }

  /** Setting the lowest bit changes only that. */
  lemma JamLow(q: nat, s: nat, d: nat)
    requires s <= 1 && d > 0
    ensures Shr(Or(q, s), d) == Shr(q, d)
    ensures Low(Or(q, s), d) != 0 <==> Low(q, d) != 0 || s != 0
  {
    OrBit(q, s);
    assert Or(q, s) / 2 == q / 2;
  }

  lemma OrNonZero(x: nat, y: nat)
    ensures Or(x, y) != 0 <==> x != 0 || y != 0
    decreases x
  {
    if x > 0 {
      OrNonZero(x / 2, y / 2);
    }
  }

  /** A left shift keeps what a right shift would lose. */
  lemma ShiftLeftLow(x: nat, c: nat, w: nat)
    requires c <= w
    ensures ShiftLeft(x, w - c, w) == Shl(Low(x, c), w - c)
    ensures ShiftLeft(x, w - c, w) != 0 <==> Low(x, c) != 0
  {
    var hi, lo := Shr(x, c), Low(x, c);
    HighLow(x, c);
    ShlAdds(Shl(hi, c), lo, w - c);
    ShlShl(hi, c, w - c);
    ShlShl(1, c, w - c);
    ShlAdds(lo, Shl(1, c), w - c);
    HighLowIs(Shl(x, w - c), w, hi, Shl(lo, w - c));
    ShlAdds(0, lo, w - c);
    ShlAdds(0, 0, w - c);
  }

  /** A short right shift of both words. */
  lemma ShrShort(w: nat, hi: nat, lo: nat, c: nat)
    requires 0 < c < w && lo < Shl(1, w)
    ensures var mid := Shl(Low(hi, c), w - c) + Shr(lo, c);
      && Shr(lo, c) < Shl(1, w - c) && mid < Shl(1, w)
      && Shr(Both(w, hi, lo), c) == Both(w, Shr(hi, c), mid) && Low(Both(w, hi, lo), c) == Low(lo, c)
  {
    hide Shl, Shr, Low;
    HighLow(lo, c);
    HighLow(hi, c);
    var q, l := Shr(lo, c), Low(lo, c);
    var h, r := Shr(hi, c), Low(hi, c);
    ShlShl(1, w - c, c);
    if q >= Shl(1, w - c) {
      ShlAdds(Shl(1, w - c), q, c);
    }
    ShlAdds(Shl(h, c), r, w);
    ShlShl(h, c, w);
    ShlShl(h, w, c);
    ShlShl(r, w - c, c);
    ShlAdds(Shl(r, w - c), q, c);
    ShlAdds(Shl(h, w), Shl(r, w - c) + q, c);
    HighLowIs(Both(w, hi, lo), c, Shl(h, w) + (Shl(r, w - c) + q), l);
    ShlShl(1, c, w - c);
    ShlAdds(r + 1, Shl(1, c), w - c);
    ShlAdds(r, 1, w - c);
  }

  /** A right shift past the low word. */
  lemma ShrLong(w: nat, hi: nat, lo: nat, c: nat)
    requires lo < Shl(1, w)
    ensures Shr(Both(w, hi, lo), w + c) == Shr(hi, c)
    ensures Low(Both(w, hi, lo), w + c) != 0 <==> Low(hi, c) != 0 || lo != 0
  {
    HighLowIs(Both(w, hi, lo), w, hi, lo);
    ShrShr(Both(w, hi, lo), w, c);
    LowLow(Both(w, hi, lo), w, c);
  }

  lemma OrParity(w: nat, hi: nat, mid: nat, s: nat)
    requires w > 0 && s <= 1
    ensures Or(Both(w, hi, mid), s) == Both(w, hi, Or(mid, s))
  {
    OrBit(Both(w, hi, mid), s);
    OrBit(mid, s);
    assert Shl(hi, w) % 2 == 0;
  }

  lemma OddFits(mid: nat, s: nat, w: nat)
    requires w > 0 && mid < Shl(1, w) && s <= 1
    ensures Or(mid, s) < Shl(1, w)
  {
    hide Or;
    OrBit(mid, s);
    assert Shl(1, w) == 2 * Shl(1, w - 1);
  }

  lemma AllLow(v: nat, n: nat, c: nat)
    requires v < Shl(1, n) && n <= c
    ensures Shr(v, c) == 0 && Low(v, c) == v
  {
    ShlMonotone(1, n, c);
    LowAll(v, c);
  }

  lemma BothFits(w: nat, hi: nat, lo: nat)
    requires hi < Shl(1, w) && lo < Shl(1, w)
    ensures Both(w, hi, lo) < Shl(1, 2 * w)
    ensures Both(w, hi, lo) != 0 <==> hi != 0 || lo != 0
  {
    hide Shl;
    assert w + w == 2 * w;
    ShlAdds(hi + 1, Shl(1, w), w);
    ShlAdds(hi, 1, w);
    ShlShl(1, w, w);
    ShlAdds(0, hi, w);
    ShlAdds(0, 0, w);
  }

  /** Wherever the shifts of the source are defined: by a positive count other than the
      width of a word. */
  method WideRightShiftWithSticky(w: nat, hi0: nat, lo0: nat, count: nat) returns (hi: nat, lo: nat)
    requires 0 < count != w && w > 0 && hi0 < Shl(1, w) && lo0 < Shl(1, w)
    ensures hi < Shl(1, w) && lo < Shl(1, w)
    ensures Both(w, hi, lo) == Jam(Both(w, hi0, lo0), count)
  {
    hide *;
    JamIs(Both(w, hi0, lo0), count);
    if count < w {
      ShiftLeftLow(lo0, count, w);
      ShiftLeftLow(hi0, count, w);
      ShrShort(w, hi0, lo0, count);
      var sticky := if ShiftLeft(lo0, w - count, w) != 0 then 1 else 0;
      OrDisjoint(Low(hi0, count), w - count, Shr(lo0, count));
      ghost var mid := Shl(Low(hi0, count), w - count) + Shr(lo0, count);
      OddFits(mid, sticky, w);
      OrParity(w, Shr(hi0, count), mid, sticky);
      ShrFits(hi0, count, w);
      lo := Or(Or(ShiftLeft(hi0, w - count, w), Shr(lo0, count)), sticky);
      hi := Shr(hi0, count);
    } else if count < 2 * w {
      ShiftLeftLow(hi0, count - w, w);
      ShrLong(w, hi0, lo0, count - w);
      OrNonZero(ShiftLeft(hi0, 2 * w - count, w), lo0);
      assert w - (count - w) == 2 * w - count && w + (count - w) == count;
      var sticky := if Or(ShiftLeft(hi0, 2 * w - count, w), lo0) != 0 then 1 else 0;
      ShrFits(hi0, count - w, w);
      OddFits(Shr(hi0, count - w), sticky, w);
      NoHigh(w, Or(Shr(hi0, count - w), sticky));
      lo := Or(Shr(hi0, count - w), sticky);
      hi := 0;
    } else {
      BothFits(w, hi0, lo0);
      AllLow(Both(w, hi0, lo0), 2 * w, count);
      OrNonZero(hi0, lo0);
      var sticky := if Or(hi0, lo0) != 0 then 1 else 0;
      NoHigh(w, sticky);
      OrBit(0, sticky);
      lo := sticky;
      hi := 0;
    }
  }

  lemma JamIs(v: nat, c: nat)
    ensures Jam(v, c) == Or(Shr(v, c), if Low(v, c) != 0 then 1 else 0)
  {
  }

  lemma NoHigh(w: nat, lo: nat)
    requires w > 0
    ensures Both(w, 0, lo) == lo && Shl(1, w) > 1
  {
    ShlAdds(0, 0, w);
    ShlMonotone(1, 1, w);
  }

  lemma {:induction false} ShrFits(x: nat, c: nat, w: nat)
    requires x < Shl(1, w)
    ensures Shr(x, c) < Shl(1, w)
    decreases c
  {
    if c > 0 {
      ShrFits(x / 2, c - 1, w);
    }
  }

  method WideLeftShift(w: nat, hi0: nat, lo0: nat, count: nat) returns (hi: nat, lo: nat)
    requires 0 < count < w && hi0 < Shl(1, w) && lo0 < Shl(1, w)
    ensures hi < Shl(1, w) && lo < Shl(1, w)
    ensures Both(w, hi, lo) == Low(Shl(Both(w, hi0, lo0), count), 2 * w)
  {
    hide *;
    ShiftLeftLow(hi0, w - count, w);
    ShiftLeftLow(lo0, w - count, w);
    ShlParts(w, hi0, lo0, count);
    OrDisjoint(Low(hi0, w - count), count, Shr(lo0, w - count));
    assert w - (w - count) == count;
    hi := Or(ShiftLeft(hi0, count, w), Shr(lo0, w - count));
    lo := ShiftLeft(lo0, count, w);
  }

  lemma ShlParts(w: nat, hi0: nat, lo0: nat, c: nat)
    requires 0 < c < w && lo0 < Shl(1, w)
    ensures Shr(lo0, w - c) < Shl(1, c)
    ensures var hi := Shl(Low(hi0, w - c), c) + Shr(lo0, w - c);
      var lo := Shl(Low(lo0, w - c), c);
      hi < Shl(1, w) && lo < Shl(1, w) && Both(w, hi, lo) == Low(Shl(Both(w, hi0, lo0), c), 2 * w)
  {
    hide Shl, Shr, Low;
    var d := w - c;
    var h, r, q, l := Shr(hi0, d), Low(hi0, d), Shr(lo0, d), Low(lo0, d);
    HighLow(hi0, d);
    HighLow(lo0, d);
    ShlShl(1, c, d);
    ShlShl(1, d, c);
    if q >= Shl(1, c) {
      ShlAdds(Shl(1, c), q, d);
    }
    var hi, lo := Shl(r, c) + q, Shl(l, c);
    ShlAdds(l, Shl(1, d), c);
    ShlAdds(r + 1, Shl(1, d), c);
    ShlAdds(r, 1, c);
    Recombine(w, h, r, q, l, c, d);
    BothFits(w, hi, lo);
    HighLowIs(Shl(Both(w, hi0, lo0), c), 2 * w, h, Both(w, hi, lo));
  }

  lemma Recombine(w: nat, h: nat, r: nat, q: nat, l: nat, c: nat, d: nat)
    requires w == c + d
    ensures Shl(Both(w, Shl(h, d) + r, Shl(q, d) + l), c) == Shl(h, 2 * w) + Both(w, Shl(r, c) + q, Shl(l, c))
  {
    hide Shl;
    ShlAdds(Shl(Shl(h, d) + r, w), Shl(q, d) + l, c);
    ShlShl(Shl(h, d) + r, w, c);
    ShlAdds(Shl(h, d), r, w + c);
    ShlShl(h, d, w + c);
    assert d + (w + c) == 2 * w;
    ShlAdds(Shl(q, d), l, c);
    ShlShl(q, d, c);
    ShlShl(r, c, w);
    assert w + c == c + w && d + c == w;
    ShlAdds(Shl(r, c), q, w);
  }

  /** A significand that is too short is shifted until its top bit is where it should be. */
  method Normalize(p: nat, sig0: nat) returns (sig: nat, e: int)
    requires p > 0 && 0 < sig0 < Shl(1, p)
    ensures Normal(p, sig) && e <= 1 && sig == Shl(sig0, 1 - e)
  {
    hide Shl, Digits;
    DigitsBound(sig0);
    DigitsAtMost(sig0, p);
    var shift := p - Digits(sig0);
    ShlAdds(Shl(1, Digits(sig0) - 1), sig0, shift);
    ShlAdds(sig0, Shl(1, Digits(sig0)), shift);
    ShlShl(1, Digits(sig0) - 1, shift);
    ShlShl(1, Digits(sig0), shift);
    sig := Shl(sig0, shift);
    e := 1 - shift;
  }
}
