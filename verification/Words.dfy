/** Machine words as natural numbers, and the C operators on their bits. */
module Words {

  /** Shifts, a bit at a time. */
  function Shl(x: nat, n: nat): nat
    decreases n
  {
    if n == 0 then x else 2 * Shl(x, n - 1)
  }

  function Shr(x: nat, n: nat): nat
    decreases n
  {
    if n == 0 then x else Shr(x / 2, n - 1)
  }

  /** The n low bits. */
  function Low(x: nat, n: nat): nat
    decreases n
  {
    if n == 0 then 0 else x % 2 + 2 * Low(x / 2, n - 1)
  }

  /** C's `<<` on an n-bit word. */
  function ShiftLeft(x: nat, s: nat, n: nat): nat { Low(Shl(x, s), n) }

  function Or(x: nat, y: nat): nat
    decreases x
  {
    if x == 0 then y else (if x % 2 == 1 || y % 2 == 1 then 1 else 0) + 2 * Or(x / 2, y / 2)
  }

  function And(x: nat, y: nat): nat
    decreases x
  {
    if x == 0 then 0 else (if x % 2 == 1 && y % 2 == 1 then 1 else 0) + 2 * And(x / 2, y / 2)
  }

  function Xor(x: nat, y: nat): nat
    decreases x
  {
    if x == 0 then y else (if x % 2 != y % 2 then 1 else 0) + 2 * Xor(x / 2, y / 2)
  }

  /** How many bits it takes: the width less the leading zeros. */
  function Digits(x: nat): nat
    decreases x
  {
    if x == 0 then 0 else 1 + Digits(x / 2)
  }

  lemma {:induction false} ShlTwice(x: nat, n: nat)
    ensures Shl(2 * x, n) == 2 * Shl(x, n)
    decreases n
  {
    if n > 0 {
      ShlTwice(x, n - 1);
    }
  }

  lemma {:induction false} ShlAdds(x: nat, y: nat, n: nat)
    ensures Shl(x + y, n) == Shl(x, n) + Shl(y, n)
    ensures x <= y ==> Shl(x, n) <= Shl(y, n)
    ensures x < y ==> Shl(x, n) < Shl(y, n)
    decreases n
  {
    if n > 0 {
      ShlAdds(x, y, n - 1);
    }
  }

  lemma {:induction false} ShlShl(x: nat, m: nat, n: nat)
    ensures Shl(Shl(x, m), n) == Shl(x, m + n)
    decreases n
  {
    if n > 0 {
      ShlShl(x, m, n - 1);
    }
  }

  lemma {:induction false} ShrShr(x: nat, m: nat, n: nat)
    ensures Shr(Shr(x, m), n) == Shr(x, m + n)
    decreases m
  {
    if m > 0 {
      ShrShr(x / 2, m - 1, n);
    }
  }

  /** A word is its high bits, shifted back, and its low bits. */
  lemma {:induction false} HighLow(x: nat, n: nat)
    ensures x == Shl(Shr(x, n), n) + Low(x, n) && Low(x, n) < Shl(1, n)
    decreases n
  {
    if n > 0 {
      HighLow(x / 2, n - 1);
      assert Shl(Shr(x, n), n) == 2 * Shl(Shr(x / 2, n - 1), n - 1);
    }
  }

  /** And that split is the only one. */
  lemma {:induction false} HighLowIs(x: nat, n: nat, hi: nat, lo: nat)
    requires x == Shl(hi, n) + lo && lo < Shl(1, n)
    ensures Shr(x, n) == hi && Low(x, n) == lo
    decreases n
  {
    if n > 0 {
      var h := Shl(hi, n - 1);
      assert Shl(1, n) == 2 * Shl(1, n - 1) && x == 2 * h + lo;
      assert x / 2 == h + lo / 2 && lo / 2 < Shl(1, n - 1) && x % 2 == lo % 2;
      HighLowIs(x / 2, n - 1, hi, lo / 2);
    }
  }

  /** Fields that do not overlap: or-ing them together adds them. */
  lemma {:induction false} OrDisjoint(hi: nat, n: nat, lo: nat)
    requires lo < Shl(1, n)
    ensures Or(Shl(hi, n), lo) == Shl(hi, n) + lo
    decreases n
  {
    if n == 0 {
      OrZero(hi);
    } else {
      OrDisjoint(hi, n - 1, lo / 2);
      if Shl(hi, n) != 0 {
        assert Shl(hi, n) % 2 == 0 && Shl(hi, n) / 2 == Shl(hi, n - 1);
      }
    }
  }

  lemma {:induction false} OrZero(x: nat)
    ensures Or(x, 0) == x
    decreases x
  {
    if x > 0 {
      OrZero(x / 2);
    }
  }

  /** Or-ing in a single bit at the bottom. */
  lemma OrBit(x: nat, b: nat)
    requires b <= 1
    ensures Or(x, b) == if x % 2 == 1 then x else x + b
  {
    OrZero(x);
    OrZero(x / 2);
  }

  lemma {:induction false} AndMask(x: nat, n: nat)
    ensures Shl(1, n) >= 1 && And(x, Shl(1, n) - 1) == Low(x, n)
    decreases n
  {
    if n == 0 {
      AndZero(x);
    } else {
      AndMask(x / 2, n - 1);
      if x > 0 {
        assert (Shl(1, n) - 1) % 2 == 1 && (Shl(1, n) - 1) / 2 == Shl(1, n - 1) - 1;
      } else {
        LowZero(n);
      }
    }
  }

  lemma {:induction false} AndZero(x: nat)
    ensures And(x, 0) == 0
    decreases x
  {
    if x > 0 {
      AndZero(x / 2);
    }
  }

  lemma {:induction false} LowZero(n: nat)
    ensures Low(0, n) == 0
  {
    if n > 0 {
      LowZero(n - 1);
    }
  }

  /** Testing a single bit. */
  lemma {:induction false} AndBit(x: nat, n: nat)
    ensures And(x, Shl(1, n)) != 0 <==> Shr(x, n) % 2 == 1
    decreases n
  {
    if n == 0 {
      if x > 0 {
        AndZero(x / 2);
      }
    } else {
      AndBit(x / 2, n - 1);
      if x == 0 {
        ShrZero(n);
      }
    }
  }

  lemma {:induction false} ShrZero(n: nat)
    ensures Shr(0, n) == 0
  {
    if n > 0 {
      ShrZero(n - 1);
    }
  }

  /** The top bit of a number is where `Digits` says. */
  lemma {:induction false} DigitsBound(x: nat)
    requires x > 0
    ensures Digits(x) >= 1 && Shl(1, Digits(x) - 1) <= x < Shl(1, Digits(x))
    decreases x
  {
    if x > 1 {
      DigitsBound(x / 2);
    }
  }

  lemma {:induction false} DigitsAtMost(x: nat, n: nat)
    ensures Digits(x) <= n <==> x < Shl(1, n)
    decreases n
  {
    if n > 0 && x > 0 {
      DigitsAtMost(x / 2, n - 1);
    }
    if x == 0 {
      ShlAdds(0, 1, n);
    }
  }

  lemma {:induction false} ShlMonotone(x: nat, m: nat, n: nat)
    requires m <= n
    ensures Shl(x, m) <= Shl(x, n)
    decreases n
  {
    if m < n {
      ShlMonotone(x, m, n - 1);
    }
  }

  /** A word that fits is not cut off. */
  lemma LowAll(x: nat, n: nat)
    requires x < Shl(1, n)
    ensures Low(x, n) == x && Shr(x, n) == 0
  {
    ShlAdds(0, 0, n);
    HighLowIs(x, n, 0, x);
  }

  lemma ShiftFits(x: nat, d: nat, s: nat, n: nat)
    requires x < Shl(1, d) && d + s <= n
    ensures ShiftLeft(x, s, n) == Shl(x, s) < Shl(1, n)
  {
    ShlAdds(x, Shl(1, d), s);
    ShlShl(1, d, s);
    ShlMonotone(1, d + s, n);
    LowAll(Shl(x, s), n);
  }

  /** A mask of ones shifted down. */
  lemma MaskIs(n: nat, s: nat)
    requires s <= n
    ensures Shl(1, n) >= 1 && Shl(1, n - s) >= 1 && Shr(Shl(1, n) - 1, s) == Shl(1, n - s) - 1
  {
    ShlMonotone(1, 0, n);
    ShlMonotone(1, 0, n - s);
    ShlMonotone(1, 0, s);
    ShlShl(1, n - s, s);
    ShlAdds(Shl(1, n - s) - 1, 1, s);
    HighLowIs(Shl(1, n) - 1, s, Shl(1, n - s) - 1, Shl(1, s) - 1);
  }

  lemma {:induction false} XorZero(x: nat)
    ensures Xor(x, 0) == x
    decreases x
  {
    if x > 0 {
      XorZero(x / 2);
    }
  }

  /** Taking off the top bit. */
  lemma {:induction false} XorTop(lo: nat, n: nat)
    requires lo < Shl(1, n)
    ensures Xor(Shl(1, n) + lo, Shl(1, n)) == lo
    decreases n
  {
    if n > 0 {
      assert Shl(1, n) == 2 * Shl(1, n - 1);
      XorTop(lo / 2, n - 1);
    }
  }

  /** Bit by bit from the bottom. */
  lemma XorBit(x: nat, b: nat, y: nat, c: nat)
    requires b <= 1 && c <= 1
    ensures Xor(2 * x + b, 2 * y + c) == (if b != c then 1 else 0) + 2 * Xor(x, y)
  {
    assert (2 * x + b) / 2 == x && (2 * y + c) / 2 == y && (2 * x + b) % 2 == b && (2 * y + c) % 2 == c;
  }

  /** Turning over the lowest set bit of 4p, for odd p, and the two below it. */
  lemma XorSeven(p: nat)
    requires p % 2 == 1
    ensures Xor(Shl(p, 2), 7) == 4 * (p - 1) + 3
    ensures Shr(Xor(Shl(p, 2), 7), 1) == 2 * (p - 1) + 1
  {
    assert Shl(p, 2) == 2 * (2 * p);
    XorBit(2 * p, 0, 3, 1);
    XorBit(p, 0, 1, 1);
    XorBit(p / 2, 1, 0, 1);
    XorZero(p / 2);
  }

  lemma Doubles(n: nat)
    ensures Shl(1, n + 1) == 2 * Shl(1, n)
  {
  }

  lemma Triple(x: nat, n: nat)
    ensures Shl(3 * x, n) == 3 * Shl(x, n)
  {
    ShlAdds(x, x, n);
    ShlAdds(x + x, x, n);
  }

  lemma Positive(x: nat, n: nat)
    requires x > 0
    ensures Shl(x, n) > 0
  {
    ShlMonotone(x, 0, n);
  }

  lemma ShlLess(x: nat, y: nat, n: nat)
    ensures Shl(x, n) <= Shl(y, n) <==> x <= y
  {
    ShlAdds(x, y, n);
    ShlAdds(y, x, n);
  }

  lemma ShlZero(x: nat)
    ensures Shl(x, 0) == x && Shl(x, 1) == 2 * x
  {
  }

  lemma FourTimes(x: nat, n: nat)
    ensures Shl(4 * x, n) == 4 * Shl(x, n)
  {
    ShlTwice(x, n);
    ShlTwice(2 * x, n);
  }

  lemma ShlTwo(x: nat)
    ensures Shl(x, 2) == 4 * x
  {
  }
}
