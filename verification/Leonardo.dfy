/** Smoothsort, the in-place sort behind `lb_qsort`: an implicit forest of Leonardo
    heaps is grown over the array and then taken apart from the right. */

/** The bit set `p` that records which tree orders are present. */
module Leonardo {
  import opened Words

  /** Number of trailing zero bits. */
  function Ctz(n: nat): nat
    requires n > 0
  {
    if n % 2 == 1 then 0 else 1 + Ctz(n / 2)
  }

  /** Distance from the lowest set bit of `p` (bit 0) to the next one. */
  function Pntz(p: nat): nat
    requires p % 2 == 1 && p > 1
  {
    Ctz(p - 1)
  }

  /** The tree orders that `(p, shift)` stands for, smallest (rightmost tree) first. */
  function Orders(p: nat, shift: nat): (os: seq<nat>)
    ensures forall i :: 0 <= i < |os| ==> shift <= os[i]
    ensures os == [] <==> p == 0
    decreases p
  {
    if p == 0 then []
    else if p % 2 == 1 then [shift] + Orders(p / 2, shift + 1)
    else Orders(p / 2, shift + 1)
  }

  lemma {:induction false} OrdersTrim(p: nat, shift: nat)
    requires p > 0
    ensures Shr(p, Ctz(p)) % 2 == 1
    ensures Orders(Shr(p, Ctz(p)), shift + Ctz(p)) == Orders(p, shift)
    decreases p
  {
    if p % 2 == 0 {
      OrdersTrim(p / 2, shift + 1);
    }
  }

  lemma OrdersOne(shift: nat)
    ensures Orders(1, shift) == [shift]
  {
  }

  /** Dropping the lowest set bit and skipping to the next one moves to the next tree. */
  lemma NextTree(p: nat, shift: nat)
    requires p % 2 == 1 && p > 1
    ensures Pntz(p) >= 1 && Shr(p, Pntz(p)) % 2 == 1 && Shr(p, Pntz(p)) < p
    ensures Orders(p, shift) == [shift] + Orders(Shr(p, Pntz(p)), shift + Pntz(p))
    ensures Orders(Shr(p, Pntz(p)), shift + Pntz(p))[0] == shift + Pntz(p)
  {
    var n := Ctz(p / 2);
    assert (p - 1) / 2 == p / 2;
    OrdersTrim(p / 2, shift + 1);
    ShrAtMost(p / 2, n);
  }

  lemma {:induction false} ShrAtMost(p: nat, n: nat)
    ensures Shr(p, n) <= p
    decreases n
  {
    if n > 0 {
      ShrAtMost(p / 2, n - 1);
    }
  }

  lemma {:induction false} OrdersShl(p: nat, n: nat, shift: nat)
    ensures Orders(Shl(p, n), shift) == Orders(p, shift + n)
    decreases n
  {
    if n > 0 {
      OrdersShl(p, n - 1, shift + 1);
    }
  }

  lemma OrdersOr1(p: nat, shift: nat)
    requires p % 2 == 0
    ensures Or(p, 1) % 2 == 1 && Orders(Or(p, 1), shift) == [shift] + Orders(p, shift)
  {
    OrBit(p, 1);
  }

  /** Two lowest bits set: the two rightmost trees have consecutive orders. */
  lemma OrdersAdjacent(p: nat, shift: nat)
    requires p % 4 == 3
    ensures Orders(p, shift) == [shift, shift + 1] + Orders(Shr(p, 2), shift + 2)
  {
    assert Shr(p, 2) == p / 2 / 2;
  }

  lemma OrdersGap(p: nat, shift: nat)
    requires p % 4 == 1
    ensures Orders(p, shift) == [shift] + Orders(p / 2 / 2, shift + 2)
  {
    assert p / 2 % 2 == 0;
    assert p > 1 ==> p / 2 > 0 && Orders(p / 2, shift + 1) == Orders(p / 2 / 2, shift + 2);
    assert p == 1 ==> Orders(0, shift + 1) == [] == Orders(0, shift + 2);
  }

  /** The two lowest bits tell how the two rightmost trees compare. */
  lemma OrdersHead(p: nat, shift: nat)
    requires p % 2 == 1
    ensures Orders(p, shift) != [] && Orders(p, shift)[0] == shift
    ensures p % 4 == 3 ==> |Orders(p, shift)| > 1 && Orders(p, shift)[1] == shift + 1
    ensures p % 4 != 3 && |Orders(p, shift)| > 1 ==> shift + 2 <= Orders(p, shift)[1]
  {
    if p % 4 == 3 {
      OrdersAdjacent(p, shift);
    } else {
      OrdersGap(p, shift);
    }
  }

  /** Splitting the lowest tree in two: the left child's tree is now the lowest... */
  lemma OrdersSplitLeft(p: nat, shift: nat)
    requires p % 2 == 1 && shift >= 2
    ensures var q := Shr(Xor(Shl(p, 2), 7), 1);
      q % 2 == 1 && Orders(q, shift - 1) == [shift - 1] + Orders(p, shift)[1..]
  {
    var q := Shr(Xor(Shl(p, 2), 7), 1);
    hide Xor, Shl, Shr;
    XorSeven(p);
    assert q == 2 * (p - 1) + 1 && q / 2 == p - 1;
    assert p > 1 ==> Orders(p - 1, shift) == Orders((p - 1) / 2, shift + 1);
    assert (p - 1) / 2 == p / 2;
  }

  /** ... and then the right child's is put before it. */
  lemma OrdersSplitRight(q: nat, shift: nat)
    requires q % 2 == 1
    ensures var r := Or(Shl(q, 1), 1);
      r % 2 == 1 && Orders(r, shift) == [shift] + Orders(q, shift + 1)
  {
    assert Shl(q, 1) == 2 * q;
    OrBit(2 * q, 1);
    assert Orders(2 * q, shift) == Orders(q, shift + 1);
  }
}
