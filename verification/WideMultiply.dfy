/** Multiplying words into double words by parts: `wideMultiply` for 64 bits, which is exact,
    and for 128 bits, which in one case loses a carry. */
module WideMultiply {

  const HALF: nat := 0x1_0000_0000
  const WORD: nat := 0x1_0000_0000_0000_0000
  const WIDE: nat := 0x1_0000_0000_0000_0000_0000_0000_0000_0000

  lemma ProductBound(x: nat, y: nat)
    requires x < HALF && y < HALF
    ensures x * y <= 0xffff_fffe_0000_0001
  {
    var m := 0xffff_ffff;
    assert x * y <= m * y by { Times(x, m, y); }
    assert m * y <= m * m by { Times(y, m, m); }
  }

  lemma Times(x: nat, y: nat, z: nat)
    requires x <= y
    ensures x * z <= y * z && z * x <= z * y
  {
  }

  /** Two halves by two halves. */
  lemma Distribute2(a1: nat, a0: nat, b1: nat, b0: nat)
    ensures (a1 * HALF + a0) * (b1 * HALF + b0) ==
            (a1 * b1) * WORD + (a1 * b0 + a0 * b1) * HALF + a0 * b0
  {
    var b := b1 * HALF + b0;
    assert (a1 * HALF + a0) * b == (a1 * b) * HALF + a0 * b;
    assert a1 * b == (a1 * b1) * HALF + a1 * b0;
    assert a0 * b == (a0 * b1) * HALF + a0 * b0;
  }

  /** 64 by 64 bits into 128. */
  method WideMultiply64(a: nat, b: nat) returns (hi: nat, lo: nat)
    requires a < 0x1_0000_0000_0000_0000 && b < 0x1_0000_0000_0000_0000
    ensures hi < 0x1_0000_0000_0000_0000 && lo < 0x1_0000_0000_0000_0000
    ensures hi * 0x1_0000_0000_0000_0000 + lo == a * b
  {
    var al, ah, bl, bh := a % HALF, a / HALF, b % HALF, b / HALF;
    ProductBound(al, bl);
    ProductBound(al, bh);
    ProductBound(ah, bl);
    ProductBound(ah, bh);
    Distribute2(ah, al, bh, bl);
    hi, lo := Sum64(al * bl, al * bh, ah * bl, ah * bh);
  }

  lemma ShiftedMod(x: nat, n: nat)
    requires x < 4 * HALF && n == HALF
    ensures (x * n) % WORD == (x % HALF) * n
  {
    assert x * n == (x / HALF) * WORD + (x % HALF) * n;
    ModIs((x / HALF), (x % HALF) * n);
  }

  lemma ModIs(q: nat, r: nat)
    requires r < WORD
    ensures (q * WORD + r) % WORD == r && (q * WORD + r) / WORD == q
  {
  }

  method Sum64(plolo: nat, plohi: nat, philo: nat, phihi: nat) returns (hi: nat, lo: nat)
    requires plolo <= 0xffff_fffe_0000_0001 && plohi <= 0xffff_fffe_0000_0001
    requires philo <= 0xffff_fffe_0000_0001 && phihi <= 0xffff_fffe_0000_0001
    ensures hi < WORD && lo < WORD
    ensures hi * WORD + lo == phihi * WORD + (philo + plohi) * HALF + plolo
  {
    var r0 := plolo % HALF;
    var r1 := plolo / HALF + plohi % HALF + philo % HALF;
    ShiftedMod(r1, HALF);
    ModIs(0, r0 + (r1 % HALF) * HALF);
    lo := (r0 + (r1 * HALF) % WORD) % WORD;
    ghost var top := plohi / HALF + philo / HALF + r1 / HALF + phihi;
    assert top * WORD + lo == phihi * WORD + (philo + plohi) * HALF + plolo;
    ModIs(0, top);
    hi := (plohi / HALF + philo / HALF + r1 / HALF + phihi) % WORD;
  }

  // ----- 128 bits

  const THREE: nat := 0x1_0000_0000_0000_0000_0000_0000

  lemma Row(x: nat, b1: nat, b2: nat, b3: nat, b4: nat)
    ensures x * (b1 * THREE + b2 * WORD + b3 * HALF + b4) ==
            (x * b1) * THREE + (x * b2) * WORD + (x * b3) * HALF + x * b4
  {
    assert x * (b1 * THREE + b2 * WORD + b3 * HALF + b4) ==
           x * (b1 * THREE) + x * (b2 * WORD) + x * (b3 * HALF) + x * b4;
  }

  lemma RowOf(x: nat, b: nat, b1: nat, b2: nat, b3: nat, b4: nat)
    requires b == b1 * THREE + b2 * WORD + b3 * HALF + b4
    ensures x * b == (x * b1) * THREE + (x * b2) * WORD + (x * b3) * HALF + x * b4
  {
    Row(x, b1, b2, b3, b4);
  }

  lemma Commute(x: nat, y: nat)
    ensures x * y == y * x
  {
  }

  /** Four parts by four parts, collected by weight. */
  lemma Distribute4(a: nat, a1: nat, a2: nat, a3: nat, a4: nat, b: nat, b1: nat, b2: nat, b3: nat, b4: nat)
    requires a == a1 * THREE + a2 * WORD + a3 * HALF + a4 && b == b1 * THREE + b2 * WORD + b3 * HALF + b4
    ensures a * b == Weighed(a4 * b4, a3 * b4 + a4 * b3, a2 * b4 + a3 * b3 + a4 * b2,
                             a1 * b4 + a2 * b3 + a3 * b2 + a4 * b1,
                             a1 * b3 + a2 * b2 + a3 * b1, a1 * b2 + a2 * b1, a1 * b1)
  {
    hide Weighed;
    RowOf(a1, b, b1, b2, b3, b4);
    RowOf(a2, b, b1, b2, b3, b4);
    RowOf(a3, b, b1, b2, b3, b4);
    RowOf(a4, b, b1, b2, b3, b4);
    RowOf(b, a, a1, a2, a3, a4);
    Commute(a, b);
    Commute(a1, b);
    Commute(a2, b);
    Commute(a3, b);
    Commute(a4, b);
    ByWeight(a * b, a1 * b, a2 * b, a3 * b, a4 * b,
             a1 * b1, a1 * b2, a1 * b3, a1 * b4, a2 * b1, a2 * b2, a2 * b3, a2 * b4,
             a3 * b1, a3 * b2, a3 * b3, a3 * b4, a4 * b1, a4 * b2, a4 * b3, a4 * b4);
  }

  /** Four rows of products, one part further up each, by weight. */
  lemma ByWeight(all: nat, w: nat, x: nat, y: nat, z: nat, w1: nat, w2: nat, w3: nat, w4: nat,
                 x1: nat, x2: nat, x3: nat, x4: nat, y1: nat, y2: nat, y3: nat, y4: nat,
                 z1: nat, z2: nat, z3: nat, z4: nat)
    requires all == w * THREE + x * WORD + y * HALF + z
    requires w == w1 * THREE + w2 * WORD + w3 * HALF + w4 && x == x1 * THREE + x2 * WORD + x3 * HALF + x4
    requires y == y1 * THREE + y2 * WORD + y3 * HALF + y4 && z == z1 * THREE + z2 * WORD + z3 * HALF + z4
    ensures all == Weighed(z4, y4 + z3, x4 + y3 + z2, w4 + x3 + y2 + z1, w3 + x2 + y1, w2 + x1, w1)
  {
  }

  function Weighed(s0: nat, s1: nat, s2: nat, s3: nat, s4: nat, s5: nat, s6: nat): nat {
    s0 + s1 * HALF + s2 * WORD + s3 * THREE + (s4 + s5 * HALF + s6 * WORD) * WIDE
  }

  /** The two sums the low word is made of. */
  function R0(s0: nat, s1: nat): nat { s0 % WORD + (s1 % HALF) * HALF }

  function R1(s0: nat, s1: nat, s2: nat, s3: nat): nat {
    s0 / WORD + (s1 / HALF) % WORD + s2 % WORD + (s3 % HALF) * HALF
  }

  function Part(a: nat, i: nat): nat
    requires 1 <= i <= 4
  {
    (if i == 1 then a / THREE else if i == 2 then a / WORD else if i == 3 then a / HALF else a) % HALF
  }

  lemma Parts(a: nat)
    requires a < WIDE
    ensures a == Part(a, 1) * THREE + Part(a, 2) * WORD + Part(a, 3) * HALF + Part(a, 4)
    ensures forall i :: 1 <= i <= 4 ==> Part(a, i) < HALF
  {
  }

  lemma DivMod(x: nat, n: nat)
    requires n > 0
    ensures x == (x / n) * n + x % n && x % n < n
  {
  }

  /** All the weight is in the two sums of the low word and in what goes to the high one. */
  lemma Regroup(s0: nat, s1: nat, s2: nat, s3: nat, s4: nat, s5: nat, s6: nat)
    requires s1 < 2 * WORD
    ensures s1 / THREE == 0
    ensures Weighed(s0, s1, s2, s3, s4, s5, s6) ==
            R0(s0, s1) + R1(s0, s1, s2, s3) * WORD + (s2 / WORD + s3 / HALF + s4 + s5 * HALF + s6 * WORD) * WIDE
  {
    DivMod(s0, WORD);
    DivMod(s1, HALF);
    DivMod(s2, WORD);
    DivMod(s3, HALF);
  }

  /** The mask that keeps the upper half of the low word. */
  function HighHalf(x: nat): nat { (x % WORD) / HALF * HALF }

  lemma HighHalfIs(x: nat)
    requires x < 4 * WORD
    ensures HighHalf((x * HALF) % WIDE) == (x % HALF) * HALF
  {
    DivMod(x, HALF);
    assert x * HALF == (x / HALF) * WORD + (x % HALF) * HALF;
    ModIs(x / HALF, (x % HALF) * HALF);
  }

  /** Exactly then the addition that makes the low word carries out of it, and the carry
      is lost. */
  predicate LosesCarry(r0: nat, r1: nat) { r0 >= WORD && r1 % WORD == WORD - 1 }

  method Sum128(s0: nat, s1: nat, s2: nat, s3: nat, s4: nat, s5: nat, s6: nat) returns (hi: nat, lo: nat)
    requires s0 < WORD && s1 < 2 * WORD && s2 < 3 * WORD && s3 < 4 * WORD
    requires Weighed(s0, s1, s2, s3, s4, s5, s6) < WIDE * WIDE
    ensures hi < WIDE && lo < WIDE
    ensures hi * WIDE + lo == Weighed(s0, s1, s2, s3, s4, s5, s6) -
                              if LosesCarry(R0(s0, s1), R1(s0, s1, s2, s3)) then WIDE else 0
  {
    hide Weighed;
    Regroup(s0, s1, s2, s3, s4, s5, s6);
    HighHalfIs(s3);
    var r0 := s0 % WORD + (s1 % HALF) * HALF;
    var r1 := s0 / WORD + (s1 / HALF) % WORD + s2 % WORD + HighHalf((s3 * HALF) % WIDE);
    DivMod(r1, WORD);
    LowWord(r0, r1);
    lo := (r0 + (r1 * WORD) % WIDE) % WIDE;
    ghost var top := r1 / WORD + s2 / WORD + s3 / HALF + s4 + s5 * HALF + s6 * WORD;
    Fits(top, lo, Weighed(s0, s1, s2, s3, s4, s5, s6), if LosesCarry(r0, r1) then WIDE else 0);
    hi := (r1 / WORD + s1 / THREE + s2 / WORD + s3 / HALF + s4 + s5 * HALF + s6 * WORD) % WIDE;
  }

  lemma LowWord(r0: nat, r1: nat)
    requires r0 < 2 * WORD && r1 < 4 * WORD
    ensures (r0 + (r1 * WORD) % WIDE) % WIDE == r0 + (r1 % WORD) * WORD - if LosesCarry(r0, r1) then WIDE else 0
  {
    DivMod(r1, WORD);
    assert r1 * WORD == (r1 / WORD) * WIDE + (r1 % WORD) * WORD;
    WideMod(r1 / WORD, (r1 % WORD) * WORD);
    var sum := r0 + (r1 % WORD) * WORD;
    if LosesCarry(r0, r1) {
      WideMod(1, sum - WIDE);
    } else {
      WideMod(0, sum);
    }
  }

  lemma WideMod(q: nat, r: nat)
    requires r < WIDE
    ensures (q * WIDE + r) % WIDE == r
  {
  }

  /** The high word itself does not overflow. */
  lemma Fits(top: nat, lo: nat, all: nat, lost: nat)
    requires top * WIDE + lo + lost == all < WIDE * WIDE
    ensures top < WIDE && top % WIDE == top
  {
  }

  /** The products of parts, added up by weight. */
  datatype Sums = Sums(s0: nat, s1: nat, s2: nat, s3: nat, s4: nat, s5: nat, s6: nat)

  function Product(x: nat, y: nat): (z: nat)
    ensures x < HALF && y < HALF ==> z <= 0xffff_fffe_0000_0001
  {
    if x < HALF && y < HALF then
      ProductBound(x, y);
      x * y
    else x * y
  }

  function SumsOf(a1: nat, a2: nat, a3: nat, a4: nat, b1: nat, b2: nat, b3: nat, b4: nat): Sums {
    Sums(Product(a4, b4),
         Product(a3, b4) + Product(a4, b3),
         Product(a2, b4) + Product(a3, b3) + Product(a4, b2),
         Product(a1, b4) + Product(a2, b3) + Product(a3, b2) + Product(a4, b1),
         Product(a1, b3) + Product(a2, b2) + Product(a3, b1),
         Product(a1, b2) + Product(a2, b1),
         Product(a1, b1))
  }

  function AllSums(a: nat, b: nat): Sums {
    SumsOf(Part(a, 1), Part(a, 2), Part(a, 3), Part(a, 4), Part(b, 1), Part(b, 2), Part(b, 3), Part(b, 4))
  }

  lemma AllSumsWeigh(a: nat, b: nat)
    requires a < WIDE && b < WIDE
    ensures var s := AllSums(a, b);
      && Weighed(s.s0, s.s1, s.s2, s.s3, s.s4, s.s5, s.s6) == a * b < WIDE * WIDE
      && s.s0 < WORD && s.s1 < 2 * WORD && s.s2 < 3 * WORD && s.s3 < 4 * WORD
  {
    hide Part, Weighed;
    Parts(a);
    Parts(b);
    Distribute4(a, Part(a, 1), Part(a, 2), Part(a, 3), Part(a, 4), b, Part(b, 1), Part(b, 2), Part(b, 3), Part(b, 4));
    WideProduct(a, b);
  }

  /** Whether the carry is lost, from the operands. */
  predicate Short(a: nat, b: nat) {
    var s := AllSums(a, b);
    LosesCarry(R0(s.s0, s.s1), R1(s.s0, s.s1, s.s2, s.s3))
  }

  /** 128 by 128 bits into 256: short of the product by 2^128 exactly when the carry is lost. */
  method WideMultiply128(a: nat, b: nat) returns (hi: nat, lo: nat)
    requires a < 0x1_0000_0000_0000_0000_0000_0000_0000_0000 && b < 0x1_0000_0000_0000_0000_0000_0000_0000_0000
    ensures hi < 0x1_0000_0000_0000_0000_0000_0000_0000_0000 && lo < 0x1_0000_0000_0000_0000_0000_0000_0000_0000
    ensures hi * 0x1_0000_0000_0000_0000_0000_0000_0000_0000 + lo ==
            a * b - if Short(a, b) then 0x1_0000_0000_0000_0000_0000_0000_0000_0000 else 0
  {
    hide Part, Weighed, Product, R0, R1;
    AllSumsWeigh(a, b);
    var s := AllSums(a, b);
    hi, lo := Sum128(s.s0, s.s1, s.s2, s.s3, s.s4, s.s5, s.s6);
  }

  lemma WideProduct(a: nat, b: nat)
    requires a < WIDE && b < WIDE
    ensures a * b < WIDE * WIDE
  {
    Times(a, WIDE - 1, b);
    Times(b, WIDE - 1, WIDE - 1);
  }

  lemma SumsAre(t: nat, m: nat, b: nat)
    requires t == 0x5555_5555 && m == 0xffff_ffff && b == 3
    ensures var s := SumsOf(t, t, t, m, 0, 0, 0, b);
      s.s0 == 0x2_ffff_fffd && s.s1 == m && s.s2 == m && s.s3 == m
  {
    assert Product(t, b) == m && Product(m, b) == 0x2_ffff_fffd;
    assert Product(t, 0) == 0 && Product(m, 0) == 0;
  }

  lemma PartsAre(a: nat, b: nat, t: nat, m: nat)
    requires a == 0x5555_5555_5555_5555_5555_5555_ffff_ffff && b == 3 && t == 0x5555_5555 && m == 0xffff_ffff
    ensures Part(a, 1) == t && Part(a, 2) == t && Part(a, 3) == t && Part(a, 4) == m
    ensures Part(b, 1) == 0 && Part(b, 2) == 0 && Part(b, 3) == 0 && Part(b, 4) == b
  {
  }

  /** It can happen. */
  lemma CarryLost(a: nat, b: nat)
    requires a == 0x5555_5555_5555_5555_5555_5555_ffff_ffff && b == 3
    ensures Short(a, b)
  {
    hide Part, Product, SumsOf;
    var t, m := 0x5555_5555, 0xffff_ffff;
    PartsAre(a, b, t, m);
    SumsAre(t, m, b);
  }
}
