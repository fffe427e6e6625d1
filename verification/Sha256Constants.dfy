/** Where the constants of SHA-256 come from (sections 4.2.2 and 5.3.3 of FIPS 180-4): the first 32
    bits of the fractional parts of the cube roots of the first 64 primes, and of the square roots
    of the first eight. */
module Sha256Constants {
  import opened Sha256Spec
  import opened Sha256Example

  // ----- the primes

  predicate Divides(d: nat, n: nat)
    requires d > 0
  {
    n % d == 0
  }

  ghost predicate IsPrime(n: nat) { n >= 2 && forall d :: 2 <= d < n ==> !Divides(d, n) }

  const PRIMES: seq<nat> :=
    [2, 3, 5, 7, 11, 13, 17, 19] +
    [23, 29, 31, 37, 41, 43, 47, 53] +
    [59, 61, 67, 71, 73, 79, 83, 89] +
    [97, 101, 103, 107, 109, 113, 127, 131] +
    [137, 139, 149, 151, 157, 163, 167, 173] +
    [179, 181, 191, 193, 197, 199, 211, 223] +
    [227, 229, 233, 239, 241, 251, 257, 263] +
    [269, 271, 277, 281, 283, 293, 307, 311]

  /** None of the primes below 19 divides it, unless it is that. */
  predicate Passes(n: nat) {
    && (n % 2 != 0 || n == 2) && (n % 3 != 0 || n == 3) && (n % 5 != 0 || n == 5) && (n % 7 != 0 || n == 7)
    && (n % 11 != 0 || n == 11) && (n % 13 != 0 || n == 13) && (n % 17 != 0 || n == 17)
  }

  lemma ByTwo(n: nat, h: nat)
    requires n == 2 * h && h >= 2
    ensures n % 2 == 0 && n != 2
  {
  }

  lemma ByThree(n: nat, h: nat)
    requires n == 3 * h && h >= 2
    ensures n % 3 == 0 && n != 3
  {
  }

  lemma ByFive(n: nat, h: nat)
    requires n == 5 * h && h >= 2
    ensures n % 5 == 0 && n != 5
  {
  }

  lemma BySeven(n: nat, h: nat)
    requires n == 7 * h && h >= 2
    ensures n % 7 == 0 && n != 7
  {
  }

  lemma ByEleven(n: nat, h: nat)
    requires n == 11 * h && h >= 2
    ensures n % 11 == 0 && n != 11
  {
  }

  lemma ByThirteen(n: nat, h: nat)
    requires n == 13 * h && h >= 2
    ensures n % 13 == 0 && n != 13
  {
  }

  lemma BySeventeen(n: nat, h: nat)
    requires n == 17 * h && h >= 2
    ensures n % 17 == 0 && n != 17
  {
  }

  lemma Fails(n: nat)
    requires || (n % 2 == 0 && n != 2) || (n % 3 == 0 && n != 3) || (n % 5 == 0 && n != 5) || (n % 7 == 0 && n != 7)
             || (n % 11 == 0 && n != 11) || (n % 13 == 0 && n != 13) || (n % 17 == 0 && n != 17)
    ensures !Passes(n)
  {
  }

  lemma SmallFactor(n: nat, e: nat, m: nat)
    requires 2 <= e <= 18 && m >= 2 && n == e * m
    ensures !Passes(n)
  {
    hide Passes;
    match e {
      case 2 => ByTwo(n, m);
      case 3 => ByThree(n, m);
      case 4 => ByTwo(n, 2 * m);
      case 5 => ByFive(n, m);
      case 6 => ByTwo(n, 3 * m);
      case 7 => BySeven(n, m);
      case 8 => ByTwo(n, 4 * m);
      case 9 => ByThree(n, 3 * m);
      case 10 => ByTwo(n, 5 * m);
      case 11 => ByEleven(n, m);
      case 12 => ByTwo(n, 6 * m);
      case 13 => ByThirteen(n, m);
      case 14 => ByTwo(n, 7 * m);
      case 15 => ByThree(n, 5 * m);
      case 16 => ByTwo(n, 8 * m);
      case 17 => BySeventeen(n, m);
      case 18 => ByTwo(n, 9 * m);
    }
    Fails(n);
  }

  /** Below 19 squared that is enough. */
  lemma PassesIs(n: nat)
    requires 2 <= n < 361
    ensures Passes(n) <==> IsPrime(n)
  {
    hide Passes, Divides;
    if Passes(n) {
      forall d | 2 <= d < n ensures !Divides(d, n) {
        if Divides(d, n) {
          var k := Cofactor(n, d);
          SmallFactor(n, if d <= 18 then d else k, if d <= 18 then k else d);
        }
      }
    } else {
      Composite(n);
    }
  }

  lemma Cofactor(n: nat, d: nat) returns (k: nat)
    requires 2 <= d < n < 361 && Divides(d, n)
    ensures n == d * k && n == k * d && k >= 2 && (d <= 18 || k <= 18)
  {
    k := n / d;
    assert n == d * k;
    Bounds(d, k);
  }

  lemma Bounds(d: nat, k: nat)
    ensures k <= 1 ==> d * k <= d
    ensures d >= 19 && k >= 19 ==> d * k >= 361
  {
    if d >= 19 && k >= 19 {
      assert d * k >= 19 * k;
    }
  }

  lemma Composite(n: nat)
    requires n >= 2 && !Passes(n)
    ensures !IsPrime(n)
  {
    var d := if n % 2 == 0 && n != 2 then 2 else if n % 3 == 0 && n != 3 then 3 else if n % 5 == 0 && n != 5 then 5
             else if n % 7 == 0 && n != 7 then 7 else if n % 11 == 0 && n != 11 then 11
             else if n % 13 == 0 && n != 13 then 13 else 17;
    assert Divides(d, n) && d < n;
  }

  lemma Passing2(n: nat)
    requires 2 <= n < 40
    ensures Passes(n) <==> n in {2, 3, 5, 7, 11, 13, 17, 19, 23, 29, 31, 37}
  {
  }

  lemma Passing40(n: nat)
    requires 40 <= n < 80
    ensures Passes(n) <==> n in {41, 43, 47, 53, 59, 61, 67, 71, 73, 79}
  {
  }

  lemma Passing80(n: nat)
    requires 80 <= n < 110
    ensures Passes(n) <==> n in {83, 89, 97, 101, 103, 107, 109}
  {
  }

  lemma Passing110(n: nat)
    requires 110 <= n < 140
    ensures Passes(n) <==> n in {113, 127, 131, 137, 139}
  {
  }

  lemma Passing140(n: nat)
    requires 140 <= n < 160
    ensures Passes(n) <==> n in {149, 151, 157}
  {
  }

  lemma Passing160(n: nat)
    requires 160 <= n < 180
    ensures Passes(n) <==> n in {163, 167, 173, 179}
  {
  }

  lemma Passing180(n: nat)
    requires 180 <= n < 190
    ensures Passes(n) <==> n in {181}
  {
  }

  lemma Passing190(n: nat)
    requires 190 <= n < 200
    ensures Passes(n) <==> n in {191, 193, 197, 199}
  {
  }

  lemma Passing200(n: nat)
    requires 200 <= n < 230
    ensures Passes(n) <==> n in {211, 223, 227, 229}
  {
  }

  lemma Passing230(n: nat)
    requires 230 <= n < 260
    ensures Passes(n) <==> n in {233, 239, 241, 251, 257}
  {
  }

  lemma Passing260(n: nat)
    requires 260 <= n < 290
    ensures Passes(n) <==> n in {263, 269, 271, 277, 281, 283}
  {
  }

  lemma Passing290(n: nat)
    requires 290 <= n < 312
    ensures Passes(n) <==> n in {293, 307, 311}
  {
  }

  lemma InTable(n: nat)
    ensures n in PRIMES <==>
      || n in {2, 3, 5, 7, 11, 13, 17, 19, 23, 29, 31, 37, 41, 43, 47, 53}
      || n in {59, 61, 67, 71, 73, 79, 83, 89, 97, 101, 103, 107, 109, 113, 127, 131}
      || n in {137, 139, 149, 151, 157, 163, 167, 173, 179, 181, 191, 193, 197, 199, 211, 223}
      || n in {227, 229, 233, 239, 241, 251, 257, 263, 269, 271, 277, 281, 283, 293, 307, 311}
  {
  }

  lemma PassingAll(n: nat)
    requires 2 <= n < 312
    ensures Passes(n) <==> n in PRIMES
  {
    hide Passes, PRIMES;
    InTable(n);
    if n < 40 {
      Passing2(n);
    } else if n < 80 {
      Passing40(n);
    } else if n < 110 {
      Passing80(n);
    } else if n < 140 {
      Passing110(n);
    } else if n < 160 {
      Passing140(n);
    } else if n < 180 {
      Passing160(n);
    } else if n < 190 {
      Passing180(n);
    } else if n < 200 {
      Passing190(n);
    } else if n < 230 {
      Passing200(n);
    } else if n < 260 {
      Passing230(n);
    } else if n < 290 {
      Passing260(n);
    } else {
      Passing290(n);
    }
  }

  lemma Primes0()
    ensures |PRIMES| == 64
    ensures PRIMES[0] == 2 && PRIMES[1] == 3 && PRIMES[2] == 5 && PRIMES[3] == 7
    ensures PRIMES[4] == 11 && PRIMES[5] == 13 && PRIMES[6] == 17 && PRIMES[7] == 19
  {
  }

  lemma Primes8()
    ensures |PRIMES| == 64
    ensures PRIMES[8] == 23 && PRIMES[9] == 29 && PRIMES[10] == 31 && PRIMES[11] == 37
    ensures PRIMES[12] == 41 && PRIMES[13] == 43 && PRIMES[14] == 47 && PRIMES[15] == 53
  {
  }

  lemma Primes16()
    ensures |PRIMES| == 64
    ensures PRIMES[16] == 59 && PRIMES[17] == 61 && PRIMES[18] == 67 && PRIMES[19] == 71
    ensures PRIMES[20] == 73 && PRIMES[21] == 79 && PRIMES[22] == 83 && PRIMES[23] == 89
  {
  }

  lemma Primes24()
    ensures |PRIMES| == 64
    ensures PRIMES[24] == 97 && PRIMES[25] == 101 && PRIMES[26] == 103 && PRIMES[27] == 107
    ensures PRIMES[28] == 109 && PRIMES[29] == 113 && PRIMES[30] == 127 && PRIMES[31] == 131
  {
  }

  lemma Primes32()
    ensures |PRIMES| == 64
    ensures PRIMES[32] == 137 && PRIMES[33] == 139 && PRIMES[34] == 149 && PRIMES[35] == 151
    ensures PRIMES[36] == 157 && PRIMES[37] == 163 && PRIMES[38] == 167 && PRIMES[39] == 173
  {
  }

  lemma Primes40()
    ensures |PRIMES| == 64
    ensures PRIMES[40] == 179 && PRIMES[41] == 181 && PRIMES[42] == 191 && PRIMES[43] == 193
    ensures PRIMES[44] == 197 && PRIMES[45] == 199 && PRIMES[46] == 211 && PRIMES[47] == 223
  {
  }

  lemma Primes48()
    ensures |PRIMES| == 64
    ensures PRIMES[48] == 227 && PRIMES[49] == 229 && PRIMES[50] == 233 && PRIMES[51] == 239
    ensures PRIMES[52] == 241 && PRIMES[53] == 251 && PRIMES[54] == 257 && PRIMES[55] == 263
  {
  }

  lemma Primes56()
    ensures |PRIMES| == 64
    ensures PRIMES[56] == 269 && PRIMES[57] == 271 && PRIMES[58] == 277 && PRIMES[59] == 281
    ensures PRIMES[60] == 283 && PRIMES[61] == 293 && PRIMES[62] == 307 && PRIMES[63] == 311
  {
  }

  lemma AllPrimes()
    ensures |PRIMES| == 64 && forall i :: 0 <= i < 63 ==> PRIMES[i] < PRIMES[i + 1]
  {
    hide PRIMES;
    Primes0();
    Primes8();
    Primes16();
    Primes24();
    Primes32();
    Primes40();
    Primes48();
    Primes56();
  }

  lemma {:induction false} Ascending(i: nat, j: nat)
    requires i < j < |PRIMES|
    ensures PRIMES[i] < PRIMES[j]
    decreases j
  {
    hide PRIMES;
    AllPrimes();
    if i + 1 < j {
      Ascending(i, j - 1);
    }
  }

  /** The table has exactly the primes up to 311, in ascending order: its entry t is prime t. */
  lemma FirstPrimes()
    ensures |PRIMES| == 64 && forall i, j :: 0 <= i < j < |PRIMES| ==> PRIMES[i] < PRIMES[j]
    ensures forall n: nat :: n in PRIMES <==> n <= 311 && IsPrime(n)
  {
    hide PRIMES, Passes, IsPrime;
    AllPrimes();
    forall i, j | 0 <= i < j < |PRIMES| ensures PRIMES[i] < PRIMES[j] {
      Ascending(i, j);
    }
    forall n: nat ensures n in PRIMES <==> n <= 311 && IsPrime(n) {
      InTable(n);
      NotPrime(n);
      if 2 <= n < 312 {
        PassingAll(n);
        PassesIs(n);
      }
    }
  }

  lemma NotPrime(n: nat)
    ensures n < 2 ==> !IsPrime(n)
  {
  }

  // ----- their roots

  function Cube(x: nat): nat { x * x * x }

  function Square(x: nat): nat { x * x }

  /** k is the first 32 bits behind the point of the cube root of q, before which is a. */
  predicate CubeRoot(a: nat, k: Word, q: nat) {
    Cube(a * 0x1_0000_0000 + k) <= q * 0x1_0000_0000_0000_0000_0000_0000 < Cube(a * 0x1_0000_0000 + k + 1)
  }

  predicate SquareRoot(a: nat, k: Word, q: nat) {
    Square(a * 0x1_0000_0000 + k) <= q * 0x1_0000_0000_0000_0000 < Square(a * 0x1_0000_0000 + k + 1)
  }

  lemma Roots0(t: nat)
    requires 0 <= t < 8 && |K| == |PRIMES| == 64
    ensures exists a: nat :: CubeRoot(a, K[t], PRIMES[t])
  {
    hide K, PRIMES;
    Constants0();
    Primes0();
    assert CubeRoot(1, 0x428a2f98, 2);
    assert CubeRoot(1, 0x71374491, 3);
    assert CubeRoot(1, 0xb5c0fbcf, 5);
    assert CubeRoot(1, 0xe9b5dba5, 7);
    assert CubeRoot(2, 0x3956c25b, 11);
    assert CubeRoot(2, 0x59f111f1, 13);
    assert CubeRoot(2, 0x923f82a4, 17);
    assert CubeRoot(2, 0xab1c5ed5, 19);
  }

  lemma Roots8(t: nat)
    requires 8 <= t < 16 && |K| == |PRIMES| == 64
    ensures exists a: nat :: CubeRoot(a, K[t], PRIMES[t])
  {
    hide K, PRIMES;
    Constants8();
    Primes8();
    assert CubeRoot(2, 0xd807aa98, 23);
    assert CubeRoot(3, 0x12835b01, 29);
    assert CubeRoot(3, 0x243185be, 31);
    assert CubeRoot(3, 0x550c7dc3, 37);
    assert CubeRoot(3, 0x72be5d74, 41);
    assert CubeRoot(3, 0x80deb1fe, 43);
    assert CubeRoot(3, 0x9bdc06a7, 47);
    assert CubeRoot(3, 0xc19bf174, 53);
  }

  lemma Roots16(t: nat)
    requires 16 <= t < 24 && |K| == |PRIMES| == 64
    ensures exists a: nat :: CubeRoot(a, K[t], PRIMES[t])
  {
    hide K, PRIMES;
    Constants16();
    Primes16();
    assert CubeRoot(3, 0xe49b69c1, 59);
    assert CubeRoot(3, 0xefbe4786, 61);
    assert CubeRoot(4, 0x0fc19dc6, 67);
    assert CubeRoot(4, 0x240ca1cc, 71);
    assert CubeRoot(4, 0x2de92c6f, 73);
    assert CubeRoot(4, 0x4a7484aa, 79);
    assert CubeRoot(4, 0x5cb0a9dc, 83);
    assert CubeRoot(4, 0x76f988da, 89);
  }

  lemma Roots24(t: nat)
    requires 24 <= t < 32 && |K| == |PRIMES| == 64
    ensures exists a: nat :: CubeRoot(a, K[t], PRIMES[t])
  {
    hide K, PRIMES;
    Constants24();
    Primes24();
    assert CubeRoot(4, 0x983e5152, 97);
    assert CubeRoot(4, 0xa831c66d, 101);
    assert CubeRoot(4, 0xb00327c8, 103);
    assert CubeRoot(4, 0xbf597fc7, 107);
    assert CubeRoot(4, 0xc6e00bf3, 109);
    assert CubeRoot(4, 0xd5a79147, 113);
    assert CubeRoot(5, 0x06ca6351, 127);
    assert CubeRoot(5, 0x14292967, 131);
  }

  lemma Roots32(t: nat)
    requires 32 <= t < 40 && |K| == |PRIMES| == 64
    ensures exists a: nat :: CubeRoot(a, K[t], PRIMES[t])
  {
    hide K, PRIMES;
    Constants32();
    Primes32();
    assert CubeRoot(5, 0x27b70a85, 137);
    assert CubeRoot(5, 0x2e1b2138, 139);
    assert CubeRoot(5, 0x4d2c6dfc, 149);
    assert CubeRoot(5, 0x53380d13, 151);
    assert CubeRoot(5, 0x650a7354, 157);
    assert CubeRoot(5, 0x766a0abb, 163);
    assert CubeRoot(5, 0x81c2c92e, 167);
    assert CubeRoot(5, 0x92722c85, 173);
  }

  lemma Roots40(t: nat)
    requires 40 <= t < 48 && |K| == |PRIMES| == 64
    ensures exists a: nat :: CubeRoot(a, K[t], PRIMES[t])
  {
    hide K, PRIMES;
    Constants40();
    Primes40();
    assert CubeRoot(5, 0xa2bfe8a1, 179);
    assert CubeRoot(5, 0xa81a664b, 181);
    assert CubeRoot(5, 0xc24b8b70, 191);
    assert CubeRoot(5, 0xc76c51a3, 193);
    assert CubeRoot(5, 0xd192e819, 197);
    assert CubeRoot(5, 0xd6990624, 199);
    assert CubeRoot(5, 0xf40e3585, 211);
    assert CubeRoot(6, 0x106aa070, 223);
  }

  lemma Roots48(t: nat)
    requires 48 <= t < 56 && |K| == |PRIMES| == 64
    ensures exists a: nat :: CubeRoot(a, K[t], PRIMES[t])
  {
    hide K, PRIMES;
    Constants48();
    Primes48();
    assert CubeRoot(6, 0x19a4c116, 227);
    assert CubeRoot(6, 0x1e376c08, 229);
    assert CubeRoot(6, 0x2748774c, 233);
    assert CubeRoot(6, 0x34b0bcb5, 239);
    assert CubeRoot(6, 0x391c0cb3, 241);
    assert CubeRoot(6, 0x4ed8aa4a, 251);
    assert CubeRoot(6, 0x5b9cca4f, 257);
    assert CubeRoot(6, 0x682e6ff3, 263);
  }

  lemma Roots56(t: nat)
    requires 56 <= t < 64 && |K| == |PRIMES| == 64
    ensures exists a: nat :: CubeRoot(a, K[t], PRIMES[t])
  {
    hide K, PRIMES;
    Constants56();
    Primes56();
    assert CubeRoot(6, 0x748f82ee, 269);
    assert CubeRoot(6, 0x78a5636f, 271);
    assert CubeRoot(6, 0x84c87814, 277);
    assert CubeRoot(6, 0x8cc70208, 281);
    assert CubeRoot(6, 0x90befffa, 283);
    assert CubeRoot(6, 0xa4506ceb, 293);
    assert CubeRoot(6, 0xbef9a3f7, 307);
    assert CubeRoot(6, 0xc67178f2, 311);
  }

  /** The constants of the rounds. */
  lemma ConstantsAreRoots(t: nat)
    requires t < 64
    ensures |K| == |PRIMES| == 64 && exists a: nat :: CubeRoot(a, K[t], PRIMES[t])
  {
    hide K, PRIMES, CubeRoot;
    Constants0();
    Primes0();
    if t < 8 {
      Roots0(t);
    } else if t < 16 {
      Roots8(t);
    } else if t < 24 {
      Roots16(t);
    } else if t < 32 {
      Roots24(t);
    } else if t < 40 {
      Roots32(t);
    } else if t < 48 {
      Roots40(t);
    } else if t < 56 {
      Roots48(t);
    } else {
      Roots56(t);
    }
  }

  lemma Initials()
    ensures |H0| == 8 && H0[0] == 0x6a09e667 && H0[1] == 0xbb67ae85 && H0[2] == 0x3c6ef372 && H0[3] == 0xa54ff53a
    ensures H0[4] == 0x510e527f && H0[5] == 0x9b05688c && H0[6] == 0x1f83d9ab && H0[7] == 0x5be0cd19
  {
  }

  /** The variables before the first block. */
  lemma InitialAreRoots(t: nat)
    requires t < 8
    ensures |H0| == 8 && |PRIMES| == 64 && exists a: nat :: SquareRoot(a, H0[t], PRIMES[t])
  {
    hide PRIMES, H0;
    Primes0();
    Initials();
    assert SquareRoot(1, 0x6a09e667, 2);
    assert SquareRoot(1, 0xbb67ae85, 3);
    assert SquareRoot(2, 0x3c6ef372, 5);
    assert SquareRoot(2, 0xa54ff53a, 7);
    assert SquareRoot(3, 0x510e527f, 11);
    assert SquareRoot(3, 0x9b05688c, 13);
    assert SquareRoot(4, 0x1f83d9ab, 17);
    assert SquareRoot(4, 0x5be0cd19, 19);
  }
}
