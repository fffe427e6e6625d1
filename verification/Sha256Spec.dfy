/** SHA-256 as FIPS 180-4 defines it. */
module Sha256Spec {
  import opened Sequences

  type Word = x: nat | x < 0x1_0000_0000

  /** Byte s / 8 of a word. */
  function WordByte(w: Word, s: nat): Byte
    requires s == 0 || s == 8 || s == 16 || s == 24
  {
    var d := if s == 0 then 1 else if s == 8 then 0x100 else if s == 16 then 0x1_0000 else 0x100_0000;
    w / d % 0x100
  }

  function BigEndian(a: Byte, b: Byte, c: Byte, d: Byte): Word {
    a * 0x100_0000 + b * 0x1_0000 + c * 0x100 + d
  }

  // ----- sections 3.2 and 4.1.2

  /** Addition modulo 2^32. */
  function Plus(x: Word, y: Word): Word { (x + y) % 0x1_0000_0000 }

  function FromBits(z: bv32): Word { z as nat }

  function Xor(x: Word, y: Word): Word { FromBits((x as bv32) ^ (y as bv32)) }

  function Shr(x: Word, n: bv6): Word
    requires n < 32
  {
    FromBits((x as bv32) >> n)
  }

  function Rotr(x: Word, n: bv6): Word
    requires 0 < n < 32
  {
    FromBits(((x as bv32) >> n) | ((x as bv32) << (32 - n)))
  }

  function BigSigma0(x: Word): Word { Xor(Xor(Rotr(x, 2), Rotr(x, 13)), Rotr(x, 22)) }

  function BigSigma1(x: Word): Word { Xor(Xor(Rotr(x, 6), Rotr(x, 11)), Rotr(x, 25)) }

  function SmallSigma0(x: Word): Word { Xor(Xor(Rotr(x, 7), Rotr(x, 18)), Shr(x, 3)) }

  function SmallSigma1(x: Word): Word { Xor(Xor(Rotr(x, 17), Rotr(x, 19)), Shr(x, 10)) }

  function Ch(x: Word, y: Word, z: Word): Word {
    FromBits(((x as bv32) & (y as bv32)) ^ (!(x as bv32) & (z as bv32)))
  }

  function Maj(x: Word, y: Word, z: Word): Word {
    FromBits(((x as bv32) & (y as bv32)) ^ ((x as bv32) & (z as bv32)) ^ ((y as bv32) & (z as bv32)))
  }

  // ----- section 4.2.2

  const K: seq<Word> :=
    [0x428a2f98, 0x71374491, 0xb5c0fbcf, 0xe9b5dba5, 0x3956c25b, 0x59f111f1, 0x923f82a4, 0xab1c5ed5] +
    [0xd807aa98, 0x12835b01, 0x243185be, 0x550c7dc3, 0x72be5d74, 0x80deb1fe, 0x9bdc06a7, 0xc19bf174] +
    [0xe49b69c1, 0xefbe4786, 0x0fc19dc6, 0x240ca1cc, 0x2de92c6f, 0x4a7484aa, 0x5cb0a9dc, 0x76f988da] +
    [0x983e5152, 0xa831c66d, 0xb00327c8, 0xbf597fc7, 0xc6e00bf3, 0xd5a79147, 0x06ca6351, 0x14292967] +
    [0x27b70a85, 0x2e1b2138, 0x4d2c6dfc, 0x53380d13, 0x650a7354, 0x766a0abb, 0x81c2c92e, 0x92722c85] +
    [0xa2bfe8a1, 0xa81a664b, 0xc24b8b70, 0xc76c51a3, 0xd192e819, 0xd6990624, 0xf40e3585, 0x106aa070] +
    [0x19a4c116, 0x1e376c08, 0x2748774c, 0x34b0bcb5, 0x391c0cb3, 0x4ed8aa4a, 0x5b9cca4f, 0x682e6ff3] +
    [0x748f82ee, 0x78a5636f, 0x84c87814, 0x8cc70208, 0x90befffa, 0xa4506ceb, 0xbef9a3f7, 0xc67178f2]

  // ----- section 5.3.3

  const H0: seq<Word> := [
    0x6a09e667, 0xbb67ae85, 0x3c6ef372, 0xa54ff53a, 0x510e527f, 0x9b05688c, 0x1f83d9ab, 0x5be0cd19]

  // ----- section 5.1.1

  /** Zero bytes after the 0x80: the fewest that leave eight bytes of the last block. */
  function PadZeros(n: nat): (k: nat)
    ensures k < 64 && (n + 1 + k) % 64 == 56
  {
    (119 - n % 64) % 64
  }

  /** The last k bytes of a number, most significant first. */
  function LastBytes(n: nat, k: nat): (b: seq<Byte>)
    ensures |b| == k
  {
    if k == 0 then [] else LastBytes(n / 0x100, k - 1) + [n % 0x100]
  }

  function Zeros(k: nat): (z: seq<Byte>)
    ensures |z| == k
  {
    seq(k, _ => 0)
  }

  lemma EightMore(n: nat)
    requires n % 64 == 56
    ensures (n + 8) % 64 == 0
  {
    assert n == 64 * (n / 64) + 56;
  }

  /** The padded message: 0x80, zeros, the bit length in 64 bits. */
  function Pad(m: seq<Byte>): (p: seq<Byte>)
    ensures |p| % 64 == 0
  {
    var k := PadZeros(|m|);
    EightMore(|m| + 1 + k);
    m + [0x80] + Zeros(k) + LastBytes(8 * |m|, 8)
  }

  // ----- section 6.2.2

  datatype Vars = Vars(a: Word, b: Word, c: Word, d: Word, e: Word, f: Word, g: Word, h: Word)

  /** Word t of the message schedule. */
  function Schedule(block: seq<Byte>, t: nat): Word
    requires |block| == 64
  {
    if t < 16 then BigEndian(block[4 * t], block[4 * t + 1], block[4 * t + 2], block[4 * t + 3])
    else Plus(Plus(Plus(SmallSigma1(Schedule(block, t - 2)), Schedule(block, t - 7)),
                   SmallSigma0(Schedule(block, t - 15))), Schedule(block, t - 16))
  }

  function Round(v: Vars, k: Word, w: Word): Vars {
    var t1 := Plus(Plus(Plus(Plus(v.h, BigSigma1(v.e)), Ch(v.e, v.f, v.g)), k), w);
    var t2 := Plus(BigSigma0(v.a), Maj(v.a, v.b, v.c));
    Vars(Plus(t1, t2), v.a, v.b, v.c, Plus(v.d, t1), v.e, v.f, v.g)
  }

  function Rounds(v: Vars, block: seq<Byte>, t: nat): Vars
    requires |block| == 64 && t <= 64
  {
    if t == 0 then v else Round(Rounds(v, block, t - 1), K[t - 1], Schedule(block, t - 1))
  }

  function Load(h: seq<Word>): Vars
    requires |h| == 8
  {
    Vars(h[0], h[1], h[2], h[3], h[4], h[5], h[6], h[7])
  }

  function Compress(h: seq<Word>, block: seq<Byte>): (r: seq<Word>)
    requires |h| == 8 && |block| == 64
    ensures |r| == 8
  {
    var v := Rounds(Load(h), block, |K|);
    [Plus(h[0], v.a), Plus(h[1], v.b), Plus(h[2], v.c), Plus(h[3], v.d),
     Plus(h[4], v.e), Plus(h[5], v.f), Plus(h[6], v.g), Plus(h[7], v.h)]
  }

  /** The chaining value after all blocks of m. */
  function Absorb(m: seq<Byte>): (h: seq<Word>)
    requires |m| % 64 == 0
    ensures |h| == 8
  {
    if m == [] then H0 else Compress(Absorb(m[..|m| - 64]), m[|m| - 64..])
  }

  function WordBytes(w: Word): (b: seq<Byte>)
    ensures |b| == 4
  {
    [WordByte(w, 24), WordByte(w, 16), WordByte(w, 8), WordByte(w, 0)]
  }

  function Unload(h: seq<Word>): (b: seq<Byte>)
    ensures |b| == 4 * |h|
  {
    if h == [] then [] else Unload(h[..|h| - 1]) + WordBytes(h[|h| - 1])
  }

  function Digest(m: seq<Byte>): (d: seq<Byte>)
    ensures |d| == 32
  {
    Unload(Absorb(Pad(m)))
  }
}
