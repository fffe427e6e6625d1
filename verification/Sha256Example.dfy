/** The example of FIPS 180-4's validation data: the digest of "abc", round by round. It depends on
    every constant, on how far words are rotated and shifted, and on the order of bytes. */
module Sha256Example {
  import opened Sequences
  import opened Sha256Spec

  // ----- on bits

  function Turn(z: bv32, n: bv6): bv32
    requires 0 < n < 32
  {
    (z >> n) | (z << (32 - n))
  }

  function Down(z: bv32, n: bv6): bv32
    requires n < 32
  {
    z >> n
  }

  function Exclusive(p: bv32, q: bv32): bv32 { p ^ q }

  function Big0(z: bv32): bv32 { Exclusive(Exclusive(Turn(z, 2), Turn(z, 13)), Turn(z, 22)) }

  function Big1(z: bv32): bv32 { Exclusive(Exclusive(Turn(z, 6), Turn(z, 11)), Turn(z, 25)) }

  function Small0(z: bv32): bv32 { Exclusive(Exclusive(Turn(z, 7), Turn(z, 18)), Down(z, 3)) }

  function Small1(z: bv32): bv32 { Exclusive(Exclusive(Turn(z, 17), Turn(z, 19)), Down(z, 10)) }

  function Choice(p: bv32, q: bv32, r: bv32): bv32 { (p & q) ^ (!p & r) }

  function Majority(p: bv32, q: bv32, r: bv32): bv32 { (p & q) ^ (p & r) ^ (q & r) }

  lemma ThereAndBack(z: bv32)
    ensures FromBits(z) as bv32 == z
  {
  }

  lemma XorOnWords(x: Word, y: Word)
    ensures Xor(x, y) == FromBits(Exclusive(x as bv32, y as bv32))
  {
    hide FromBits;
  }

  lemma OnWords(x: Word, y: Word, z: Word)
    ensures Ch(x, y, z) == FromBits(Choice(x as bv32, y as bv32, z as bv32))
    ensures Maj(x, y, z) == FromBits(Majority(x as bv32, y as bv32, z as bv32))
  {
    hide FromBits;
  }

  lemma TurnWord(x: Word, n: bv6)
    requires 0 < n < 32
    ensures Rotr(x, n) == FromBits(Turn(x as bv32, n)) && Shr(x, n) == FromBits(Down(x as bv32, n))
  {
    hide FromBits;
  }

  lemma OnBits(p: bv32, q: bv32, r: bv32)
    ensures Xor(FromBits(p), FromBits(q)) == FromBits(Exclusive(p, q))
    ensures Ch(FromBits(p), FromBits(q), FromBits(r)) == FromBits(Choice(p, q, r))
    ensures Maj(FromBits(p), FromBits(q), FromBits(r)) == FromBits(Majority(p, q, r))
  {
    hide *;
    ThereAndBack(p);
    ThereAndBack(q);
    ThereAndBack(r);
    XorOnWords(FromBits(p), FromBits(q));
    OnWords(FromBits(p), FromBits(q), FromBits(r));
  }

  lemma XorThree(p: bv32, q: bv32, r: bv32)
    ensures Xor(Xor(FromBits(p), FromBits(q)), FromBits(r)) == FromBits(Exclusive(Exclusive(p, q), r))
  {
    hide *;
    OnBits(p, q, q);
    OnBits(Exclusive(p, q), r, r);
  }

  lemma TurnBits(z: bv32, n: bv6)
    requires 0 < n < 32
    ensures Rotr(FromBits(z), n) == FromBits(Turn(z, n)) && Shr(FromBits(z), n) == FromBits(Down(z, n))
  {
    hide *;
    ThereAndBack(z);
    TurnWord(FromBits(z), n);
  }

  lemma BigBits(z: bv32)
    ensures BigSigma0(FromBits(z)) == FromBits(Big0(z)) && BigSigma1(FromBits(z)) == FromBits(Big1(z))
  {
    hide FromBits, Xor, Rotr, Shr, Turn, Down, Exclusive;
    TurnBits(z, 2);
    TurnBits(z, 13);
    TurnBits(z, 22);
    XorThree(Turn(z, 2), Turn(z, 13), Turn(z, 22));
    TurnBits(z, 6);
    TurnBits(z, 11);
    TurnBits(z, 25);
    XorThree(Turn(z, 6), Turn(z, 11), Turn(z, 25));
  }

  lemma SmallBits(z: bv32)
    ensures SmallSigma0(FromBits(z)) == FromBits(Small0(z)) && SmallSigma1(FromBits(z)) == FromBits(Small1(z))
  {
    hide FromBits, Xor, Rotr, Shr, Turn, Down, Exclusive;
    TurnBits(z, 7);
    TurnBits(z, 18);
    TurnBits(z, 3);
    XorThree(Turn(z, 7), Turn(z, 18), Down(z, 3));
    TurnBits(z, 17);
    TurnBits(z, 19);
    TurnBits(z, 10);
    XorThree(Turn(z, 17), Turn(z, 19), Down(z, 10));
  }

  // ----- the block

  const ABC: seq<Byte> := [0x61, 0x62, 0x63]

  function Block(): (b: seq<Byte>)
    ensures |b| == 64
  {
    ABC + [0x80] + Zeros(52) + (Zeros(7) + [24])
  }

  lemma Padded()
    ensures Pad(ABC) == Block()
  {
    assert PadZeros(3) == 52;
    LengthBytes();
  }

  lemma LengthBytes()
    ensures LastBytes(24, 8) == Zeros(7) + [24]
  {
    assert LastBytes(24, 1) == [24];
    NoBytes(7);
    assert LastBytes(24, 8) == LastBytes(0, 7) + [24];
  }

  lemma {:induction false} NoBytes(k: nat)
    ensures LastBytes(0, k) == Zeros(k)
  {
    if k > 0 {
      NoBytes(k - 1);
      assert Zeros(k) == Zeros(k - 1) + [0];
    }
  }

  // ----- its words

  /** Word t of the message schedule. Said of every u that is t, so that the schedule is not looked
      into where it need not be. */
  ghost predicate WordIs(t: nat, w: bv32) { forall u :: t <= u <= t ==> Schedule(Block(), u) == FromBits(w) }

  lemma IsWord(t: nat, w: bv32)
    ensures WordIs(t, w) <==> Schedule(Block(), t) == FromBits(w)
  {
    hide Schedule, FromBits, Block;
  }

  /** A word of those 2, 7, 15 and 16 before it. */
  predicate Follows(w2: bv32, w7: bv32, w15: bv32, w16: bv32, w: bv32) {
    FromBits(w) == (FromBits(Small1(w2)) + FromBits(w7) + FromBits(Small0(w15)) + FromBits(w16)) % 0x1_0000_0000
  }

  lemma NextWord(t: nat, w2: bv32, w7: bv32, w15: bv32, w16: bv32, w: bv32)
    requires t >= 16 && WordIs(t - 2, w2) && WordIs(t - 7, w7) && WordIs(t - 15, w15) && WordIs(t - 16, w16)
    requires Follows(w2, w7, w15, w16, w)
    ensures WordIs(t, w)
  {
    hide FromBits, Small0, Small1, SmallSigma0, SmallSigma1, Block, WordIs;
    IsWord(t - 2, w2);
    IsWord(t - 7, w7);
    IsWord(t - 15, w15);
    IsWord(t - 16, w16);
    IsWord(t, w);
    SmallBits(w2);
    SmallBits(w15);
    FourTerms(FromBits(Small1(w2)), FromBits(w7), FromBits(Small0(w15)), FromBits(w16));
  }

  lemma FourTerms(p: Word, q: Word, r: Word, s: Word)
    ensures Plus(Plus(Plus(p, q), r), s) == (p + q + r + s) % 0x1_0000_0000
  {
    hide Plus;
    PlusIs(p, q);
    PlusIs(Plus(p, q), r);
    PlusIs(Plus(Plus(p, q), r), s);
    Reduced(r, p + q);
    Reduced(s, p + q + r);
  }

  lemma WordAt(t: nat, w: bv32)
    requires t < 16
    requires FromBits(w) == if t == 0 then 0x61626380 else if t == 15 then 24 else 0
    ensures WordIs(t, w)
  {
    hide FromBits, WordIs;
    var b := Block();
    assert b[0] == 0x61 && b[1] == 0x62 && b[2] == 0x63 && b[3] == 0x80 && b[63] == 24;
    assert forall i :: 4 <= i < 63 ==> b[i] == 0;
    IsWord(t, w);
  }

  lemma Words0(t: nat)
    requires t == 0
    ensures WordIs(t, 0x61626380) && WordIs(t + 1, 0x00000000)
    ensures WordIs(t + 2, 0x00000000) && WordIs(t + 3, 0x00000000)
  {
    hide WordIs;
    WordAt(t, 0x61626380);
    WordAt(t + 1, 0x00000000);
    WordAt(t + 2, 0x00000000);
    WordAt(t + 3, 0x00000000);
  }

  lemma Words4(t: nat)
    requires t == 4
    ensures WordIs(t, 0x00000000) && WordIs(t + 1, 0x00000000)
    ensures WordIs(t + 2, 0x00000000) && WordIs(t + 3, 0x00000000)
  {
    hide WordIs;
    WordAt(t, 0x00000000);
    WordAt(t + 1, 0x00000000);
    WordAt(t + 2, 0x00000000);
    WordAt(t + 3, 0x00000000);
  }

  lemma Words8(t: nat)
    requires t == 8
    ensures WordIs(t, 0x00000000) && WordIs(t + 1, 0x00000000)
    ensures WordIs(t + 2, 0x00000000) && WordIs(t + 3, 0x00000000)
  {
    hide WordIs;
    WordAt(t, 0x00000000);
    WordAt(t + 1, 0x00000000);
    WordAt(t + 2, 0x00000000);
    WordAt(t + 3, 0x00000000);
  }

  lemma Words12(t: nat)
    requires t == 12
    ensures WordIs(t, 0x00000000) && WordIs(t + 1, 0x00000000)
    ensures WordIs(t + 2, 0x00000000) && WordIs(t + 3, 0x00000018)
  {
    hide WordIs;
    WordAt(t, 0x00000000);
    WordAt(t + 1, 0x00000000);
    WordAt(t + 2, 0x00000000);
    WordAt(t + 3, 0x00000018);
  }

  lemma Words16(t: nat)
    requires t == 16
    ensures WordIs(t, 0x61626380) && WordIs(t + 1, 0x000f0000)
    ensures WordIs(t + 2, 0x7da86405) && WordIs(t + 3, 0x600003c6)
  {
    hide WordIs;
    Words0(t - 16);
    Words4(t - 12);
    Words8(t - 8);
    Words12(t - 4);
    NextWord(t, 0x00000000, 0x00000000, 0x00000000, 0x61626380, 0x61626380);
    NextWord(t + 1, 0x00000018, 0x00000000, 0x00000000, 0x00000000, 0x000f0000);
    NextWord(t + 2, 0x61626380, 0x00000000, 0x00000000, 0x00000000, 0x7da86405);
    NextWord(t + 3, 0x000f0000, 0x00000000, 0x00000000, 0x00000000, 0x600003c6);
  }

  lemma Words20(t: nat)
    requires t == 20
    ensures WordIs(t, 0x3e9d7b78) && WordIs(t + 1, 0x0183fc00)
    ensures WordIs(t + 2, 0x12dcbfdb) && WordIs(t + 3, 0xe2e2c38e)
  {
    hide WordIs;
    Words4(t - 16);
    Words8(t - 12);
    Words12(t - 8);
    Words16(t - 4);
    NextWord(t, 0x7da86405, 0x00000000, 0x00000000, 0x00000000, 0x3e9d7b78);
    NextWord(t + 1, 0x600003c6, 0x00000000, 0x00000000, 0x00000000, 0x0183fc00);
    NextWord(t + 2, 0x3e9d7b78, 0x00000018, 0x00000000, 0x00000000, 0x12dcbfdb);
    NextWord(t + 3, 0x0183fc00, 0x61626380, 0x00000000, 0x00000000, 0xe2e2c38e);
  }

  lemma Words24(t: nat)
    requires t == 24
    ensures WordIs(t, 0xc8215c1a) && WordIs(t + 1, 0xb73679a2)
    ensures WordIs(t + 2, 0xe5bc3909) && WordIs(t + 3, 0x32663c5b)
  {
    hide WordIs;
    Words8(t - 16);
    Words12(t - 12);
    Words16(t - 8);
    Words20(t - 4);
    NextWord(t, 0x12dcbfdb, 0x000f0000, 0x00000000, 0x00000000, 0xc8215c1a);
    NextWord(t + 1, 0xe2e2c38e, 0x7da86405, 0x00000000, 0x00000000, 0xb73679a2);
    NextWord(t + 2, 0xc8215c1a, 0x600003c6, 0x00000000, 0x00000000, 0xe5bc3909);
    NextWord(t + 3, 0xb73679a2, 0x3e9d7b78, 0x00000000, 0x00000000, 0x32663c5b);
  }

  lemma Words28(t: nat)
    requires t == 28
    ensures WordIs(t, 0x9d209d67) && WordIs(t + 1, 0xec8726cb)
    ensures WordIs(t + 2, 0x702138a4) && WordIs(t + 3, 0xd3b7973b)
  {
    hide WordIs;
    Words12(t - 16);
    Words16(t - 12);
    Words20(t - 8);
    Words24(t - 4);
    NextWord(t, 0xe5bc3909, 0x0183fc00, 0x00000000, 0x00000000, 0x9d209d67);
    NextWord(t + 1, 0x32663c5b, 0x12dcbfdb, 0x00000000, 0x00000000, 0xec8726cb);
    NextWord(t + 2, 0x9d209d67, 0xe2e2c38e, 0x00000018, 0x00000000, 0x702138a4);
    NextWord(t + 3, 0xec8726cb, 0xc8215c1a, 0x61626380, 0x00000018, 0xd3b7973b);
  }

  lemma Words32(t: nat)
    requires t == 32
    ensures WordIs(t, 0x93f5997f) && WordIs(t + 1, 0x3b68ba73)
    ensures WordIs(t + 2, 0xaff4ffc1) && WordIs(t + 3, 0xf10a5c62)
  {
    hide WordIs;
    Words16(t - 16);
    Words20(t - 12);
    Words24(t - 8);
    Words28(t - 4);
    NextWord(t, 0x702138a4, 0xb73679a2, 0x000f0000, 0x61626380, 0x93f5997f);
    NextWord(t + 1, 0xd3b7973b, 0xe5bc3909, 0x7da86405, 0x000f0000, 0x3b68ba73);
    NextWord(t + 2, 0x93f5997f, 0x32663c5b, 0x600003c6, 0x7da86405, 0xaff4ffc1);
    NextWord(t + 3, 0x3b68ba73, 0x9d209d67, 0x3e9d7b78, 0x600003c6, 0xf10a5c62);
  }

  lemma Words36(t: nat)
    requires t == 36
    ensures WordIs(t, 0x0a8b3996) && WordIs(t + 1, 0x72af830a)
    ensures WordIs(t + 2, 0x9409e33e) && WordIs(t + 3, 0x24641522)
  {
    hide WordIs;
    Words20(t - 16);
    Words24(t - 12);
    Words28(t - 8);
    Words32(t - 4);
    NextWord(t, 0xaff4ffc1, 0xec8726cb, 0x0183fc00, 0x3e9d7b78, 0x0a8b3996);
    NextWord(t + 1, 0xf10a5c62, 0x702138a4, 0x12dcbfdb, 0x0183fc00, 0x72af830a);
    NextWord(t + 2, 0x0a8b3996, 0xd3b7973b, 0xe2e2c38e, 0x12dcbfdb, 0x9409e33e);
    NextWord(t + 3, 0x72af830a, 0x93f5997f, 0xc8215c1a, 0xe2e2c38e, 0x24641522);
  }

  lemma Words40(t: nat)
    requires t == 40
    ensures WordIs(t, 0x9f47bf94) && WordIs(t + 1, 0xf0a64f5a)
    ensures WordIs(t + 2, 0x3e246a79) && WordIs(t + 3, 0x27333ba3)
  {
    hide WordIs;
    Words24(t - 16);
    Words28(t - 12);
    Words32(t - 8);
    Words36(t - 4);
    NextWord(t, 0x9409e33e, 0x3b68ba73, 0xb73679a2, 0xc8215c1a, 0x9f47bf94);
    NextWord(t + 1, 0x24641522, 0xaff4ffc1, 0xe5bc3909, 0xb73679a2, 0xf0a64f5a);
    NextWord(t + 2, 0x9f47bf94, 0xf10a5c62, 0x32663c5b, 0xe5bc3909, 0x3e246a79);
    NextWord(t + 3, 0xf0a64f5a, 0x0a8b3996, 0x9d209d67, 0x32663c5b, 0x27333ba3);
  }

  lemma Words44(t: nat)
    requires t == 44
    ensures WordIs(t, 0x0c4763f2) && WordIs(t + 1, 0x840abf27)
    ensures WordIs(t + 2, 0x7a290d5d) && WordIs(t + 3, 0x065c43da)
  {
    hide WordIs;
    Words28(t - 16);
    Words32(t - 12);
    Words36(t - 8);
    Words40(t - 4);
    NextWord(t, 0x3e246a79, 0x72af830a, 0xec8726cb, 0x9d209d67, 0x0c4763f2);
    NextWord(t + 1, 0x27333ba3, 0x9409e33e, 0x702138a4, 0xec8726cb, 0x840abf27);
    NextWord(t + 2, 0x0c4763f2, 0x24641522, 0xd3b7973b, 0x702138a4, 0x7a290d5d);
    NextWord(t + 3, 0x840abf27, 0x9f47bf94, 0x93f5997f, 0xd3b7973b, 0x065c43da);
  }

  lemma Words48(t: nat)
    requires t == 48
    ensures WordIs(t, 0xfb3e89cb) && WordIs(t + 1, 0xcc7617db)
    ensures WordIs(t + 2, 0xb9e66c34) && WordIs(t + 3, 0xa9993667)
  {
    hide WordIs;
    Words32(t - 16);
    Words36(t - 12);
    Words40(t - 8);
    Words44(t - 4);
    NextWord(t, 0x7a290d5d, 0xf0a64f5a, 0x3b68ba73, 0x93f5997f, 0xfb3e89cb);
    NextWord(t + 1, 0x065c43da, 0x3e246a79, 0xaff4ffc1, 0x3b68ba73, 0xcc7617db);
    NextWord(t + 2, 0xfb3e89cb, 0x27333ba3, 0xf10a5c62, 0xaff4ffc1, 0xb9e66c34);
    NextWord(t + 3, 0xcc7617db, 0x0c4763f2, 0x0a8b3996, 0xf10a5c62, 0xa9993667);
  }

  lemma Words52(t: nat)
    requires t == 52
    ensures WordIs(t, 0x84badedd) && WordIs(t + 1, 0xc21462bc)
    ensures WordIs(t + 2, 0x1487472c) && WordIs(t + 3, 0xb20f7a99)
  {
    hide WordIs;
    Words36(t - 16);
    Words40(t - 12);
    Words44(t - 8);
    Words48(t - 4);
    NextWord(t, 0xb9e66c34, 0x840abf27, 0x72af830a, 0x0a8b3996, 0x84badedd);
    NextWord(t + 1, 0xa9993667, 0x7a290d5d, 0x9409e33e, 0x72af830a, 0xc21462bc);
    NextWord(t + 2, 0x84badedd, 0x065c43da, 0x24641522, 0x9409e33e, 0x1487472c);
    NextWord(t + 3, 0xc21462bc, 0xfb3e89cb, 0x9f47bf94, 0x24641522, 0xb20f7a99);
  }

  lemma Words56(t: nat)
    requires t == 56
    ensures WordIs(t, 0xef57b9cd) && WordIs(t + 1, 0xebe6b238)
    ensures WordIs(t + 2, 0x9fe3095e) && WordIs(t + 3, 0x78bc8d4b)
  {
    hide WordIs;
    Words40(t - 16);
    Words44(t - 12);
    Words48(t - 8);
    Words52(t - 4);
    NextWord(t, 0x1487472c, 0xcc7617db, 0xf0a64f5a, 0x9f47bf94, 0xef57b9cd);
    NextWord(t + 1, 0xb20f7a99, 0xb9e66c34, 0x3e246a79, 0xf0a64f5a, 0xebe6b238);
    NextWord(t + 2, 0xef57b9cd, 0xa9993667, 0x27333ba3, 0x3e246a79, 0x9fe3095e);
    NextWord(t + 3, 0xebe6b238, 0x84badedd, 0x0c4763f2, 0x27333ba3, 0x78bc8d4b);
  }

  lemma Words60(t: nat)
    requires t == 60
    ensures WordIs(t, 0xa43fcf15) && WordIs(t + 1, 0x668b2ff8)
    ensures WordIs(t + 2, 0xeeaba2cc) && WordIs(t + 3, 0x12b1edeb)
  {
    hide WordIs;
    Words44(t - 16);
    Words48(t - 12);
    Words52(t - 8);
    Words56(t - 4);
    NextWord(t, 0x9fe3095e, 0xc21462bc, 0x840abf27, 0x0c4763f2, 0xa43fcf15);
    NextWord(t + 1, 0x78bc8d4b, 0x1487472c, 0x7a290d5d, 0x840abf27, 0x668b2ff8);
    NextWord(t + 2, 0xa43fcf15, 0xb20f7a99, 0x065c43da, 0x7a290d5d, 0xeeaba2cc);
    NextWord(t + 3, 0x668b2ff8, 0xef57b9cd, 0xfb3e89cb, 0x065c43da, 0x12b1edeb);
  }

  // ----- its rounds

  datatype State = State(a: bv32, b: bv32, c: bv32, d: bv32, e: bv32, f: bv32, g: bv32, h: bv32)

  function Words(s: State): Vars {
    Vars(FromBits(s.a), FromBits(s.b), FromBits(s.c), FromBits(s.d),
         FromBits(s.e), FromBits(s.f), FromBits(s.g), FromBits(s.h))
  }

  /** The variables before round t, said in the same way. */
  ghost predicate At(t: nat, s: State) {
    t <= 64 && forall u :: t <= u <= t ==> Rounds(Load(H0), Block(), u) == Words(s)
  }

  lemma IsAt(t: nat, s: State)
    ensures At(t, s) <==> t <= 64 && Rounds(Load(H0), Block(), t) == Words(s)
  {
    hide Rounds, Words, Block;
  }

  /** What a round makes of a and e, from the variables and what the functions make of them. */
  predicate Sums(h: Word, p: Word, q: Word, k: Word, w: Word, x: Word, y: Word, d: Word, a: Word, e: Word) {
    && a == (h + p + q + k + w + x + y) % 0x1_0000_0000
    && e == (d + (h + p + q + k + w)) % 0x1_0000_0000
  }

  predicate Turns(s: State, k: Word, w: bv32, a: bv32, e: bv32) {
    Sums(FromBits(s.h), FromBits(Big1(s.e)), FromBits(Choice(s.e, s.f, s.g)), k, FromBits(w), FromBits(Big0(s.a)),
         FromBits(Majority(s.a, s.b, s.c)), FromBits(s.d), FromBits(a), FromBits(e))
  }

  lemma NextRound(t: nat, s: State, k: Word, w: bv32, a: bv32, e: bv32) returns (next: State)
    requires t < 64 && At(t, s) && K[t] == k && WordIs(t, w) && Turns(s, k, w, a, e)
    ensures At(t + 1, next) && next == State(a, s.a, s.b, s.c, e, s.e, s.f, s.g)
  {
    hide *;
    next := State(a, s.a, s.b, s.c, e, s.e, s.f, s.g);
    EightWords();
    IsAt(t, s);
    IsAt(t + 1, next);
    IsWord(t, w);
    TurnedWords(s, k, w, a, e, next);
    OneRound(Load(H0), Block(), t);
  }

  lemma EightWords()
    ensures |H0| == 8
  {
  }

  lemma OneRound(v: Vars, block: seq<Byte>, t: nat)
    requires |block| == 64 && t < 64
    ensures Rounds(v, block, t + 1) == Round(Rounds(v, block, t), K[t], Schedule(block, t))
  {
    hide Round, Schedule;
  }

  lemma TurnedWords(s: State, k: Word, w: bv32, a: bv32, e: bv32, next: State)
    requires Turns(s, k, w, a, e) && next == State(a, s.a, s.b, s.c, e, s.e, s.f, s.g)
    ensures Round(Words(s), k, FromBits(w)) == Words(next)
  {
    hide FromBits, Big0, Big1, Choice, Majority, BigSigma0, BigSigma1, Ch, Maj, Round, Sums;
    BigBits(s.a);
    BigBits(s.e);
    OnBits(s.e, s.f, s.g);
    OnBits(s.a, s.b, s.c);
    RoundIs(Words(s), k, FromBits(w), FromBits(Big1(s.e)), FromBits(Choice(s.e, s.f, s.g)), FromBits(Big0(s.a)),
            FromBits(Majority(s.a, s.b, s.c)), FromBits(a), FromBits(e));
  }

  /** A round with the sums taken at once. */
  lemma RoundIs(v: Vars, k: Word, w: Word, p: Word, q: Word, x: Word, y: Word, a: Word, e: Word)
    requires p == BigSigma1(v.e) && q == Ch(v.e, v.f, v.g) && x == BigSigma0(v.a) && y == Maj(v.a, v.b, v.c)
    requires Sums(v.h, p, q, k, w, x, y, v.d, a, e)
    ensures Round(v, k, w) == Vars(a, v.a, v.b, v.c, e, v.e, v.f, v.g)
  {
    hide BigSigma0, BigSigma1, Ch, Maj, Plus;
    var t1, t2 := Plus(Plus(Plus(Plus(v.h, p), q), k), w), Plus(x, y);
    FiveTerms(v.h, p, q, k, w);
    PlusIs(x, y);
    PlusIs(v.d, t1);
    PlusIs(t1, t2);
    Reduced(v.d, v.h + p + q + k + w);
    Reduced(t2, v.h + p + q + k + w);
    Reduced(v.h + p + q + k + w, x + y);
  }

  lemma PlusIs(x: Word, y: Word)
    ensures Plus(x, y) == (x + y) % 0x1_0000_0000
  {
  }

  lemma Reduced(x: nat, y: nat)
    ensures (x + y % 0x1_0000_0000) % 0x1_0000_0000 == (x + y) % 0x1_0000_0000
  {
  }

  lemma FiveTerms(p: Word, q: Word, r: Word, s: Word, u: Word)
    ensures Plus(Plus(Plus(Plus(p, q), r), s), u) == (p + q + r + s + u) % 0x1_0000_0000
  {
    hide Plus;
    FourTerms(p, q, r, s);
    PlusIs(Plus(Plus(Plus(p, q), r), s), u);
    Reduced(u, p + q + r + s);
  }

  lemma Constants0()
    ensures |K| == 64
    ensures K[0] == 0x428a2f98 && K[1] == 0x71374491 && K[2] == 0xb5c0fbcf && K[3] == 0xe9b5dba5
    ensures K[4] == 0x3956c25b && K[5] == 0x59f111f1 && K[6] == 0x923f82a4 && K[7] == 0xab1c5ed5
  {
  }

  lemma Constants8()
    ensures |K| == 64
    ensures K[8] == 0xd807aa98 && K[9] == 0x12835b01 && K[10] == 0x243185be && K[11] == 0x550c7dc3
    ensures K[12] == 0x72be5d74 && K[13] == 0x80deb1fe && K[14] == 0x9bdc06a7 && K[15] == 0xc19bf174
  {
  }

  lemma Constants16()
    ensures |K| == 64
    ensures K[16] == 0xe49b69c1 && K[17] == 0xefbe4786 && K[18] == 0x0fc19dc6 && K[19] == 0x240ca1cc
    ensures K[20] == 0x2de92c6f && K[21] == 0x4a7484aa && K[22] == 0x5cb0a9dc && K[23] == 0x76f988da
  {
  }

  lemma Constants24()
    ensures |K| == 64
    ensures K[24] == 0x983e5152 && K[25] == 0xa831c66d && K[26] == 0xb00327c8 && K[27] == 0xbf597fc7
    ensures K[28] == 0xc6e00bf3 && K[29] == 0xd5a79147 && K[30] == 0x06ca6351 && K[31] == 0x14292967
  {
  }

  lemma Constants32()
    ensures |K| == 64
    ensures K[32] == 0x27b70a85 && K[33] == 0x2e1b2138 && K[34] == 0x4d2c6dfc && K[35] == 0x53380d13
    ensures K[36] == 0x650a7354 && K[37] == 0x766a0abb && K[38] == 0x81c2c92e && K[39] == 0x92722c85
  {
  }

  lemma Constants40()
    ensures |K| == 64
    ensures K[40] == 0xa2bfe8a1 && K[41] == 0xa81a664b && K[42] == 0xc24b8b70 && K[43] == 0xc76c51a3
    ensures K[44] == 0xd192e819 && K[45] == 0xd6990624 && K[46] == 0xf40e3585 && K[47] == 0x106aa070
  {
  }

  lemma Constants48()
    ensures |K| == 64
    ensures K[48] == 0x19a4c116 && K[49] == 0x1e376c08 && K[50] == 0x2748774c && K[51] == 0x34b0bcb5
    ensures K[52] == 0x391c0cb3 && K[53] == 0x4ed8aa4a && K[54] == 0x5b9cca4f && K[55] == 0x682e6ff3
  {
  }

  lemma Constants56()
    ensures |K| == 64
    ensures K[56] == 0x748f82ee && K[57] == 0x78a5636f && K[58] == 0x84c87814 && K[59] == 0x8cc70208
    ensures K[60] == 0x90befffa && K[61] == 0xa4506ceb && K[62] == 0xbef9a3f7 && K[63] == 0xc67178f2
  {
  }

  lemma Start() returns (s: State)
    ensures At(0, s)
    ensures s == State(0x6a09e667, 0xbb67ae85, 0x3c6ef372, 0xa54ff53a,
                       0x510e527f, 0x9b05688c, 0x1f83d9ab, 0x5be0cd19)
  {
    s := State(0x6a09e667, 0xbb67ae85, 0x3c6ef372, 0xa54ff53a,
               0x510e527f, 0x9b05688c, 0x1f83d9ab, 0x5be0cd19);
  }

  lemma Rounds0(t: nat) returns (s: State)
    requires t == 0
    ensures At(t + 4, s)
    ensures s == State(0xd550f666, 0xc8c347a7, 0x5a6ad9ad, 0x5d6aebcd,
                       0x24e00850, 0xf92939eb, 0x78ce7989, 0xfa2a4622)
  {
    hide At, WordIs;
    Words0(t);
    Constants0();
    s := Start();
    s := NextRound(t, s, 0x428a2f98, 0x61626380, 0x5d6aebcd, 0xfa2a4622);
    s := NextRound(t + 1, s, 0x71374491, 0x00000000, 0x5a6ad9ad, 0x78ce7989);
    s := NextRound(t + 2, s, 0xb5c0fbcf, 0x00000000, 0xc8c347a7, 0xf92939eb);
    s := NextRound(t + 3, s, 0xe9b5dba5, 0x00000000, 0xd550f666, 0x24e00850);
  }

  lemma Rounds4(t: nat) returns (s: State)
    requires t == 4
    ensures At(t + 4, s)
    ensures s == State(0x85a07b5f, 0xe5030380, 0x2b4209f5, 0x04409a6a,
                       0x0c657a79, 0x9b27a401, 0x714260ad, 0x43ada245)
  {
    hide At, WordIs;
    Words4(t);
    Constants0();
    s := Rounds0(t - 4);
    s := NextRound(t, s, 0x3956c25b, 0x00000000, 0x04409a6a, 0x43ada245);
    s := NextRound(t + 1, s, 0x59f111f1, 0x00000000, 0x2b4209f5, 0x714260ad);
    s := NextRound(t + 2, s, 0x923f82a4, 0x00000000, 0xe5030380, 0x9b27a401);
    s := NextRound(t + 3, s, 0xab1c5ed5, 0x00000000, 0x85a07b5f, 0x0c657a79);
  }

  lemma Rounds8(t: nat) returns (s: State)
    requires t == 8
    ensures At(t + 4, s)
    ensures s == State(0xf71fc5a9, 0x4798a3f4, 0x8c87346b, 0x8e04ecb9,
                       0x816fd6e9, 0x436b23e8, 0x1cc92596, 0x32ca2d8c)
  {
    hide At, WordIs;
    Words8(t);
    Constants8();
    s := Rounds4(t - 4);
    s := NextRound(t, s, 0xd807aa98, 0x00000000, 0x8e04ecb9, 0x32ca2d8c);
    s := NextRound(t + 1, s, 0x12835b01, 0x00000000, 0x8c87346b, 0x1cc92596);
    s := NextRound(t + 2, s, 0x243185be, 0x00000000, 0x4798a3f4, 0x436b23e8);
    s := NextRound(t + 3, s, 0x550c7dc3, 0x00000000, 0xf71fc5a9, 0x816fd6e9);
  }

  lemma Rounds12(t: nat) returns (s: State)
    requires t == 12
    ensures At(t + 4, s)
    ensures s == State(0xb0fa238e, 0xc0645fde, 0xd932eb16, 0x87912990,
                       0x07590dcd, 0x0b92f20c, 0x745a48de, 0x1e578218)
  {
    hide At, WordIs;
    Words12(t);
    Constants8();
    s := Rounds8(t - 4);
    s := NextRound(t, s, 0x72be5d74, 0x00000000, 0x87912990, 0x1e578218);
    s := NextRound(t + 1, s, 0x80deb1fe, 0x00000000, 0xd932eb16, 0x745a48de);
    s := NextRound(t + 2, s, 0x9bdc06a7, 0x00000000, 0xc0645fde, 0x0b92f20c);
    s := NextRound(t + 3, s, 0xc19bf174, 0x00000018, 0xb0fa238e, 0x07590dcd);
  }

  lemma Rounds16(t: nat) returns (s: State)
    requires t == 16
    ensures At(t + 4, s)
    ensures s == State(0xe1f20c33, 0xfe777bbf, 0xc2fbd9d1, 0x21da9a9b,
                       0xb0638179, 0xcc899961, 0x846ee454, 0x8034229c)
  {
    hide At, WordIs;
    Words16(t);
    Constants16();
    s := Rounds12(t - 4);
    s := NextRound(t, s, 0xe49b69c1, 0x61626380, 0x21da9a9b, 0x8034229c);
    s := NextRound(t + 1, s, 0xefbe4786, 0x000f0000, 0xc2fbd9d1, 0x846ee454);
    s := NextRound(t + 2, s, 0x0fc19dc6, 0x7da86405, 0xfe777bbf, 0xcc899961);
    s := NextRound(t + 3, s, 0x240ca1cc, 0x600003c6, 0xe1f20c33, 0xb0638179);
  }

  lemma Rounds20(t: nat) returns (s: State)
    requires t == 20
    ensures At(t + 4, s)
    ensures s == State(0xc5d53d8d, 0xa7a3623f, 0xc2606d6d, 0x9dc68b63,
                       0xaa47c347, 0x49f5114a, 0xe1257970, 0x8ada8930)
  {
    hide At, WordIs;
    Words20(t);
    Constants16();
    s := Rounds16(t - 4);
    s := NextRound(t, s, 0x2de92c6f, 0x3e9d7b78, 0x9dc68b63, 0x8ada8930);
    s := NextRound(t + 1, s, 0x4a7484aa, 0x0183fc00, 0xc2606d6d, 0xe1257970);
    s := NextRound(t + 2, s, 0x5cb0a9dc, 0x12dcbfdb, 0xa7a3623f, 0x49f5114a);
    s := NextRound(t + 3, s, 0x76f988da, 0xe2e2c38e, 0xc5d53d8d, 0xaa47c347);
  }

  lemma Rounds24(t: nat) returns (s: State)
    requires t == 24
    ensures At(t + 4, s)
    ensures s == State(0x77d37528, 0xb62ec4bc, 0xcde8037d, 0x1c2c2838,
                       0xedffbff8, 0xc74c6516, 0x14383d8e, 0x2823ef91)
  {
    hide At, WordIs;
    Words24(t);
    Constants24();
    s := Rounds20(t - 4);
    s := NextRound(t, s, 0x983e5152, 0xc8215c1a, 0x1c2c2838, 0x2823ef91);
    s := NextRound(t + 1, s, 0xa831c66d, 0xb73679a2, 0xcde8037d, 0x14383d8e);
    s := NextRound(t + 2, s, 0xb00327c8, 0xe5bc3909, 0xb62ec4bc, 0xc74c6516);
    s := NextRound(t + 3, s, 0xbf597fc7, 0x32663c5b, 0x77d37528, 0xedffbff8);
  }

  lemma Rounds28(t: nat) returns (s: State)
    requires t == 28
    ensures At(t + 4, s)
    ensures s == State(0x73b33bf5, 0xea992a22, 0xa0060b30, 0x363482c9,
                       0xba591112, 0x0109ab3a, 0xade79437, 0x6112a3b7)
  {
    hide At, WordIs;
    Words28(t);
    Constants24();
    s := Rounds24(t - 4);
    s := NextRound(t, s, 0xc6e00bf3, 0x9d209d67, 0x363482c9, 0x6112a3b7);
    s := NextRound(t + 1, s, 0xd5a79147, 0xec8726cb, 0xa0060b30, 0xade79437);
    s := NextRound(t + 2, s, 0x06ca6351, 0x702138a4, 0xea992a22, 0x0109ab3a);
    s := NextRound(t + 3, s, 0x14292967, 0xd3b7973b, 0x73b33bf5, 0xba591112);
  }

  lemma Rounds32(t: nat) returns (s: State)
    requires t == 32
    ensures At(t + 4, s)
    ensures s == State(0x65a0cfe4, 0xa9a7738c, 0xfe604df5, 0x98e12507,
                       0xf4b002d6, 0x085f3833, 0x59249dd3, 0x9cd9f5f6)
  {
    hide At, WordIs;
    Words32(t);
    Constants32();
    s := Rounds28(t - 4);
    s := NextRound(t, s, 0x27b70a85, 0x93f5997f, 0x98e12507, 0x9cd9f5f6);
    s := NextRound(t + 1, s, 0x2e1b2138, 0x3b68ba73, 0xfe604df5, 0x59249dd3);
    s := NextRound(t + 2, s, 0x4d2c6dfc, 0xaff4ffc1, 0xa9a7738c, 0x085f3833);
    s := NextRound(t + 3, s, 0x53380d13, 0xf10a5c62, 0x65a0cfe4, 0xf4b002d6);
  }

  lemma Rounds36(t: nat) returns (s: State)
    requires t == 36
    ensures At(t + 4, s)
    ensures s == State(0x79ea687a, 0x6dc57a8a, 0x34df1604, 0x41a65cb1,
                       0x1efbc0a0, 0xf0781bc8, 0xa507a53d, 0x0772a26b)
  {
    hide At, WordIs;
    Words36(t);
    Constants32();
    s := Rounds32(t - 4);
    s := NextRound(t, s, 0x650a7354, 0x0a8b3996, 0x41a65cb1, 0x0772a26b);
    s := NextRound(t + 1, s, 0x766a0abb, 0x72af830a, 0x34df1604, 0xa507a53d);
    s := NextRound(t + 2, s, 0x81c2c92e, 0x9409e33e, 0x6dc57a8a, 0xf0781bc8);
    s := NextRound(t + 3, s, 0x92722c85, 0x24641522, 0x79ea687a, 0x1efbc0a0);
  }

  lemma Rounds40(t: nat) returns (s: State)
    requires t == 40
    ensures At(t + 4, s)
    ensures s == State(0x9d4baf93, 0x17aa0dfe, 0xdf46652f, 0xd6670766,
                       0xfda24c2e, 0xdecd4715, 0x838b2711, 0x26352d63)
  {
    hide At, WordIs;
    Words40(t);
    Constants40();
    s := Rounds36(t - 4);
    s := NextRound(t, s, 0xa2bfe8a1, 0x9f47bf94, 0xd6670766, 0x26352d63);
    s := NextRound(t + 1, s, 0xa81a664b, 0xf0a64f5a, 0xdf46652f, 0x838b2711);
    s := NextRound(t + 2, s, 0xc24b8b70, 0x3e246a79, 0x17aa0dfe, 0xdecd4715);
    s := NextRound(t + 3, s, 0xc76c51a3, 0x27333ba3, 0x9d4baf93, 0xfda24c2e);
  }

  lemma Rounds44(t: nat) returns (s: State)
    requires t == 44
    ensures At(t + 4, s)
    ensures s == State(0x4172328d, 0xa14c14b0, 0x72ab4b91, 0x26628815,
                       0xfecf0bc6, 0xd57b94a9, 0xb7755da1, 0xa80f11f0)
  {
    hide At, WordIs;
    Words44(t);
    Constants40();
    s := Rounds40(t - 4);
    s := NextRound(t, s, 0xd192e819, 0x0c4763f2, 0x26628815, 0xa80f11f0);
    s := NextRound(t + 1, s, 0xd6990624, 0x840abf27, 0x72ab4b91, 0xb7755da1);
    s := NextRound(t + 2, s, 0xf40e3585, 0x7a290d5d, 0xa14c14b0, 0xd57b94a9);
    s := NextRound(t + 3, s, 0x106aa070, 0x065c43da, 0x4172328d, 0xfecf0bc6);
  }

  lemma Rounds48(t: nat) returns (s: State)
    requires t == 48
    ensures At(t + 4, s)
    ensures s == State(0x886e7a22, 0x7a0508a1, 0xf11bfaa8, 0x05757ceb,
                       0x49231c1e, 0x52f1ccf7, 0x6e5c390c, 0xbd714038)
  {
    hide At, WordIs;
    Words48(t);
    Constants48();
    s := Rounds44(t - 4);
    s := NextRound(t, s, 0x19a4c116, 0xfb3e89cb, 0x05757ceb, 0xbd714038);
    s := NextRound(t + 1, s, 0x1e376c08, 0xcc7617db, 0xf11bfaa8, 0x6e5c390c);
    s := NextRound(t + 2, s, 0x2748774c, 0xb9e66c34, 0x7a0508a1, 0x52f1ccf7);
    s := NextRound(t + 3, s, 0x34b0bcb5, 0xa9993667, 0x886e7a22, 0x49231c1e);
  }

  lemma Rounds52(t: nat) returns (s: State)
    requires t == 52
    ensures At(t + 4, s)
    ensures s == State(0x38cc9913, 0x3ec45cdb, 0xf5702fdb, 0x101fd28f,
                       0x54cb266b, 0xe50e1b4f, 0x9f4787c3, 0x529e7d00)
  {
    hide At, WordIs;
    Words52(t);
    Constants48();
    s := Rounds48(t - 4);
    s := NextRound(t, s, 0x391c0cb3, 0x84badedd, 0x101fd28f, 0x529e7d00);
    s := NextRound(t + 1, s, 0x4ed8aa4a, 0xc21462bc, 0xf5702fdb, 0x9f4787c3);
    s := NextRound(t + 2, s, 0x5b9cca4f, 0x1487472c, 0x3ec45cdb, 0xe50e1b4f);
    s := NextRound(t + 3, s, 0x682e6ff3, 0xb20f7a99, 0x38cc9913, 0x54cb266b);
  }

  lemma Rounds56(t: nat) returns (s: State)
    requires t == 56
    ensures At(t + 4, s)
    ensures s == State(0xb6ae8fff, 0xffb70472, 0xc062d46f, 0xfcd1887b,
                       0xb21bad3d, 0x6d83bfc6, 0x7e44008e, 0x9b5e906c)
  {
    hide At, WordIs;
    Words56(t);
    Constants56();
    s := Rounds52(t - 4);
    s := NextRound(t, s, 0x748f82ee, 0xef57b9cd, 0xfcd1887b, 0x9b5e906c);
    s := NextRound(t + 1, s, 0x78a5636f, 0xebe6b238, 0xc062d46f, 0x7e44008e);
    s := NextRound(t + 2, s, 0x84c87814, 0x9fe3095e, 0xffb70472, 0x6d83bfc6);
    s := NextRound(t + 3, s, 0x8cc70208, 0x78bc8d4b, 0xb6ae8fff, 0xb21bad3d);
  }

  lemma Rounds60(t: nat) returns (s: State)
    requires t == 60
    ensures At(t + 4, s)
    ensures s == State(0x506e3058, 0xd39a2165, 0x04d24d6c, 0xb85e2ce9,
                       0x5ef50f24, 0xfb121210, 0x948d25b6, 0x961f4894)
  {
    hide At, WordIs;
    Words60(t);
    Constants56();
    s := Rounds56(t - 4);
    s := NextRound(t, s, 0x90befffa, 0xa43fcf15, 0xb85e2ce9, 0x961f4894);
    s := NextRound(t + 1, s, 0xa4506ceb, 0x668b2ff8, 0x04d24d6c, 0x948d25b6);
    s := NextRound(t + 2, s, 0xbef9a3f7, 0xeeaba2cc, 0xd39a2165, 0xfb121210);
    s := NextRound(t + 3, s, 0xc67178f2, 0x12b1edeb, 0x506e3058, 0x5ef50f24);
  }

  // ----- the digest

  lemma ChainingValue()
    ensures Compress(H0, Block()) ==
      [0xba7816bf, 0x8f01cfea, 0x414140de, 0x5dae2223, 0xb00361a3, 0x96177a9c, 0xb410ff61, 0xf20015ad]
  {
    hide Block, Rounds;
    var n := 60;
    Constants0();
    var s := Rounds60(n);
    IsAt(n + 4, s);
  }

  lemma {:induction false} UnloadAt(h: seq<Word>, i: nat)
    requires i < |h|
    ensures Unload(h)[4 * i] == WordByte(h[i], 24) && Unload(h)[4 * i + 1] == WordByte(h[i], 16)
    ensures Unload(h)[4 * i + 2] == WordByte(h[i], 8) && Unload(h)[4 * i + 3] == WordByte(h[i], 0)
    decreases |h|
  {
    hide WordByte;
    if i < |h| - 1 {
      UnloadAt(h[..|h| - 1], i);
    }
  }

  predicate Split(w: Word, p: Byte, q: Byte, r: Byte, s: Byte) {
    WordByte(w, 24) == p && WordByte(w, 16) == q && WordByte(w, 8) == r && WordByte(w, 0) == s
  }

  lemma BytesOfWords()
    ensures Split(0xba7816bf, 0xba, 0x78, 0x16, 0xbf)
    ensures Split(0x8f01cfea, 0x8f, 0x01, 0xcf, 0xea)
    ensures Split(0x414140de, 0x41, 0x41, 0x40, 0xde)
    ensures Split(0x5dae2223, 0x5d, 0xae, 0x22, 0x23)
    ensures Split(0xb00361a3, 0xb0, 0x03, 0x61, 0xa3)
    ensures Split(0x96177a9c, 0x96, 0x17, 0x7a, 0x9c)
    ensures Split(0xb410ff61, 0xb4, 0x10, 0xff, 0x61)
    ensures Split(0xf20015ad, 0xf2, 0x00, 0x15, 0xad)
  {
  }

  lemma OneBlock(block: seq<Byte>)
    requires |block| == 64
    ensures Absorb(block) == Compress(H0, block)
  {
    hide Compress, H0;
    assert block[..0] == [] && block[0..] == block;
  }

  lemma TheBytes()
    ensures Unload([0xba7816bf, 0x8f01cfea, 0x414140de, 0x5dae2223,
                    0xb00361a3, 0x96177a9c, 0xb410ff61, 0xf20015ad]) ==
      [0xba, 0x78, 0x16, 0xbf, 0x8f, 0x01, 0xcf, 0xea, 0x41, 0x41, 0x40, 0xde, 0x5d, 0xae, 0x22, 0x23,
       0xb0, 0x03, 0x61, 0xa3, 0x96, 0x17, 0x7a, 0x9c, 0xb4, 0x10, 0xff, 0x61, 0xf2, 0x00, 0x15, 0xad]
  {
    hide WordByte, Unload;
    var words := [0xba7816bf, 0x8f01cfea, 0x414140de, 0x5dae2223,
                  0xb00361a3, 0x96177a9c, 0xb410ff61, 0xf20015ad];
    BytesOfWords();
    UnloadAt(words, 0);
    UnloadAt(words, 1);
    UnloadAt(words, 2);
    UnloadAt(words, 3);
    UnloadAt(words, 4);
    UnloadAt(words, 5);
    UnloadAt(words, 6);
    UnloadAt(words, 7);
  }

  /** The digest of "abc". */
  lemma DigestOfAbc()
    ensures Digest(['a' as Byte, 'b' as Byte, 'c' as Byte]) ==
      [0xba, 0x78, 0x16, 0xbf, 0x8f, 0x01, 0xcf, 0xea, 0x41, 0x41, 0x40, 0xde, 0x5d, 0xae, 0x22, 0x23,
       0xb0, 0x03, 0x61, 0xa3, 0x96, 0x17, 0x7a, 0x9c, 0xb4, 0x10, 0xff, 0x61, 0xf2, 0x00, 0x15, 0xad]
  {
    hide *;
    Padded();
    OneBlock(Block());
    ChainingValue();
    TheBytes();
    IsDigest(Block());
  }

  lemma IsDigest(block: seq<Byte>)
    requires |block| == 64 && Pad(ABC) == block
    ensures Digest(['a' as Byte, 'b' as Byte, 'c' as Byte]) == Unload(Absorb(block))
  {
    hide Pad, Unload, Absorb;
    assert ABC == ['a' as Byte, 'b' as Byte, 'c' as Byte];
  }
}
