/** The incremental hasher: 64 bytes of buffer, and a 16-word window on the schedule. */
module Sha256 {
  import opened Sequences
  import opened Sha256Spec

  lemma PlusCommutes(a: Word, b: Word)
    ensures Plus(a, b) == Plus(b, a)
  {
  }

  lemma PlusAssociates(a: Word, b: Word, c: Word)
    ensures Plus(Plus(a, b), c) == Plus(a, Plus(b, c))
  {
    var m := 0x1_0000_0000;
    assert a + b < m ==> (a + b) % m == a + b;
    assert b + c < m ==> (b + c) % m == b + c;
    assert a + b >= m ==> (a + b) % m == a + b - m;
    assert b + c >= m ==> (b + c) % m == b + c - m;
  }

  /** The order in which the code adds does not matter. */
  lemma AddOrder(a: Word, b: Word, c: Word, d: Word)
    ensures Plus(Plus(Plus(a, b), c), d) == Plus(Plus(Plus(d, c), b), a)
  {
    hide Plus;
    PlusCommutes(Plus(Plus(a, b), c), d);
    PlusCommutes(Plus(a, b), c);
    PlusCommutes(a, b);
    PlusAssociates(d, c, Plus(b, a));
    PlusAssociates(Plus(d, c), b, a);
  }

  /** Before round 16 * i + j the window holds the words of this row so far, then the
      rest of the row before. */
  ghost predicate Window(w: seq<Word>, block: seq<Byte>, i: nat, j: nat): (b: bool)
    ensures b ==> |w| == 16 && |block| == 64 && j <= 16
  {
    && |w| == 16 && |block| == 64 && j <= 16
    && (forall k :: 0 <= k < j ==> w[k] == Schedule(block, 16 * i + k))
    && (i > 0 ==> forall k :: j <= k < 16 ==> w[k] == Schedule(block, 16 * (i - 1) + k))
  }

  /** Slot j + d, wrapped around, holds the word d places after the oldest. */
  lemma WindowAt(w: seq<Word>, block: seq<Byte>, i: nat, j: nat, d: nat)
    requires Window(w, block, i, j) && j < 16 && i > 0 && d < 16
    ensures w[(j + d) % 16] == Schedule(block, 16 * i + j - 16 + d)
  {
    hide Schedule;
    if j + d < 16 {
      assert (j + d) % 16 == j + d;
    } else {
      assert (j + d) % 16 == j + d - 16;
    }
  }

  /** The word of sixteen rounds ago, overwritten, is the word of this round. */
  lemma WindowWord(w: seq<Word>, block: seq<Byte>, i: nat, j: nat)
    requires Window(w, block, i, j) && j < 16 && i > 0
    ensures Plus(Plus(Plus(w[j], SmallSigma0(w[(j + 1) % 16])), w[(j + 9) % 16]), SmallSigma1(w[(j + 14) % 16]))
            == Schedule(block, 16 * i + j)
  {
    hide SmallSigma0, SmallSigma1, BigEndian, Plus;
    var t := 16 * i + j;
    WindowAt(w, block, i, j, 0);
    WindowAt(w, block, i, j, 1);
    WindowAt(w, block, i, j, 9);
    WindowAt(w, block, i, j, 14);
    AddOrder(w[j], SmallSigma0(w[(j + 1) % 16]), w[(j + 9) % 16], SmallSigma1(w[(j + 14) % 16]));
  }

  lemma WindowSet(w: seq<Word>, block: seq<Byte>, i: nat, j: nat, x: Word)
    requires Window(w, block, i, j) && j < 16 && x == Schedule(block, 16 * i + j)
    ensures Window(w[j := x], block, i, j + 1)
  {
    hide Schedule;
  }

  lemma FirstWord(block: seq<Byte>, j: nat)
    requires |block| == 64 && j < 16
    ensures Schedule(block, j) == BigEndian(block[4 * j], block[4 * j + 1], block[4 * j + 2], block[4 * j + 3])
  {
    hide BigEndian;
  }

  lemma KLength()
    ensures |K| == 64
  {
  }

  /** The eight variables after the temporaries of one round are known. */
  function Shifted(ah: seq<Word>, temp1: Word, temp2: Word): seq<Word>
    requires |ah| == 8
  {
    [Plus(temp1, temp2), ah[0], ah[1], ah[2], Plus(ah[3], temp1), ah[4], ah[5], ah[6]]
  }

  lemma ShiftedIs(v: seq<Word>, u: seq<Word>, temp1: Word, temp2: Word)
    requires |v| == |u| == 8
    requires u[0] == Plus(temp1, temp2) && u[4] == Plus(v[3], temp1)
    requires u[1] == v[0] && u[2] == v[1] && u[3] == v[2] && u[5] == v[4] && u[6] == v[5] && u[7] == v[6]
    ensures u == Shifted(v, temp1, temp2)
  {
  }

  lemma RoundStep(ah: seq<Word>, start: Vars, block: seq<Byte>, t: nat, temp1: Word, temp2: Word)
    requires |ah| == 8 && |block| == 64 && t < 64 && Load(ah) == Rounds(start, block, t)
    requires temp1 == Plus(Plus(Plus(Plus(ah[7], BigSigma1(ah[4])), Ch(ah[4], ah[5], ah[6])), K[t]), Schedule(block, t))
    requires temp2 == Plus(BigSigma0(ah[0]), Maj(ah[0], ah[1], ah[2]))
    ensures Load(Shifted(ah, temp1, temp2)) == Rounds(start, block, t + 1)
  {
    hide BigSigma0, BigSigma1, Ch, Maj, Plus, Schedule, K;
  }

  lemma CompressIs(h: seq<Word>, ah: seq<Word>, r: seq<Word>, block: seq<Byte>)
    requires |h| == |ah| == |r| == 8 && |block| == 64 && Load(ah) == Rounds(Load(h), block, 64)
    requires forall k :: 0 <= k < 8 ==> r[k] == Plus(h[k], ah[k])
    ensures r == Compress(h, block)
  {
    hide Plus, Rounds;
    var v := Rounds(Load(h), block, 64);
    assert v == Vars(ah[0], ah[1], ah[2], ah[3], ah[4], ah[5], ah[6], ah[7]);
    var c := Compress(h, block);
    assert c[0] == r[0] && c[1] == r[1] && c[2] == r[2] && c[3] == r[3];
    assert c[4] == r[4] && c[5] == r[5] && c[6] == r[6] && c[7] == r[7];
    assert r == c;
  }

  /** The eight assignments that end a round, in the order in which none reads a new value. */
  method ShiftVars(ah: array<Word>, temp1: Word, temp2: Word)
    requires ah.Length == 8
    modifies ah
    ensures ah[..] == Shifted(old(ah[..]), temp1, temp2)
  {
    hide *;
    ghost var v := ah[..];
    ah[7] := ah[6];
    ah[6] := ah[5];
    ah[5] := ah[4];
    ah[4] := Plus(ah[3], temp1);
    ah[3] := ah[2];
    ah[2] := ah[1];
    ah[1] := ah[0];
    ah[0] := Plus(temp1, temp2);
    ShiftedIs(v, ah[..], temp1, temp2);
  }

  method ConsumeChunk(h: array<Word>, p: seq<Byte>)
    requires h.Length == 8 && |p| == 64
    modifies h
    ensures h[..] == Compress(old(h[..]), p)
  {
    hide *;
    ghost var h0 := h[..];
    var ah := new Word[8](i requires 0 <= i < 8 && h.Length == 8 reads h => h[i]);
    var w := new Word[16](_ => 0);
    ghost var start := Load(h0);
    assert ah[..] == h0;
    KLength();
    RoundsStart(start, p);
    WindowStart(w[..], p);
    for i := 0 to 4
      invariant Window(w[..], p, i, 0) && Load(ah[..]) == Rounds(start, p, 16 * i)
      invariant h[..] == h0
    {
      for j := 0 to 16
        invariant Window(w[..], p, i, j) && Load(ah[..]) == Rounds(start, p, 16 * i + j)
        invariant h[..] == h0
      {
        ghost var was, v, t := w[..], ah[..], 16 * i + j;
        if i == 0 {
          FirstWord(p, j);
          w[j] := BigEndian(p[4 * j], p[4 * j + 1], p[4 * j + 2], p[4 * j + 3]);
        } else {
          WindowWord(was, p, i, j);
          var s0 := SmallSigma0(w[(j + 1) % 16]);
          var s1 := SmallSigma1(w[(j + 14) % 16]);
          w[j] := Plus(Plus(Plus(w[j], s0), w[(j + 9) % 16]), s1);
        }
        WindowSet(was, p, i, j, w[j]);
        assert w[..] == was[j := w[j]];
        var s1 := BigSigma1(ah[4]);
        var ch := Ch(ah[4], ah[5], ah[6]);
        var temp1 := Plus(Plus(Plus(Plus(ah[7], s1), ch), K[16 * i + j]), w[j]);
        var s0 := BigSigma0(ah[0]);
        var maj := Maj(ah[0], ah[1], ah[2]);
        var temp2 := Plus(s0, maj);
        RoundStep(v, start, p, t, temp1, temp2);
        ShiftVars(ah, temp1, temp2);
      }
      WindowTurn(w[..], p, i);
    }
    for i := 0 to 8
      invariant forall k :: 0 <= k < i ==> h[k] == Plus(h0[k], ah[k])
      invariant forall k :: i <= k < 8 ==> h[k] == h0[k]
      invariant Load(ah[..]) == Rounds(start, p, 64)
    {
      h[i] := Plus(h[i], ah[i]);
    }
    CompressIs(h0, ah[..], h[..], p);
  }

  lemma WindowStart(w: seq<Word>, block: seq<Byte>)
    requires |w| == 16 && |block| == 64
    ensures Window(w, block, 0, 0)
  {
  }

  lemma WindowTurn(w: seq<Word>, block: seq<Byte>, i: nat)
    requires Window(w, block, i, 16)
    ensures Window(w, block, i + 1, 0)
  {
  }

  lemma RoundsStart(v: Vars, block: seq<Byte>)
    requires |block| == 64
    ensures Rounds(v, block, 0) == v
  {
  }
}
