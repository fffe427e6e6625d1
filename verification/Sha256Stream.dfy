/** Hashing a message that comes in pieces. */
module Sha256Stream {
  import opened Sequences
  import opened Sha256Spec
  import opened Sha256

  // ----- what the buffer means

  /** h has taken in the full blocks of msg; chunk[..pos] is what is left over. */
  ghost predicate Buffered(h: seq<Word>, chunk: seq<Byte>, pos: nat, msg: seq<Byte>): (b: bool)
    ensures b ==> |h| == 8 && |chunk| == 64 && pos < 64 && pos <= |msg|
  {
    && |h| == 8 && |chunk| == 64 && pos == |msg| % 64
    && h == Absorb(msg[..|msg| - pos])
    && chunk[..pos] == msg[|msg| - pos..]
  }

  lemma AbsorbAppend(m: seq<Byte>, b: seq<Byte>)
    requires |m| % 64 == 0 && |b| == 64
    ensures Absorb(m + b) == Compress(Absorb(m), b)
  {
    assert (m + b)[..|m + b| - 64] == m && (m + b)[|m + b| - 64..] == b;
  }

  lemma BufferedStart(chunk: seq<Byte>)
    requires |chunk| == 64
    ensures Buffered(H0, chunk, 0, [])
  {
  }

  /** A whole block bypasses the empty buffer. */
  lemma BufferBlock(h: seq<Word>, chunk: seq<Byte>, msg: seq<Byte>, b: seq<Byte>)
    requires Buffered(h, chunk, 0, msg) && |b| == 64
    ensures Buffered(Compress(h, b), chunk, 0, msg + b)
  {
    hide Compress;
    AbsorbAppend(msg, b);
    assert msg[..|msg|] == msg && (msg + b)[..|msg + b|] == msg + b;
  }

  /** A piece that does not fill the buffer. */
  lemma BufferPiece(h: seq<Word>, chunk: seq<Byte>, pos: nat, msg: seq<Byte>, piece: seq<Byte>, c: seq<Byte>)
    requires Buffered(h, chunk, pos, msg) && pos + |piece| < 64
    requires c == (chunk[..pos] + piece) + chunk[pos + |piece|..]
    ensures Buffered(h, c, pos + |piece|, msg + piece)
  {
    hide Absorb;
    var m, q, full := msg + piece, pos + |piece|, |msg| - pos;
    StillPartial(|msg|, |piece|);
    TakeDrop(msg, piece, full);
    assert |m| - q == full;
    TakeDrop(chunk[..pos] + piece, chunk[q..], q);
    assert chunk[..pos] + piece == msg[full..] + piece;
  }

  lemma StillPartial(n: nat, k: nat)
    requires n % 64 + k < 64
    ensures (n + k) % 64 == n % 64 + k
  {
    assert n == 64 * (n / 64) + n % 64;
  }

  lemma TakeDrop<T>(a: seq<T>, b: seq<T>, k: nat)
    requires k <= |a|
    ensures (a + b)[..k] == a[..k] && (a + b)[k..] == a[k..] + b
  {
  }

  /** A piece that fills it. */
  lemma BufferFill(h: seq<Word>, chunk: seq<Byte>, pos: nat, msg: seq<Byte>, piece: seq<Byte>, c: seq<Byte>)
    requires Buffered(h, chunk, pos, msg) && pos + |piece| == 64
    requires c == chunk[..pos] + piece
    ensures Buffered(Compress(h, c), c, 0, msg + piece)
  {
    hide Compress;
    var full := msg[..|msg| - pos];
    AbsorbAppend(full, c);
    assert msg == full + msg[|msg| - pos..];
    assert full + c == msg + piece == (msg + piece)[..|msg + piece|];
  }

  // ----- byte moves

  /** memcpy into the buffer. */
  method CopyBytes(a: array<Byte>, at: nat, piece: seq<Byte>)
    requires at + |piece| <= a.Length
    modifies a
    ensures a[..] == old(a[..at]) + piece + old(a[at + |piece|..])
  {
    for i := 0 to |piece|
      invariant a[..] == old(a[..at]) + piece[..i] + old(a[at + i..])
    {
      a[at + i] := piece[i];
    }
  }

  /** memset in the buffer. */
  method ZeroBytes(a: array<Byte>, at: nat, k: nat)
    requires at + k <= a.Length
    modifies a
    ensures a[..] == old(a[..at]) + Zeros(k) + old(a[at + k..])
  {
    for i := 0 to k
      invariant a[..at] == old(a[..at]) && a[at..at + i] == Zeros(i) && a[at + i..] == old(a[at + i..])
    {
      a[at + i] := 0;
      assert a[at..at + i + 1] == a[at..at + i] + [0];
    }
    assert a[..] == a[..at] + a[at..at + k] + a[at + k..];
  }

  // ----- the length field

  /** A 64-bit counter of bytes. */
  function Wrap(n: nat): nat { n % 0x1_0000_0000_0000_0000 }

  function Pow256(k: nat): nat
  {
    if k == 0 then 1 else 0x100 * Pow256(k - 1)
  }

  lemma OneByteOut(x: nat, p: nat)
    ensures x * (0x100 * p) == 0x100 * (x * p)
  {
  }

  lemma OneByteUp(n: nat, y: nat)
    ensures (n + 0x100 * y) / 0x100 == n / 0x100 + y && (n + 0x100 * y) % 0x100 == n % 0x100
  {
  }

  lemma {:induction false} LastBytesForget(n: nat, x: nat, k: nat)
    ensures LastBytes(n + x * Pow256(k), k) == LastBytes(n, k)
    decreases k
  {
    if k > 0 {
      var y := x * Pow256(k - 1);
      OneByteOut(x, Pow256(k - 1));
      OneByteUp(n, y);
      LastBytesForget(n / 0x100, x, k - 1);
    }
  }

  /** The counter may have wrapped; the field does not show it. */
  lemma CounterBits(n: nat)
    ensures LastBytes(8 * Wrap(n), 8) == LastBytes(8 * n, 8)
  {
    var q, r := n / 0x1_0000_0000_0000_0000, Wrap(n);
    assert n == q * 0x1_0000_0000_0000_0000 + r;
    assert Pow256(8) == 0x1_0000_0000_0000_0000;
    assert 8 * n == 8 * r + (8 * q) * Pow256(8);
    LastBytesForget(8 * r, 8 * q, 8);
  }

  /** The lowest byte of 8 * len, and the rest of it as len >> 5. */
  lemma LengthBits(len: nat)
    ensures LastBytes(8 * len, 8) == LastBytes(len / 32, 7) + [8 * len % 0x100]
  {
    assert 8 * len / 0x100 == len / 32;
  }

  lemma LastBytesPrepend(n: nat, k: nat, rest: seq<Byte>)
    ensures LastBytes(n / 0x100, k) + ([n % 0x100] + rest) == LastBytes(n, k + 1) + rest
  {
  }

  lemma LastBytesNone(n: nat)
    ensures LastBytes(n, 0) == []
  {
  }

  method StoreLength(a: array<Byte>, at: nat, total_len: nat)
    requires at + 8 == a.Length
    modifies a
    ensures a[..] == old(a[..at]) + LastBytes(8 * total_len, 8)
  {
    hide *;
    LengthBits(total_len);
    var len := total_len;
    a[at + 7] := 8 * len % 0x100;
    len := len / 32;
    var i := 6;
    assert LastBytes(len, 7) + a[at + 7..] == LastBytes(8 * total_len, 8);
    while i >= 0
      invariant -1 <= i <= 6
      invariant a[..at] == old(a[..at])
      invariant LastBytes(len, i + 1) + a[at + i + 1..] == LastBytes(8 * total_len, 8)
    {
      ghost var rest := a[at + i + 1..];
      a[at + i] := len % 0x100;
      assert a[at + i..] == [len % 0x100] + rest;
      LastBytesPrepend(len, i, rest);
      len := len / 0x100;
      i := i - 1;
    }
    LastBytesNone(len);
    assert a[..] == a[..at] + a[at..];
  }

  lemma CounterAdds(n: nat, k: nat)
    ensures Wrap(Wrap(n) + k) == Wrap(n + k)
  {
    var q := n / 0x1_0000_0000_0000_0000;
    assert n + k == q * 0x1_0000_0000_0000_0000 + (Wrap(n) + k);
  }

  // ----- the padding

  lemma PaddedTail(n: nat, pos: nat)
    requires pos == n % 64
    ensures pos <= 55 ==> PadZeros(n) == 55 - pos
    ensures pos > 55 ==> PadZeros(n) == 63 - pos + 56
  {
  }

  /** 0x80, zeros and the length all fit behind what is left over. */
  lemma AllFits(h: seq<Word>, c0: seq<Byte>, pos: nat, msg: seq<Byte>, total_len: nat, c: seq<Byte>)
    requires Buffered(h, c0, pos, msg) && pos <= 55 && total_len == Wrap(|msg|)
    requires c == c0[..pos] + [0x80] + Zeros(55 - pos) + LastBytes(8 * total_len, 8)
    ensures Compress(h, c) == Absorb(Pad(msg))
  {
    hide Compress, Absorb, LastBytes;
    var piece := [0x80] + Zeros(55 - pos) + LastBytes(8 * total_len, 8);
    PaddedTail(|msg|, pos);
    CounterBits(|msg|);
    assert c == c0[..pos] + piece && Pad(msg) == msg + piece;
    BufferFill(h, c0, pos, msg, piece, c);
    assert (msg + piece)[..|msg + piece| - 0] == msg + piece;
  }

  /** They do not: 0x80 and zeros complete this block ... */
  lemma MarkFills(h: seq<Word>, c0: seq<Byte>, pos: nat, msg: seq<Byte>, c: seq<Byte>)
    requires Buffered(h, c0, pos, msg) && c == c0[..pos] + [0x80] + Zeros(63 - pos)
    ensures Buffered(Compress(h, c), c, 0, msg + ([0x80] + Zeros(63 - pos)))
  {
    hide Compress, Absorb;
    assert c == c0[..pos] + ([0x80] + Zeros(63 - pos));
    BufferFill(h, c0, pos, msg, [0x80] + Zeros(63 - pos), c);
  }

  /** ... and the length goes into one more. */
  lemma LengthFills(h: seq<Word>, c1: seq<Byte>, msg: seq<Byte>, pos: nat, total_len: nat, c: seq<Byte>)
    requires pos == |msg| % 64 && pos > 55 && total_len == Wrap(|msg|)
    requires Buffered(h, c1, 0, msg + ([0x80] + Zeros(63 - pos)))
    requires c == Zeros(56) + LastBytes(8 * total_len, 8)
    ensures Compress(h, c) == Absorb(Pad(msg))
  {
    hide Compress, Absorb, LastBytes;
    var m := msg + ([0x80] + Zeros(63 - pos));
    PaddedTail(|msg|, pos);
    CounterBits(|msg|);
    assert Zeros(63 - pos + 56) == Zeros(63 - pos) + Zeros(56);
    assert Pad(msg) == m + c;
    BufferFill(h, c1, 0, m, c, c);
    assert (m + c)[..|m + c| - 0] == m + c;
  }

  // ----- the hasher

  class Hasher {
    const hash: array<Byte>
    const chunk: array<Byte>
    const h: array<Word>
    var chunk_pos: nat
    var space_left: nat
    var total_len: nat
    ghost var msg: seq<Byte>

    ghost predicate Holds(): (b: bool)
      reads this`chunk_pos, this`space_left, this`msg, chunk, h
      ensures b ==> chunk_pos + space_left == 64 && chunk_pos < 64
    {
      && chunk != hash && chunk as object != h && hash as object != h && hash.Length == 32
      && Buffered(h[..], chunk[..], chunk_pos, msg) && chunk_pos + space_left == 64
    }

    /** Everything written so far is msg. */
    ghost predicate Valid()
      reads this, chunk, h
    {
      Holds() && total_len == Wrap(|msg|)
    }

    constructor (hash: array<Byte>)
      requires hash.Length == 32
      ensures Valid() && msg == [] && this.hash == hash && fresh(chunk) && fresh(h)
    {
      this.hash := hash;
      chunk := new Byte[64](_ => 0);
      h := new Word[8](i requires 0 <= i < 8 => H0[i]);
      chunk_pos, space_left, total_len := 0, 64, 0;
      msg := [];
      new;
      assert h[..] == H0;
      BufferedStart(chunk[..]);
    }

    method Write(data: seq<Byte>)
      requires Valid()
      modifies this, chunk, h
      ensures Valid() && msg == old(msg) + data
    {
      hide *;
      MeansValid();
      CounterAdds(|msg|, |data|);
      total_len := Wrap(total_len + |data|);
      ghost var start := msg;
      var p, len := 0, |data|;
      assert msg == start + data[..p];
      while len > 0
        invariant 0 <= len && 0 <= p && p + len == |data|
        invariant Holds() && msg == start + data[..p]
        invariant total_len == Wrap(|start| + |data|)
      {
        if space_left == 64 && len >= 64 {
          WriteBlock(data[p..p + 64]);
          assert data[..p + 64] == data[..p] + data[p..p + 64];
          len := len - 64;
          p := p + 64;
          continue;
        }
        var consumed_len := if len < space_left then len else space_left;
        WritePiece(data[p..p + consumed_len]);
        assert data[..p + consumed_len] == data[..p] + data[p..p + consumed_len];
        len := len - consumed_len;
        p := p + consumed_len;
      }
      assert data[..p] == data;
      MeansValid();
    }

    lemma MeansValid()
      ensures Valid() <==> Holds() && total_len == Wrap(|msg|)
    {
    }

    /** With the buffer empty a whole block is compressed where it lies. */
    method WriteBlock(b: seq<Byte>)
      requires Holds() && space_left == 64 && |b| == 64
      modifies this`msg, h
      ensures Holds() && msg == old(msg) + b
    {
      hide Buffered, Compress;
      BufferBlock(h[..], chunk[..], msg, b);
      ConsumeChunk(h, b);
      msg := msg + b;
    }

    /** Otherwise bytes are copied in, and a full buffer is compressed. */
    method WritePiece(piece: seq<Byte>)
      requires Holds() && |piece| <= space_left
      modifies this`msg, this`space_left, this`chunk_pos, chunk, h
      ensures Holds() && msg == old(msg) + piece
    {
      hide Buffered, Compress;
      ghost var h0, c0, pos := h[..], chunk[..], chunk_pos;
      CopyBytes(chunk, chunk_pos, piece);
      space_left := space_left - |piece|;
      if space_left == 0 {
        assert chunk[..] == c0[..pos] + piece;
        BufferFill(h0, c0, pos, msg, piece, chunk[..]);
        ConsumeChunk(h, chunk[..]);
        chunk_pos := 0;
        space_left := 64;
      } else {
        BufferPiece(h0, c0, pos, msg, piece, chunk[..]);
        chunk_pos := chunk_pos + |piece|;
      }
      msg := msg + piece;
    }

    /** Pad, take in the last block or two, and write the digest out. */
    method Close()
      requires Valid()
      modifies chunk, h, hash
      ensures hash[..] == Digest(msg)
    {
      hide *;
      MeansValid();
      HoldsFacts();
      ghost var h0, c0 := h[..], chunk[..];
      var pos, space := chunk_pos, space_left;
      chunk[pos] := 0x80;
      pos := pos + 1;
      space := space - 1;
      assert chunk[..pos] == c0[..chunk_pos] + [0x80];
      ghost var c1, second := chunk[..], space < 8;
      if space < 8 {
        ZeroBytes(chunk, pos, space);
        c1 := chunk[..];
        assert c1 == c0[..chunk_pos] + [0x80] + Zeros(space);
        ConsumeChunk(h, chunk[..]);
        MarkFills(h0, c0, chunk_pos, msg, c1);
        pos := 0;
        space := 64;
      }
      var left := space - 8;
      ZeroBytes(chunk, pos, left);
      pos := pos + left;
      StoreLength(chunk, pos, total_len);
      assert chunk[..] == c1[..pos - left] + Zeros(left) + LastBytes(8 * total_len, 8);
      if second {
        assert chunk[..] == Zeros(56) + LastBytes(8 * total_len, 8);
        LengthFills(h[..], c1, msg, chunk_pos, total_len, chunk[..]);
      } else {
        AllFits(h0, c0, chunk_pos, msg, total_len, chunk[..]);
      }
      ConsumeChunk(h, chunk[..]);
      WriteOut();
      DigestIs(msg);
    }

    lemma DigestIs(m: seq<Byte>)
      ensures Digest(m) == Unload(Absorb(Pad(m)))
    {
    }

    lemma HoldsFacts()
      requires Holds()
      ensures chunk != hash && chunk as object != h && hash as object != h && hash.Length == 32
      ensures h.Length == 8 && chunk.Length == 64
      ensures Buffered(h[..], chunk[..], chunk_pos, msg)
    {
    }

    method WriteOut()
      requires h.Length == 8 && hash.Length == 32 && hash as object != h
      modifies hash
      ensures hash[..] == Unload(h[..])
    {
      hide WordByte;
      var j := 0;
      for i := 0 to 8
        invariant j == 4 * i && hash[..j] == Unload(h[..i])
      {
        hash[j] := WordByte(h[i], 24);
        hash[j + 1] := WordByte(h[i], 16);
        hash[j + 2] := WordByte(h[i], 8);
        hash[j + 3] := WordByte(h[i], 0);
        j := j + 4;
        assert hash[..j] == hash[..j - 4] + WordBytes(h[i]);
        assert h[..i + 1][..i] == h[..i];
      }
      assert hash[..32] == hash[..] && h[..8] == h[..];
    }
  }

  /** However a message is cut into writes, the digest is that of the whole. */
  method HashInPieces(pieces: seq<seq<Byte>>) returns (d: seq<Byte>)
    ensures d == Digest(Concat(pieces))
  {
    hide *;
    var hash := new Byte[32](_ => 0);
    var hasher := new Hasher(hash);
    ConcatNone(pieces[..0]);
    for i := 0 to |pieces|
      invariant hasher.Valid() && hasher.msg == Concat(pieces[..i])
      invariant hasher.hash == hash && fresh(hasher) && fresh(hasher.chunk) && fresh(hasher.h)
    {
      ConcatMore(pieces, i);
      hasher.Write(pieces[i]);
    }
    assert pieces[..|pieces|] == pieces;
    hasher.Close();
    d := hash[..];
  }
}
