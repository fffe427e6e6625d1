/** Base64 (section 4 of RFC 4648): the encoder of the xar tool and the decoder of the xar
    library, which were written separately. Fields that are or-ed together do not overlap,
    so they are added here. */
module Base64 {
  import opened Base64Bands
  import opened Base64Size
  import opened Sequences

  type Sextet = x: nat | x < 64

  const PAD: Byte := 61

  // ----- the two tables

  function Letter(x: Sextet): Byte {
    if x < 26 then 65 + x
    else if x < 52 then 97 + (x - 26)
    else if x < 62 then 48 + (x - 52)
    else if x == 62 then 43
    else 47
  }

  datatype Symbol = End | Padding | Ignored | Six(x: Sextet)

  function Meaning(c: Byte): Symbol {
    if c == 0 then End
    else if c == 61 then Padding
    else if c == 43 then Six(62)
    else if c == 47 then Six(63)
    else if 48 <= c <= 57 then Six(c - 48 + 52)
    else if 65 <= c <= 90 then Six(c - 65)
    else if 97 <= c <= 122 then Six(c - 97 + 26)
    else Ignored
  }

  lemma LetterMeans(x: Sextet)
    ensures Meaning(Letter(x)) == Six(x)
  {
  }

  /** The 64 characters of table 1 of RFC 4648, which both tables agree with. */
  lemma LetterIs(x: Sextet)
    ensures Letter(x) ==
            ("ABCDEFGHIJKLMNOPQRSTUVWXYZ" + "abcdefghijklmnopqrstuvwxyz" + "0123456789+/")[x] as nat
  {
    if x < 26 {
      CapitalIs(x);
    } else if x < 52 {
      SmallIs(x - 26);
    }
  }

  lemma CapitalIs(i: nat)
    requires i < 26
    ensures "ABCDEFGHIJKLMNOPQRSTUVWXYZ"[i] as nat == 65 + i
  {
  }

  lemma SmallIs(i: nat)
    requires i < 26
    ensures "abcdefghijklmnopqrstuvwxyz"[i] as nat == 97 + i
  {
  }

  /** What every byte means: a letter its place in that table, "=" padding, 0 the end, and
      everything else, white space included, nothing. */
  lemma MeaningIs(c: Byte)
    ensures var letters := ("ABCDEFGHIJKLMNOPQRSTUVWXYZ" + "abcdefghijklmnopqrstuvwxyz" + "0123456789+/");
      && (forall x: Sextet :: Meaning(c) == Six(x) <==> c == letters[x] as nat)
      && (Meaning(c) == Padding <==> c == '=' as nat)
      && (Meaning(c) == End <==> c == 0)
      && (Meaning(c) == Ignored <==> c != 0 && c != '=' as nat && forall x: Sextet :: c != letters[x] as nat)
  {
    hide Letter;
    forall x: Sextet
      ensures Meaning(c) == Six(x) <==> c == Letter(x)
      ensures Letter(x) == ("ABCDEFGHIJKLMNOPQRSTUVWXYZ" + "abcdefghijklmnopqrstuvwxyz" + "0123456789+/")[x] as nat
    {
      LetterIs(x);
      LetterMeans(x);
      if Meaning(c) == Six(x) {
        MeansLetter(c, x);
      }
    }
  }

  lemma MeansLetter(c: Byte, x: Sextet)
    requires Meaning(c) == Six(x)
    ensures c == Letter(x)
  {
  }

  // ----- encoding

  /** Three bytes make four letters; padding says how many bytes the last group had. */
  function Encode(m: seq<Byte>): (s: seq<Byte>)
  {
    if m == [] then []
    else if |m| == 1 then [Letter(m[0] / 4), Letter(m[0] % 4 * 16), PAD, PAD]
    else if |m| == 2 then
      [Letter(m[0] / 4), Letter(m[0] % 4 * 16 + m[1] / 16), Letter(m[1] % 16 * 4), PAD]
    else
      [Letter(m[0] / 4), Letter(m[0] % 4 * 16 + m[1] / 16),
       Letter(m[1] % 16 * 4 + m[2] / 64), Letter(m[2] % 64)] + Encode(m[3..])
  }

  lemma {:induction false} EncodedLength(m: seq<Byte>)
    ensures |Encode(m)| == (|m| + 2) / 3 * 4
    decreases |m|
  {
    if |m| >= 3 {
      EncodedLength(m[3..]);
    }
  }

  lemma EncodeGroup(m: seq<Byte>)
    ensures m == [] ==> Encode(m) == []
    ensures |m| == 1 ==> Encode(m) == [Letter(m[0] / 4), Letter(m[0] % 4 * 16), PAD, PAD]
    ensures |m| == 2 ==>
      Encode(m) == [Letter(m[0] / 4), Letter(m[0] % 4 * 16 + m[1] / 16), Letter(m[1] % 16 * 4), PAD]
    ensures |m| >= 3 ==>
      Encode(m) == [Letter(m[0] / 4), Letter(m[0] % 4 * 16 + m[1] / 16),
                    Letter(m[1] % 16 * 4 + m[2] / 64), Letter(m[2] % 64)] + Encode(m[3..])
  {
  }

  /** The groups of RFC 4648: 24 bits, most significant first, in four characters of its table; a
      last group of 8 or 16 bits is filled up with zero bits, and with "=". */
  lemma EncodeReads(m: seq<Byte>) returns (a: Sextet, b: Sextet, c: Sextet, d: Sextet)
    ensures
      && (m == [] ==> Encode(m) == [])
      && (|m| == 1 ==>
            && 64 * a + b == 16 * (m[0] as int)
            && Encode(m) == [Letter(a), Letter(b), '=' as Byte, '=' as Byte])
      && (|m| == 2 ==>
            && 64 * 64 * a + 64 * b + c == 4 * (256 * (m[0] as int) + m[1])
            && Encode(m) == [Letter(a), Letter(b), Letter(c), '=' as Byte])
      && (|m| >= 3 ==>
            && 64 * 64 * 64 * a + 64 * 64 * b + 64 * c + d == 256 * 256 * (m[0] as int) + 256 * (m[1] as int) + m[2]
            && Encode(m) == [Letter(a), Letter(b), Letter(c), Letter(d)] + Encode(m[3..]))
  {
    hide Letter;
    a, b, c, d := 0, 0, 0, 0;
    EncodeGroup(m);
    if |m| == 1 {
      a, b := m[0] / 4, m[0] % 4 * 16;
    } else if |m| == 2 {
      a, b, c := m[0] / 4, m[0] % 4 * 16 + m[1] / 16, m[1] % 16 * 4;
    } else if |m| >= 3 {
      a, b, c, d := m[0] / 4, m[0] % 4 * 16 + m[1] / 16, m[1] % 16 * 4 + m[2] / 64, m[2] % 64;
    }
  }

  /** Four letters further on. */
  lemma FourMore(done: seq<Byte>, m: seq<Byte>, a: Byte, b: Byte, c: Byte, d: Byte, rest: seq<Byte>)
    requires Encode(m) == [a, b, c, d] + rest
    ensures rest == [] ==> done + [a] + [b] + [c] + [d] == done + Encode(m)
    ensures done + [a] + [b] + [c] + [d] + rest == done + Encode(m)
  {
  }

  /** output[count++] = c */
  method Put(output: array<Byte>, count0: nat, c: Byte, ghost out0: seq<Byte>)
    returns (count: nat, ghost out: seq<Byte>)
    requires count0 < output.Length && output[..count0] == out0
    modifies output
    ensures count == count0 + 1 <= output.Length && output[..count] == out == out0 + [c]
  {
    output[count0] := c;
    count, out := count0 + 1, out0 + [c];
  }

  /** As much of out as there is room for is in the output. */
  ghost predicate Stored(output: array<Byte>, count: nat, out: seq<Byte>)
    reads output
  {
    && count == |out|
    && (count <= output.Length ==> output[..count] == out)
    && (count > output.Length ==> output[..] == out[..output.Length])
  }

  lemma StoredFacts(output: array<Byte>, count: nat, out: seq<Byte>)
    requires Stored(output, count, out)
    ensures count == |out|
    ensures count <= output.Length ==> output[..count] == out
    ensures count > output.Length ==> output[..] == out[..output.Length]
  {
  }

  lemma NoneStored(output: array<Byte>)
    ensures Stored(output, 0, [])
  {
  }

  /** output[count++] = c. A store past the end is left out; in C it is undefined. */
  method Store(output: array<Byte>, count0: nat, c: Byte, ghost out0: seq<Byte>)
    returns (count: nat, ghost out: seq<Byte>)
    requires Stored(output, count0, out0)
    modifies output
    ensures Stored(output, count, out) && out == out0 + [c]
  {
    if count0 < output.Length {
      output[count0] := c;
    }
    count, out := count0 + 1, out0 + [c];
  }

  /** What ends a group with fewer than three bytes: its last letter, padding, and the mark. */
  method StoreLast(output: array<Byte>, count0: nat, c: Byte, pads: nat, ghost out0: seq<Byte>)
    returns (count: nat, ghost out: seq<Byte>)
    requires Stored(output, count0, out0) && 1 <= pads <= 2
    modifies output
    ensures Stored(output, count, out) && out == (if pads == 2 then out0 + [c] + [PAD] else out0 + [c]) + [PAD] + [0]
  {
    hide Stored;
    count, out := Store(output, count0, c, out0);
    if pads == 2 {
      count, out := Store(output, count, PAD, out);
    }
    count, out := Store(output, count, PAD, out);
    count, out := Store(output, count, 0, out);
  }

  lemma Sized(m: seq<Byte>)
    ensures |Encode(m) + [0]| == Needed(|m|)
  {
    EncodedLength(m);
  }

  /** `xar_to_base64`: the encoding and a mark at the end, which is counted. The buffer is as large
      as arithmetic in single precision makes it; the last stores go past its end exactly if
      what is counted is more than its size. */
  method ToBase64(input: seq<Byte>) returns (output: array<Byte>, ocnt: nat)
    ensures fresh(output) && output.Length == OutSize(|input|) && ocnt == Needed(|input|)
    ensures Stored(output, ocnt, Encode(input) + [0])
    ensures ocnt <= output.Length <==> Suffices(|input|)
    ensures |input| < 0x180_0000 ==> (ocnt <= output.Length <==> |input| < 0x100_0000 || |input| % 12 != 1)
  {
    hide *;
    var len := |input|;
    SizeSuffices(len);
    SizeInBands(len);
    Sized(input);
    output := new Byte[OutSize(len)];
    var i, count := 0, 0;
    ghost var out: seq<Byte> := [];
    NoneStored(output);
    assert input[0..] == input;
    while i < len
      invariant i <= len && Stored(output, count, out)
      invariant out + Encode(input[i..]) == Encode(input)
    {
      ghost var rest, done := input[i..], out;
      EncodeGroup(rest);
      assert rest[0] == input[i];
      var b6 := input[i] / 4;
      ghost var l0 := Letter(b6);
      count, out := Store(output, count, Letter(b6), out);
      b6 := input[i] % 4 * 16;
      i := i + 1;
      if i >= len {
        FourMore(done, rest, l0, Letter(b6), PAD, PAD, []);
        ocnt, out := StoreLast(output, count, Letter(b6), 2, out);
        StoredFacts(output, ocnt, out);
        return;
      }
      b6 := b6 + input[i] / 16;
      ghost var l1 := Letter(b6);
      count, out := Store(output, count, Letter(b6), out);
      b6 := input[i] % 16 * 4;
      i := i + 1;
      if i >= len {
        FourMore(done, rest, l0, l1, Letter(b6), PAD, []);
        ocnt, out := StoreLast(output, count, Letter(b6), 1, out);
        StoredFacts(output, ocnt, out);
        return;
      }
      b6 := b6 + input[i] / 64;
      ghost var l2 := Letter(b6);
      count, out := Store(output, count, Letter(b6), out);
      b6 := input[i] % 64;
      i := i + 1;
      count, out := Store(output, count, Letter(b6), out);
      assert rest[3..] == input[i..];
      FourMore(done, rest, l0, l1, l2, Letter(b6), Encode(input[i..]));
    }
    EncodeGroup(input[i..]);
    assert input[i..] == [] && out + [] == out;
    ocnt, out := Store(output, count, 0, out);
    StoredFacts(output, ocnt, out);
  }

  // ----- decoding

  datatype Result = Fail | Done(bytes: seq<Byte>)

  /** The bytes that up to four letters stand for: one less than there are letters. */
  function GroupBytes(g: seq<Sextet>): (b: seq<Byte>)
    requires 2 <= |g| <= 4
    ensures |b| == |g| - 1
  {
    [Byte0(g[0], g[1])] + (if |g| > 2 then [Byte1(g[1], g[2])] else []) + (if |g| > 3 then [Byte2(g[2], g[3])] else [])
  }

  function Byte0(x: nat, y: nat): Byte
    requires x < 64 && y < 64
  {
    x * 4 + y / 16
  }

  function Byte1(x: nat, y: nat): Byte
    requires y < 64
  {
    x % 16 * 16 + y / 4
  }

  function Byte2(x: nat, y: nat): Byte
    requires y < 64
  {
    x % 4 * 64 + y
  }

  function Prepend(b: seq<Byte>, r: Result): Result {
    if r.Fail? then r else Done(b + r.bytes)
  }

  /** What the rest of the input decodes to, with the letters of an unfinished group in hand.
      `after` is the byte that follows the input in memory; it is looked at if the input
      ends with the first of two padding characters. */
  function Decode(s: seq<Byte>, g: seq<Sextet>, after: Byte): Result
    requires |g| < 4
    decreases |s|
  {
    if s == [] then (if g == [] then Done([]) else Fail)
    else match Meaning(s[0])
      case End => if g == [] then Done([]) else Fail
      case Padding =>
        if |g| < 2 then Fail
        else if |g| == 2 && First(s[1..], after) != PAD then Fail
        else Done(GroupBytes(g))
      case Ignored => Decode(s[1..], g, after)
      case Six(x) =>
        if |g| == 3 then Prepend(GroupBytes(g + [x]), Decode(s[1..], [], after))
        else Decode(s[1..], g + [x], after)
  }

  function First(s: seq<Byte>, after: Byte): Byte { if s == [] then after else s[0] }

  /** The letters of a group, decoded one after the other. */
  lemma FourLetters(a: Sextet, b: Sextet, c: Sextet, d: Sextet, rest: seq<Byte>, after: Byte)
    ensures Decode([Letter(a), Letter(b), Letter(c), Letter(d)] + rest, [], after) ==
            Prepend(GroupBytes([a, b, c, d]), Decode(rest, [], after))
  {
    hide *;
    var s := [Letter(a), Letter(b), Letter(c), Letter(d)] + rest;
    assert [a, b, c] + [d] == [a, b, c, d] && [a, b] + [c] == [a, b, c] && [a] + [b] == [a, b] && [] + [a] == [a];
    OneLetter(a, [Letter(b), Letter(c), Letter(d)] + rest, [], after);
    OneLetter(b, [Letter(c), Letter(d)] + rest, [a], after);
    OneLetter(c, [Letter(d)] + rest, [a, b], after);
    OneLetter(d, rest, [a, b, c], after);
    assert s == [Letter(a)] + ([Letter(b), Letter(c), Letter(d)] + rest);
    assert [Letter(b), Letter(c), Letter(d)] + rest == [Letter(b)] + ([Letter(c), Letter(d)] + rest);
    assert [Letter(c), Letter(d)] + rest == [Letter(c)] + ([Letter(d)] + rest);
  }

  lemma OneLetter(x: Sextet, rest: seq<Byte>, g: seq<Sextet>, after: Byte)
    requires |g| < 4
    ensures Decode([Letter(x)] + rest, g, after) ==
            if |g| == 3 then Prepend(GroupBytes(g + [x]), Decode(rest, [], after)) else Decode(rest, g + [x], after)
  {
    LetterMeans(x);
    assert ([Letter(x)] + rest)[1..] == rest;
  }

  lemma LastByte(x: Byte, after: Byte)
    ensures Decode([Letter(x / 4), Letter(x % 4 * 16), PAD, PAD], [], after) == Done([x])
  {
    hide Letter;
    var a, b: Sextet := x / 4, x % 4 * 16;
    OneLetter(a, [Letter(b), PAD, PAD], [], after);
    OneLetter(b, [PAD, PAD], [a], after);
    assert [Letter(a), Letter(b), PAD, PAD] == [Letter(a)] + [Letter(b), PAD, PAD];
    assert [Letter(b), PAD, PAD] == [Letter(b)] + [PAD, PAD];
    assert [PAD, PAD][1..] == [PAD] && [a] + [b] == [a, b];
  }

  lemma LastTwo(x: Byte, y: Byte, after: Byte)
    ensures Decode([Letter(x / 4), Letter(x % 4 * 16 + y / 16), Letter(y % 16 * 4), PAD], [], after) == Done([x, y])
  {
    hide Letter;
    var a, b, c: Sextet := x / 4, x % 4 * 16 + y / 16, y % 16 * 4;
    OneLetter(a, [Letter(b), Letter(c), PAD], [], after);
    OneLetter(b, [Letter(c), PAD], [a], after);
    OneLetter(c, [PAD], [a, b], after);
    assert [Letter(a), Letter(b), Letter(c), PAD] == [Letter(a)] + [Letter(b), Letter(c), PAD];
    assert [Letter(b), Letter(c), PAD] == [Letter(b)] + [Letter(c), PAD];
    assert [Letter(c), PAD] == [Letter(c)] + [PAD];
    assert [] + [a] == [a] && [a] + [b] == [a, b] && [a, b] + [c] == [a, b, c];
    assert [PAD][1..] == [] && GroupBytes([a, b, c]) == [x, y];
  }

  /** Decoding undoes encoding, whatever follows in memory. */
  lemma {:induction false} RoundTrip(m: seq<Byte>, after: Byte)
    ensures Decode(Encode(m), [], after) == Done(m)
    decreases |m|
  {
    hide Letter, Decode;
    if m == [] {
      NothingEncoded(after);
    } else if |m| == 1 {
      LastByte(m[0], after);
      assert m == [m[0]];
    } else if |m| == 2 {
      LastTwo(m[0], m[1], after);
      assert m == [m[0], m[1]];
    } else {
      RoundTrip(m[3..], after);
      ThreeBytes(m[0], m[1], m[2], Encode(m[3..]), after);
      assert m == [m[0], m[1], m[2]] + m[3..];
    }
  }

  lemma ThreeBytes(x: Byte, y: Byte, z: Byte, rest: seq<Byte>, after: Byte)
    ensures Decode([Letter(x / 4), Letter(x % 4 * 16 + y / 16), Letter(y % 16 * 4 + z / 64), Letter(z % 64)] + rest,
                   [], after) == Prepend([x, y, z], Decode(rest, [], after))
  {
    hide Letter, Decode, Byte0, Byte1, Byte2;
    var a, b, c, d: Sextet := x / 4, x % 4 * 16 + y / 16, y % 16 * 4 + z / 64, z % 64;
    FourLetters(a, b, c, d, rest, after);
    FirstWhole(x, y / 16);
    SecondWhole(x % 4, y, z / 64);
    ThirdWhole(y % 16, z);
    assert GroupBytes([a, b, c, d]) == [x, y, z];
  }

  lemma FirstWhole(x: Byte, h: nat)
    requires h < 16
    ensures Byte0(x / 4, x % 4 * 16 + h) == x
  {
    assert (x % 4 * 16 + h) / 16 == x % 4;
  }

  lemma SecondWhole(l: nat, y: Byte, h: nat)
    requires l < 4 && h < 4
    ensures Byte1(l * 16 + y / 16, y % 16 * 4 + h) == y
  {
    assert (y % 16 * 4 + h) / 4 == y % 16 && (l * 16 + y / 16) % 16 == y / 16;
  }

  lemma ThirdWhole(l: nat, z: Byte)
    requires l < 16
    ensures Byte2(l * 4 + z / 64, z % 64) == z
  {
    assert (l * 4 + z / 64) % 4 == z / 64;
  }

  lemma NothingEncoded(after: Byte)
    ensures Decode([], [], after) == Done([])
  {
  }

  /** Letters and characters without meaning only, then a padding character, with k letters in
      hand making two of a group: the first of two padding characters. */
  predicate FirstPad(s: seq<Byte>, k: nat)
    decreases |s|
  {
    && s != []
    && if |s| == 1 then s[0] == PAD && k == 2
       else match Meaning(s[0])
         case Ignored => FirstPad(s[1..], k)
         case Six(_) => FirstPad(s[1..], if k == 3 then 0 else k + 1)
         case _ => false
  }

  /** What `FirstPad` says, in so many words. */
  lemma {:induction false} FirstPadIs(s: seq<Byte>, k: nat)
    requires k < 4
    ensures FirstPad(s, k) <==>
      && s != [] && s[|s| - 1] == PAD
      && (forall i :: 0 <= i < |s| - 1 ==> Meaning(s[i]).Ignored? || Meaning(s[i]).Six?)
      && (k + LetterCount(s[..|s| - 1])) % 4 == 2
    decreases |s|
  {
    if s != [] {
      var n := |s| - 1;
      if n > 0 {
        var j := if Meaning(s[0]).Six? then (if k == 3 then 0 else k + 1) else k;
        FirstPadIs(s[1..], j);
        assert s[..n][1..] == s[1..][..n - 1];
        assert forall i :: 0 < i < |s| ==> s[i] == s[1..][i - 1];
      }
    }
  }

  function LetterCount(s: seq<Byte>): nat {
    if s == [] then 0 else (if Meaning(s[0]).Six? then 1 else 0) + LetterCount(s[1..])
  }

  lemma Ends(c: Byte)
    ensures Meaning(c) == End <==> c == 0
    ensures Meaning(c) == Padding <==> c == '=' as Byte
  {
  }

  lemma SixMore(k: nat)
    ensures 6 * (k + 4) / 8 == 6 * k / 8 + 3 && (k + 4) % 4 == k % 4
  {
  }

  /** The first byte that ends the letters: 0 or "=". */
  function Stop(s: seq<Byte>): (n: nat)
    ensures n <= |s|
  {
    if s == [] || s[0] == 0 || s[0] == '=' as Byte then 0 else 1 + Stop(s[1..])
  }

  /** What decodes, from how many letters there are before that byte: whole groups, unless a padding
      character ends them, before which one letter is missing, or two and another follows. Then
      there is a byte for every eight bits. */
  lemma {:induction false} DecodesExactly(s: seq<Byte>, g: seq<Sextet>, after: Byte)
    requires |g| < 4
    ensures var n := Stop(s);
      var k := |g| + LetterCount(s[..n]);
      && (Decode(s, g, after).Done? <==>
            if n < |s| && s[n] == '=' as Byte then
              k % 4 == 3 || (k % 4 == 2 && (if n + 1 < |s| then s[n + 1] else after) == '=' as Byte)
            else k % 4 == 0)
      && (Decode(s, g, after).Done? ==> |Decode(s, g, after).bytes| == 6 * k / 8)
    decreases |s|
  {
    hide Decode, GroupBytes, Meaning;
    if s == [] {
      AtEnd(g, after);
    } else {
      var n := Stop(s);
      Unfold(s, g, after);
      Ends(s[0]);
      if n > 0 {
        assert s[..n][1..] == s[1..][..n - 1] && s[..n][0] == s[0];
        if Meaning(s[0]).Six? {
          var more := if |g| == 3 then [] else g + [Meaning(s[0]).x];
          DecodesExactly(s[1..], more, after);
          SixMore(|more| + LetterCount(s[1..][..n - 1]));
        } else {
          DecodesExactly(s[1..], g, after);
        }
      }
    }
  }

  /** The byte behind the input matters exactly if the input ends with the first of two padding
      characters: it decodes if that byte is the second, and not otherwise. */
  lemma {:induction false} BehindMatters(s: seq<Byte>, g: seq<Sextet>, x: Byte)
    requires |g| < 4
    ensures FirstPad(s, |g|) ==> (Decode(s, g, x).Done? <==> x == PAD)
    ensures !FirstPad(s, |g|) ==> Decode(s, g, x) == Decode(s, g, PAD)
    decreases |s|
  {
    if s != [] {
      match Meaning(s[0])
      case Ignored => BehindMatters(s[1..], g, x);
      case Six(v) => BehindMatters(s[1..], if |g| == 3 then [] else g + [v], x);
      case _ =>
    }
  }

  lemma DecodesAlone(s: seq<Byte>)
    ensures (forall x, y :: Decode(s, [], x) == Decode(s, [], y)) <==> !FirstPad(s, 0)
  {
    forall x ensures FirstPad(s, 0) ==> (Decode(s, [], x).Done? <==> x == PAD)
             ensures !FirstPad(s, 0) ==> Decode(s, [], x) == Decode(s, [], PAD) {
      BehindMatters(s, [], x);
    }
    var zero: Byte := 0;
    assert FirstPad(s, 0) ==> Decode(s, [], zero) != Decode(s, [], PAD);
  }

  /** "AA=", which is a byte 0 before another '=' and nothing before anything else. */
  lemma BehindWitness(x: Byte)
    ensures FirstPad([65, 65, 61], 0)
    ensures Decode([65, 65, 61], [], x) == if x == PAD then Done([0]) else Fail
  {
    hide Decode, Letter, GroupBytes;
    var s: seq<Byte> := [65, 65, 61];
    var two: seq<Sextet> := [0, 0];
    assert FirstPad(s, 0) by {
      assert s[1..] == [65, 61] && s[1..][1..] == [61];
    }
    Unfold(s, [], x);
    Unfold(s[1..], [0], x);
    Unfold(s[1..][1..], two, x);
    assert [] + [0] == [0] && [0] + [0] == two;
    BothZero(two);
  }

  lemma BothZero(g: seq<Sextet>)
    requires g == [0, 0]
    ensures GroupBytes(g) == [0]
  {
  }

  /** A character that means nothing can be put in anywhere, except between two padding
      characters; put in there it makes what decoded undecodable. */
  lemma {:induction false} IgnoredAnywhere(a: seq<Byte>, c: Byte, b: seq<Byte>, g: seq<Sextet>, after: Byte)
    requires |g| < 4 && Meaning(c) == Ignored
    ensures Decode(a + [c] + b, g, after) == Decode(a + b, g, after) <==>
            !(FirstPad(a, |g|) && First(b, after) == PAD)
    ensures FirstPad(a, |g|) && First(b, after) == PAD ==>
            Decode(a + b, g, after).Done? && Decode(a + [c] + b, g, after).Fail?
    decreases |a|
  {
    if a == [] {
      assert (a + [c] + b)[1..] == b && a + b == b;
    } else {
      assert (a + [c] + b)[1..] == a[1..] + [c] + b && (a + b)[1..] == a[1..] + b;
      match Meaning(a[0])
      case End =>
      case Padding =>
        assert |a| == 1 ==> First((a + [c] + b)[1..], after) == c && First((a + b)[1..], after) == First(b, after);
        assert |a| > 1 ==> First((a + [c] + b)[1..], after) == a[1] == First((a + b)[1..], after);
      case Ignored =>
        IgnoredAnywhere(a[1..], c, b, g, after);
      case Six(x) =>
        IgnoredAnywhere(a[1..], c, b, if |g| == 3 then [] else g + [x], after);
    }
  }

  /** Wherever the two stand. */
  lemma NotBetweenPadding(a: seq<Byte>, c: Byte, b: seq<Byte>, after: Byte)
    requires FirstPad(a, 0) && First(b, after) == PAD && Meaning(c) == Ignored
    ensures Decode(a + b, [], after).Done? && Decode(a + [c] + b, [], after).Fail?
  {
    IgnoredAnywhere(a, c, b, [], after);
  }

  /** The bytes under construction hold what is known of the group. */
  predicate Held(g: seq<Sextet>, b0: Byte, b1: Byte, b2: Byte) {
    && |g| < 4
    && (|g| == 1 ==> b0 == Byte0(g[0], 0))
    && (|g| >= 2 ==> b0 == Byte0(g[0], g[1]))
    && (|g| == 2 ==> b1 == Byte1(g[1], 0))
    && (|g| == 3 ==> b1 == Byte1(g[1], g[2]) && b2 == Byte2(g[2], 0))
  }

  /** The conversion to a byte cuts off the bits shifted out. */
  lemma CutOff(v: nat)
    requires v < 64
    ensures v * 16 % 256 == v % 16 * 16 && v * 64 % 256 == v % 4 * 64 && v * 4 < 256 && v / 16 < 4 && v / 4 < 16
  {
  }

  /** One more letter goes into them. */
  method Take(k: nat, x: Sextet, c0: Byte, c1: Byte, c2: Byte, ghost g: seq<Sextet>)
    returns (b0: Byte, b1: Byte, b2: Byte)
    requires k == |g| && Held(g, c0, c1, c2)
    ensures k < 3 ==> Held(g + [x], b0, b1, b2)
    ensures k == 3 ==> [b0, b1, b2] == GroupBytes(g + [x])
  {
    b0, b1, b2 := c0, c1, c2;
    var v: nat := x;
    CutOff(v);
    match k
    case 0 =>
      b0 := v * 4;
    case 1 =>
      b0 := b0 + v / 16;
      b1 := v * 16 % 256;
    case 2 =>
      b1 := b1 + v / 4;
      b2 := v * 64 % 256;
    case _ =>
      b2 := b2 + x;
  }

  lemma HeldBytes(g: seq<Sextet>, b0: Byte, b1: Byte, b2: Byte)
    requires Held(g, b0, b1, b2) && |g| >= 2
    ensures GroupBytes(g) == [b0, b1][..|g| - 1]
  {
  }

  lemma Unfold(s: seq<Byte>, g: seq<Sextet>, after: Byte)
    requires s != [] && |g| < 4
    ensures Meaning(s[0]) == End ==> Decode(s, g, after) == if g == [] then Done([]) else Fail
    ensures Meaning(s[0]) == Padding && (|g| < 2 || (|g| == 2 && First(s[1..], after) != PAD)) ==>
      Decode(s, g, after) == Fail
    ensures Meaning(s[0]) == Padding && (|g| == 3 || (|g| == 2 && First(s[1..], after) == PAD)) ==>
      Decode(s, g, after) == Done(GroupBytes(g))
    ensures Meaning(s[0]) == Ignored ==> Decode(s, g, after) == Decode(s[1..], g, after)
    ensures Meaning(s[0]).Six? ==>
      Decode(s, g, after) == if |g| < 3 then Decode(s[1..], g + [Meaning(s[0]).x], after)
                             else Prepend(GroupBytes(g + [Meaning(s[0]).x]), Decode(s[1..], [], after))
  {
  }

  lemma Prepends(out: seq<Byte>, b: seq<Byte>, r: Result)
    ensures Prepend(out, Prepend(b, r)) == Prepend(out + b, r) && Prepend([], r) == r
    ensures Prepend(out, Fail) == Fail && Prepend(out, Done(b)) == Done(out + b)
  {
    assert r.Done? ==> out + (b + r.bytes) == out + b + r.bytes && [] + r.bytes == r.bytes;
  }

  lemma AtEnd(g: seq<Sextet>, after: Byte)
    requires |g| < 4
    ensures Decode([], g, after) == if g == [] then Done([]) else Fail
  {
  }

  /** Between two characters, when no padding has been seen. */
  ghost predicate Decoding(input: seq<Byte>, after: Byte, i: nat, ignr: nat, olen: nat, out: seq<Byte>,
                           g: seq<Sextet>, b0: Byte, b1: Byte, b2: Byte) {
    && ignr <= i <= |input| && |g| == (i - ignr) % 4 && olen == (i - ignr) / 4 * 3 && Held(g, b0, b1, b2)
    && Decode(input, [], after) == Prepend(out, Decode(input[i..], g, after))
  }

  lemma Starts(input: seq<Byte>, after: Byte)
    ensures Decoding(input, after, 0, 0, 0, [], [], 0, 0, 0)
  {
    assert input[0..] == input;
    Prepends([], [], Decode(input, [], after));
  }

  /** What the next character brings, if it is not a letter. */
  lemma Next(input: seq<Byte>, after: Byte, i: nat, ignr: nat, olen: nat, out: seq<Byte>, g: seq<Sextet>,
             b0: Byte, b1: Byte, b2: Byte)
    requires Decoding(input, after, i, ignr, olen, out, g, b0, b1, b2) && i < |input|
    ensures ignr <= i && |g| < 4 && |g| == (i - ignr) % 4 && Held(g, b0, b1, b2)
    ensures olen == (i - ignr) / 4 * 3 <= |input| / 4 * 3
    ensures Meaning(input[i]) == End ==> Decode(input, [], after) == if g == [] then Done(out) else Fail
    ensures Meaning(input[i]) == Padding ==>
      Decode(input, [], after) ==
        if |g| < 2 || (|g| == 2 && (if i + 1 < |input| then input[i + 1] else after) != PAD) then Fail
        else Done(out + [b0, b1][..|g| - 1])
    ensures Meaning(input[i]) == Padding && |g| >= 2 ==> olen + |g| - 1 <= |input| / 4 * 3 + 2
    ensures Meaning(input[i]) == Ignored ==> Decoding(input, after, i + 1, ignr + 1, olen, out, g, b0, b1, b2)
  {
    hide Meaning, Decode, GroupBytes, Byte0, Byte1, Byte2;
    var s := input[i..];
    Unfold(s, g, after);
    assert s[0] == input[i] && s[1..] == input[i + 1..];
    Prepends(out, [], Fail);
    if |g| >= 2 {
      HeldBytes(g, b0, b1, b2);
      Prepends(out, GroupBytes(g), Fail);
    }
  }

  /** A letter is held with those before it, and four make up a group. */
  lemma NextLetter(input: seq<Byte>, after: Byte, i: nat, ignr: nat, olen: nat, out: seq<Byte>, g: seq<Sextet>,
                   b0: Byte, b1: Byte, b2: Byte)
    requires Decoding(input, after, i, ignr, olen, out, g, b0, b1, b2) && i < |input|
    ensures Meaning(input[i]).Six? ==>
      var x := Meaning(input[i]).x;
      && (|g| < 3 ==> forall c0, c1, c2 :: Held(g + [x], c0, c1, c2) ==>
            Decoding(input, after, i + 1, ignr, olen, out, g + [x], c0, c1, c2))
      && (|g| == 3 ==> olen + 3 <= |input| / 4 * 3 && forall c0, c1, c2 :: Held([], c0, c1, c2) ==>
            Decoding(input, after, i + 1, ignr, olen + 3, out + GroupBytes(g + [x]), [], c0, c1, c2))
  {
    hide Meaning, Decode, GroupBytes, Held;
    var s := input[i..];
    Unfold(s, g, after);
    assert s[0] == input[i] && s[1..] == input[i + 1..];
    if Meaning(s[0]).Six? && |g| == 3 {
      Prepends(out, GroupBytes(g + [Meaning(s[0]).x]), Decode(s[1..], [], after));
    }
  }

  lemma HeldNone(b0: Byte, b1: Byte, b2: Byte)
    ensures Held([], b0, b1, b2)
  {
  }

  lemma ThreeMore(out: seq<Byte>, b0: Byte, b1: Byte, b2: Byte)
    ensures out + [b0, b1, b2] == out + [b0] + [b1] + [b2]
    ensures out + [b0, b1][..2] == out + [b0] + [b1] && out + [b0, b1][..1] == out + [b0]
  {
  }

  /** The end of the input was reached. */
  lemma Last(input: seq<Byte>, after: Byte, i: nat, ignr: nat, olen: nat, out: seq<Byte>, g: seq<Sextet>,
             b0: Byte, b1: Byte, b2: Byte)
    requires Decoding(input, after, i, ignr, olen, out, g, b0, b1, b2) && i == |input|
    ensures Decode(input, [], after) == if (i - ignr) % 4 != 0 then Fail else Done(out)
    ensures olen <= |input| / 4 * 3
  {
    hide Decode;
    assert input[i..] == [];
    AtEnd(g, after);
    Prepends(out, [], Fail);
  }

  /** `raw_base64_decode`: what the input decodes to, in an output of three bytes for each
      four characters of input and three more. */
  method RawBase64Decode(input: seq<Byte>, after: Byte, output: array<Byte>) returns (err: nat, olen: nat)
    requires output.Length >= 3 * (|input| / 4 + 1)
    modifies output
    ensures olen < 3 * (|input| / 4 + 1) <= output.Length
    ensures err == if Decode(input, [], after).Fail? then 1 else 0
    ensures err == 0 ==> output[..olen] == Decode(input, [], after).bytes
  {
    hide *;
    var len, i, ignr, pad: nat := |input|, 0, 0, 0;
    var b0, b1, b2: Byte := 0, 0, 0;
    olen := 0;
    ghost var g: seq<Sextet>, out: seq<Byte> := [], [];
    Starts(input, after);
    while i < len && pad == 0
      invariant i <= len && ignr <= i && olen <= len / 4 * 3 && output[..olen] == out
      invariant pad == 0 ==> Decoding(input, after, i, ignr, olen, out, g, b0, b1, b2)
      invariant pad != 0 ==> pad <= 2 && olen + 3 - pad <= len / 4 * 3 + 2
      invariant pad != 0 ==> Decode(input, [], after) == Done(out + [b0, b1][..3 - pad])
      decreases len - i
    {
      Next(input, after, i, ignr, olen, out, g, b0, b1, b2);
      NextLetter(input, after, i, ignr, olen, out, g, b0, b1, b2);
      var x := Meaning(input[i]);
      i := i + 1;
      var k := (i - ignr - 1) % 4;
      match x {
        case End =>
          return (if k != 0 then 1 else 0), olen;
        case Padding =>
          if k < 2 {
            return 1, olen;
          } else if k == 2 {
            if (if i < len then input[i] else after) != PAD {
              return 1, olen;
            }
            b2 := 0;
            pad := 2;
          } else {
            pad := 1;
          }
        case Ignored =>
          ignr := ignr + 1;
        case Six(v) =>
          b0, b1, b2 := Take(k, v, b0, b1, b2, g);
          if k == 3 {
            ThreeMore(out, b0, b1, b2);
            HeldNone(b0, b1, b2);
            olen, out := Put(output, olen, b0, out);
            olen, out := Put(output, olen, b1, out);
            olen, out := Put(output, olen, b2, out);
            g := [];
          } else {
            g := g + [v];
          }
      }
    }
    if pad == 0 {
      Last(input, after, i, ignr, olen, out, g, b0, b1, b2);
      if (i - ignr) % 4 != 0 {
        return 1, olen;
      }
    } else {
      ThreeMore(out, b0, b1, b2);
      olen, out := Put(output, olen, b0, out);
      if pad == 1 {
        olen, out := Put(output, olen, b1, out);
      }
    }
    err := 0;
  }

  /** `xar_from_base64` */
  method FromBase64(input: seq<Byte>, after: Byte) returns (output: array?<Byte>, olen: nat)
    ensures output == null <==> Decode(input, [], after).Fail?
    ensures output != null ==> olen <= output.Length && output[..olen] == Decode(input, [], after).bytes
  {
    output := new Byte[3 * (|input| / 4 + 1)];
    var err;
    err, olen := RawBase64Decode(input, after, output);
    if err != 0 {
      output := null;
    }
  }
}
