/** The heap of a xar archive while it is written: room for the digest and the signatures,
    then the data of the files, with duplicates rewound. */
module XarHeap {
  import opened Sequences
  import opened Wrappers

  /** What is recorded of a file's data: where its archived bytes are, and how many bytes
      it had before. */
  datatype Data = Data(offset: nat, length: nat, size: nat)

  datatype Kind = Plain | Original | HardLink(to: nat)

  datatype File = File(data: Option<Data>, kind: Kind)

  datatype Signature = Signature(offset: nat, len: nat)

  /** One round of the copying loop: how many bytes were read, and what the filters made of
      them. Filters may hold bytes back and put them out when nothing is read any more. */
  datatype Round = Round(read: nat, out: seq<Byte>)

  function Total(rounds: seq<Round>): nat {
    if rounds == [] then 0 else Total(rounds[..|rounds| - 1]) + rounds[|rounds| - 1].read
  }

  function Output(rounds: seq<Round>): seq<Byte> {
    if rounds == [] then [] else Output(rounds[..|rounds| - 1]) + rounds[|rounds| - 1].out
  }

  /** Nothing read and nothing put out: the loop ends. */
  predicate Idle(r: Round) { r.read == 0 && r.out == [] }

  predicate EndsReading(rounds: seq<Round>) {
    rounds != [] && forall i :: 0 <= i < |rounds| ==> (Idle(rounds[i]) <==> i == |rounds| - 1)
  }

  /** A filter that puts out its last bytes after the end of the input takes one round more. */
  lemma FlushedAtEnd(n: nat, a: seq<Byte>, b: seq<Byte>)
    requires n > 0 && b != []
    ensures EndsReading([Round(n, a), Round(0, b), Round(0, [])])
    ensures Total([Round(n, a), Round(0, b), Round(0, [])]) == n
    ensures Output([Round(n, a), Round(0, b), Round(0, [])]) == a + b
  {
    var x, y, z := Round(n, a), Round(0, b), Round(0, []);
    OneMore([], x);
    OneMore([x], y);
    OneMore([x, y], z);
    assert [] + [x] == [x] && [x] + [y] == [x, y] && [x, y] + [z] == [x, y, z];
    assert [] + a == a && a + b + [] == a + b;
  }

  lemma Ends(rounds: seq<Round>, i: nat)
    requires EndsReading(rounds) && i < |rounds|
    ensures rounds[i].read == 0 && rounds[i].out == [] <==> i == |rounds| - 1
  {
    assert Idle(rounds[i]) <==> i == |rounds| - 1;
  }

  lemma NoRounds(rounds: seq<Round>)
    ensures Total([]) == 0 && Output([]) == [] && (EndsReading(rounds) ==> rounds != [])
  {
  }

  lemma OneMore(rounds: seq<Round>, r: Round)
    ensures Total(rounds + [r]) == Total(rounds) + r.read && Output(rounds + [r]) == Output(rounds) + r.out
  {
    assert (rounds + [r])[..|rounds|] == rounds;
  }

  function Lengths(sigs: seq<Signature>): nat {
    if sigs == [] then 0 else Lengths(sigs[..|sigs| - 1]) + sigs[|sigs| - 1].len
  }

  /** The signatures lie one behind the other, from start on. */
  ghost predicate Laid(sigs: seq<Signature>, start: nat) {
    forall i :: 0 <= i < |sigs| ==> sigs[i].offset == start + Lengths(sigs[..i])
  }

  /** Writing at a position in a file. */
  function Overwrite(file: seq<Byte>, pos: nat, bytes: seq<Byte>): (f: seq<Byte>)
    requires pos <= |file|
    ensures |f| == (if pos + |bytes| < |file| then |file| else pos + |bytes|)
    ensures f[..pos] == file[..pos] && f[pos..pos + |bytes|] == bytes
  {
    file[..pos] + bytes + (if pos + |bytes| < |file| then file[pos + |bytes|..] else [])
  }

  /** A file's archived bytes are where its data says. */
  ghost predicate StoredAt(live: seq<Byte>, reserve: nat, d: Data, bytes: seq<Byte>) {
    && reserve <= d.offset && d.offset + d.length <= reserve + |live| && d.length == |bytes|
    && live[d.offset - reserve..d.offset - reserve + d.length] == bytes
  }

  /** The same bytes, or none in common. */
  predicate Apart(d: Data, e: Data) {
    (d.offset == e.offset && d.length == e.length) || d.offset + d.length <= e.offset || e.offset + e.length <= d.offset
  }

  ghost predicate FileOk(f: File, bytes: seq<Byte>, files: seq<File>, archived: seq<seq<Byte>>,
                         live: seq<Byte>, reserve: nat) {
    && (f.data.Some? ==> StoredAt(live, reserve, f.data.value, bytes) && !f.kind.HardLink?)
    && (f.kind.HardLink? ==>
          f.kind.to < |files| == |archived| && files[f.kind.to].data.Some? && archived[f.kind.to] == bytes)
    && (f.data.None? && !f.kind.HardLink? ==> bytes == [])
  }

  ghost predicate FilesOk(files: seq<File>, archived: seq<seq<Byte>>, live: seq<Byte>, reserve: nat) {
    && |files| == |archived|
    && (forall k :: 0 <= k < |files| ==> FileOk(files[k], archived[k], files, archived, live, reserve))
    && (forall k, m :: 0 <= k < |files| && 0 <= m < |files| && files[k].data.Some? && files[m].data.Some? ==>
          Apart(files[k].data.value, files[m].data.value))
  }

  ghost predicate SumsOk<C>(digest: seq<Byte> -> C, sums: map<C, nat>, files: seq<File>, archived: seq<seq<Byte>>) {
    |files| == |archived| &&
    forall c :: c in sums ==> sums[c] < |files| && files[sums[c]].data.Some? && digest(archived[sums[c]]) == c
  }

  /** Equal checksums mean equal bytes. */
  ghost predicate CollisionFree<C(!new)>(digest: seq<Byte> -> C) {
    forall a, b :: digest(a) == digest(b) ==> a == b
  }

  /** A file whose bytes are at the end of the heap. */
  lemma Added(files: seq<File>, archived: seq<seq<Byte>>, live: seq<Byte>, reserve: nat, d: Data, bytes: seq<Byte>)
    requires FilesOk(files, archived, live, reserve) && d.offset == reserve + |live| && d.length == |bytes|
    ensures FilesOk(files + [File(Some(d), Plain)], archived + [bytes], live + bytes, reserve)
  {
    var all, now := files + [File(Some(d), Plain)], archived + [bytes];
    forall k | 0 <= k < |all| ensures FileOk(all[k], now[k], all, now, live + bytes, reserve) {
      if k < |files| {
        assert FileOk(files[k], archived[k], files, archived, live, reserve);
        if files[k].data.Some? {
          StoredStays(live, bytes, reserve, files[k].data.value, archived[k]);
        }
      }
    }
    forall k | 0 <= k < |files| && files[k].data.Some?
      ensures Apart(files[k].data.value, d) && Apart(d, files[k].data.value)
    {
      assert FileOk(files[k], archived[k], files, archived, live, reserve);
    }
  }

  /** A file without data, whose bytes are none or those of the file it is a link to. */
  lemma Linked(files: seq<File>, archived: seq<seq<Byte>>, live: seq<Byte>, reserve: nat, kind: Kind, bytes: seq<Byte>)
    requires FilesOk(files, archived, live, reserve)
    requires if kind.HardLink? then kind.to < |files| && files[kind.to].data.Some? && archived[kind.to] == bytes
             else bytes == []
    ensures FilesOk(files + [File(None, kind)], archived + [bytes], live, reserve)
  {
    var all, now := files + [File(None, kind)], archived + [bytes];
    forall k | 0 <= k < |all| ensures FileOk(all[k], now[k], all, now, live, reserve) {
      assert k < |files| ==> FileOk(files[k], archived[k], files, archived, live, reserve);
    }
  }

  lemma MarkedOriginal(files: seq<File>, archived: seq<seq<Byte>>, live: seq<Byte>, reserve: nat, t: nat)
    requires FilesOk(files, archived, live, reserve) && t < |files| && files[t].data.Some?
    ensures FilesOk(files[t := files[t].(kind := Original)], archived, live, reserve)
  {
    var all := files[t := files[t].(kind := Original)];
    forall k | 0 <= k < |all| ensures FileOk(all[k], archived[k], all, archived, live, reserve) {
      assert FileOk(files[k], archived[k], files, archived, live, reserve);
    }
  }

  /** A file that shares another's bytes. */
  lemma Shared(files: seq<File>, archived: seq<seq<Byte>>, live: seq<Byte>, reserve: nat, t: nat, d: Data,
               bytes: seq<Byte>)
    requires FilesOk(files, archived, live, reserve) && t < |files| && files[t].data.Some? && archived[t] == bytes
    requires d.offset == files[t].data.value.offset && d.length == |bytes|
    ensures FilesOk(files + [File(Some(d), Plain)], archived + [bytes], live, reserve)
  {
    var all, now := files + [File(Some(d), Plain)], archived + [bytes];
    assert FileOk(files[t], archived[t], files, archived, live, reserve);
    forall k | 0 <= k < |all| ensures FileOk(all[k], now[k], all, now, live, reserve) {
      assert k < |files| ==> FileOk(files[k], archived[k], files, archived, live, reserve);
    }
    forall k | 0 <= k < |files| && files[k].data.Some?
      ensures Apart(files[k].data.value, d) && Apart(d, files[k].data.value)
    {
      assert Apart(files[k].data.value, files[t].data.value);
    }
  }

  lemma NoFiles(archived: seq<seq<Byte>>, live: seq<Byte>, reserve: nat)
    ensures archived == [] ==> FilesOk([], archived, live, reserve)
  {
  }

  lemma StoredStays(live: seq<Byte>, more: seq<Byte>, reserve: nat, d: Data, bytes: seq<Byte>)
    requires StoredAt(live, reserve, d, bytes)
    ensures StoredAt(live + more, reserve, d, bytes)
  {
    var a := d.offset - reserve;
    assert (live + more)[a..a + d.length] == live[a..a + d.length];
  }

  /** The value of the option for the checksum of the table of contents. */
  datatype TocChecksum = NoDigest | UnknownDigest | Digest(size: nat)

  lemma LengthsSame(sigs: seq<Signature>, out: seq<Signature>)
    requires |sigs| == |out| && forall i :: 0 <= i < |sigs| ==> sigs[i].len == out[i].len
    ensures Lengths(sigs) == Lengths(out)
    decreases |sigs|
  {
    if sigs != [] {
      LengthsSame(sigs[..|sigs| - 1], out[..|sigs| - 1]);
    }
  }

  class Archive<C(==, !new)> {
    /** The checksum of a file's archived bytes. */
    const digest: seq<Byte> -> C
    var heapOffset: nat
    var heapLen: nat
    var heap: seq<Byte>
    var pos: nat
    /** Whether the table of contents has a checksum, and how long that is. */
    var docksum: bool
    var digestLen: nat
    var signatures: seq<Signature>
    var files: seq<File>
    var sums: map<C, nat>
    ghost var archived: seq<seq<Byte>>

    ghost function Reserve(): nat
      reads this`digestLen, this`signatures
    {
      digestLen + Lengths(signatures)
    }

    ghost predicate Valid()
      reads this
    {
      && heapOffset == heapLen == Reserve() + pos && pos <= |heap|
      && Laid(signatures, digestLen) && (!docksum ==> digestLen == 0)
      && (files == [] ==> pos == 0) && FilesOk(files, archived, heap[..pos], Reserve())
      && SumsOk(digest, sums, files, archived)
    }

    /** `xar_open` for writing: SHA-1 unless told otherwise. */
    constructor (digest: seq<Byte> -> C)
      ensures Valid() && this.digest == digest && files == [] && signatures == [] && docksum && digestLen == 20
      ensures heap == [] && pos == 0 && archived == [] && sums == map[]
    {
      this.digest := digest;
      heapOffset, heapLen, heap, pos, docksum, digestLen := 20, 20, [], 0, true, 20;
      signatures, files, sums, archived := [], [], map[], [];
    }

    /** `xar_signature_new`: room is set aside, as long as there are no files. */
    method AddSignature(len: nat) returns (ok: bool)
      requires Valid()
      modifies this`heapOffset, this`heapLen, this`signatures
      ensures Valid() && ok == (files == [])
      ensures signatures == if ok then old(signatures) + [Signature(old(heapOffset), len)] else old(signatures)
    {
      hide FilesOk, SumsOk, Laid, Lengths;
      if files != [] {
        return false;
      }
      ValidFacts();
      NoFiles(archived, heap[..pos], Reserve() + len);
      Laying(signatures, digestLen, heapOffset, len);
      signatures := signatures + [Signature(heapOffset, len)];
      heapOffset := heapOffset + len;
      heapLen := heapLen + len;
      ok := true;
    }

    lemma Laying(sigs: seq<Signature>, start: nat, offset: nat, len: nat)
      requires Laid(sigs, start) && offset == start + Lengths(sigs)
      ensures Laid(sigs + [Signature(offset, len)], start)
      ensures Lengths(sigs + [Signature(offset, len)]) == Lengths(sigs) + len
    {
      var all := sigs + [Signature(offset, len)];
      assert all[..|sigs|] == sigs;
      forall i | 0 <= i < |all| ensures all[i].offset == start + Lengths(all[..i]) {
        assert i < |sigs| ==> all[..i] == sigs[..i];
      }
    }

    /** `xar_opt_set` for the checksum of the table of contents: the heap is laid out anew. */
    method SetTocChecksum(md: TocChecksum) returns (ok: bool)
      requires Valid()
      modifies this`heapOffset, this`heapLen, this`docksum, this`digestLen, this`signatures
      ensures Valid() && ok == (files == [] && !md.UnknownDigest?)
      ensures ok ==> docksum == md.Digest? && digestLen == if md.Digest? then md.size else 0
      ensures |signatures| == |old(signatures)|
      ensures forall i :: 0 <= i < |signatures| ==> signatures[i].len == old(signatures)[i].len
      ensures !ok ==> docksum == old(docksum) && digestLen == old(digestLen) && signatures == old(signatures)
    {
      hide FilesOk, SumsOk, Laid, Lengths;
      if files != [] || md.UnknownDigest? {
        return false;
      }
      ValidFacts();
      docksum := md.Digest?;
      digestLen := if md.Digest? then md.size else 0;
      LayOut();
      NoFiles(archived, heap[..pos], Reserve());
      ok := true;
    }

    method LayOut()
      modifies this`heapOffset, this`heapLen, this`signatures
      ensures heapOffset == heapLen == Reserve() && Laid(signatures, digestLen)
      ensures |signatures| == |old(signatures)|
      ensures forall i :: 0 <= i < |signatures| ==> signatures[i].len == old(signatures)[i].len
    {
      hide Laid, Lengths;
      heapOffset, heapLen := digestLen, digestLen;
      NoneLaid(digestLen);
      for i := 0 to |signatures|
        invariant |signatures| == |old(signatures)|
        invariant forall k :: 0 <= k < |signatures| ==> signatures[k].len == old(signatures)[k].len
        invariant heapOffset == heapLen == digestLen + Lengths(signatures[..i])
        invariant Laid(signatures[..i], digestLen)
      {
        ghost var done := signatures[..i];
        Laying(done, digestLen, heapOffset, signatures[i].len);
        signatures := signatures[i := Signature(heapOffset, signatures[i].len)];
        assert signatures[..i + 1] == done + [Signature(heapOffset, signatures[i].len)];
        heapOffset := heapOffset + signatures[i].len;
        heapLen := heapLen + signatures[i].len;
      }
      assert signatures[..|signatures|] == signatures;
    }

    lemma NoneLaid(start: nat)
      ensures Laid([], start) && Lengths([]) == 0
    {
    }

    /** The copying loop: filtered bytes go to the heap as they come. */
    method CopyIn(rounds: seq<Round>) returns (readSize: nat, writeSize: nat)
      requires EndsReading(rounds) && pos <= |heap|
      modifies this`heapOffset, this`heap, this`pos
      ensures readSize == Total(rounds) && writeSize == |Output(rounds)|
      ensures pos == old(pos) + writeSize <= |heap| && heapOffset == old(heapOffset) + writeSize
      ensures heap[..pos] == old(heap[..pos]) + Output(rounds)
      ensures |heap| == if pos > old(|heap|) then pos else old(|heap|)
    {
      hide *;
      readSize, writeSize := 0, 0;
      NoRounds(rounds);
      ghost var start, done := heap[..pos], rounds[..0];
      assert start + [] == start;
      var i, r := 0, 1;
      while r != 0
        invariant 0 <= i <= |rounds| && done == rounds[..i] && (r == 0 <==> i == |rounds|)
        invariant readSize == Total(done) && writeSize == |Output(done)|
        invariant pos == old(pos) + writeSize <= |heap| && heapOffset == old(heapOffset) + writeSize
        invariant heap[..pos] == start + Output(done)
        invariant |heap| == if pos > old(|heap|) then pos else old(|heap|)
        decreases |rounds| - i
      {
        Ends(rounds, i);
        OneMore(done, rounds[i]);
        done := done + [rounds[i]];
        r := rounds[i].read;
        readSize := readSize + r;
        var out := rounds[i].out;
        if |out| != 0 {
          r := |out|;
        }
        WriteOut(out);
        writeSize := writeSize + |out|;
        i := i + 1;
      }
      assert rounds[..|rounds|] == rounds;
    }

    method WriteOut(out: seq<Byte>)
      requires pos <= |heap|
      modifies this`heapOffset, this`heap, this`pos
      ensures pos == old(pos) + |out| <= |heap| && heapOffset == old(heapOffset) + |out|
      ensures heap[..pos] == old(heap[..pos]) + out
      ensures |heap| == if pos > old(|heap|) then pos else old(|heap|)
    {
      ghost var live := heap[..pos];
      heap := Overwrite(heap, pos, out);
      Written(heap, pos, live, out);
      pos := pos + |out|;
      heapOffset := heapOffset + |out|;
    }

    lemma Written(file: seq<Byte>, at: nat, live: seq<Byte>, bytes: seq<Byte>)
      requires at + |bytes| <= |file| && file[..at] == live && file[at..at + |bytes|] == bytes
      ensures file[..at + |bytes|] == live + bytes
    {
    }

    /** What becomes of the files when one is added. */
    ghost predicate Grew(was: seq<File>, had: seq<seq<Byte>>, bytes: seq<Byte>)
      reads this`files, this`archived
    {
      && |files| == |was| + 1 && archived == had + [bytes]
      && forall k :: 0 <= k < |was| ==> files[k].data == was[k].data
    }

    lemma ValidFacts()
      requires Valid()
      ensures heapOffset == heapLen == Reserve() + pos && pos <= |heap| && Laid(signatures, digestLen)
      ensures (files == [] ==> pos == 0) && |files| == |archived| && (!docksum ==> digestLen == 0)
      ensures FilesOk(files, archived, heap[..pos], Reserve()) && SumsOk(digest, sums, files, archived)
    {
    }

    lemma IsValid()
      requires heapOffset == heapLen == Reserve() + pos && pos <= |heap| && Laid(signatures, digestLen) && files != []
      requires !docksum ==> digestLen == 0
      requires FilesOk(files, archived, heap[..pos], Reserve()) && SumsOk(digest, sums, files, archived)
      ensures Valid()
    {
    }

    lemma SumsStay(fs: seq<File>, had: seq<seq<Byte>>, bytes: seq<Byte>)
      requires SumsOk(digest, sums, fs, had) && |fs| == |had| && Grew(fs, had, bytes)
      ensures SumsOk(digest, sums, files, archived)
    {
      assert forall k :: 0 <= k < |had| ==> archived[k] == had[k];
    }

    /** The file is recorded, with data of its own or another's. */
    method Record(f: File, ghost bytes: seq<Byte>)
      requires heapOffset == heapLen == Reserve() + pos && pos <= |heap| && Laid(signatures, digestLen)
      requires !docksum ==> digestLen == 0
      requires FilesOk(files + [f], archived + [bytes], heap[..pos], Reserve()) && |files| == |archived|
      requires SumsOk(digest, sums, files, archived)
      modifies this`files, this`archived
      ensures Valid() && Grew(old(files), old(archived), bytes) && files == old(files) + [f]
    {
      hide FilesOk, SumsOk, Laid, Lengths;
      ghost var was: seq<File>, had := files, archived;
      files, archived := files + [f], archived + [bytes];
      SumsStay(was, had, bytes);
    }

    /** The bytes just written are given up. */
    method Rewind(orig: nat, writeSize: nat, ghost live: seq<Byte>)
      requires writeSize <= pos <= |heap| && heap[..pos - writeSize] == live
      modifies this`heapOffset, this`pos
      ensures heapOffset == orig && pos == old(pos) - writeSize <= |heap| && heap[..pos] == live
    {
      heapOffset := orig;
      pos := pos - writeSize;
    }

    lemma Front(live: seq<Byte>, bytes: seq<Byte>, n: nat)
      requires n == |bytes| <= pos <= |heap| && heap[..pos] == live + bytes
      ensures heap[..pos - n] == live && heap[pos - n..pos] == bytes
    {
      assert heap[..pos][..pos - n] == heap[..pos - n] && heap[..pos][pos - n..] == heap[pos - n..pos];
    }

    lemma SameSum(sum: C, bytes: seq<Byte>)
      requires SumsOk(digest, sums, files, archived) && CollisionFree(digest) && sum == digest(bytes) && sum in sums
      ensures sums[sum] < |files| == |archived| && files[sums[sum]].data.Some? && archived[sums[sum]] == bytes
    {
    }

    lemma OriginalSums(t: nat)
      requires SumsOk(digest, sums, files, archived) && t < |files|
      ensures SumsOk(digest, sums, files[t := files[t].(kind := Original)], archived)
    {
    }

    /** A duplicate of file t, to become a link to it or to share its bytes. */
    method Duplicate(t: nat, link: bool, orig: nat, readSize: nat, writeSize: nat, ghost live: seq<Byte>,
                     ghost bytes: seq<Byte>)
      requires FilesOk(files, archived, live, Reserve()) && SumsOk(digest, sums, files, archived)
      requires !docksum ==> digestLen == 0
      requires t < |files| == |archived| && files[t].data.Some? && archived[t] == bytes
      requires Laid(signatures, digestLen) && orig == Reserve() + |live| && heapLen == orig + writeSize
      requires |bytes| == writeSize <= pos <= |heap| && heap[..pos] == live + bytes
      modifies this`heapOffset, this`heapLen, this`pos, this`files, this`archived
      ensures Valid() && Grew(old(files), old(archived), bytes) && heapOffset == orig
      ensures |files| > 0 && files[|files| - 1] ==
        if link then File(None, HardLink(t))
        else File(Some(Data(old(files)[t].data.value.offset, writeSize, readSize)), Plain)
    {
      hide FilesOk, SumsOk, Laid, Lengths, Reserve;
      Front(live, bytes, writeSize);
      Rewind(orig, writeSize, live);
      heapLen := heapLen - writeSize;
      if link {
        ghost var was: seq<File> := files;
        MarkedOriginal(files, archived, live, Reserve(), t);
        OriginalSums(t);
        files := files[t := files[t].(kind := Original)];
        Linked(files, archived, live, Reserve(), HardLink(t), bytes);
        Record(File(None, HardLink(t)), bytes);
      } else {
        var d := Data(files[t].data.value.offset, writeSize, readSize);
        Shared(files, archived, live, Reserve(), t, d, bytes);
        Record(File(Some(d), Plain), bytes);
      }
    }

    /** A file that keeps its bytes. */
    method KeepOwn(sum: C, first: bool, orig: nat, readSize: nat, writeSize: nat, ghost live: seq<Byte>,
                   ghost bytes: seq<Byte>)
      requires FilesOk(files, archived, live, Reserve()) && SumsOk(digest, sums, files, archived)
      requires !docksum ==> digestLen == 0
      requires |files| == |archived| && sum == digest(bytes)
      requires Laid(signatures, digestLen) && orig == Reserve() + |live|
      requires heapOffset == heapLen == Reserve() + pos
      requires |bytes| == writeSize <= pos <= |heap| && heap[..pos] == live + bytes
      modifies this`files, this`archived, this`sums
      ensures Valid() && Grew(old(files), old(archived), bytes)
      ensures |files| > 0 && files[|files| - 1] == File(Some(Data(orig, writeSize, readSize)), Plain)
      ensures sums == if first then old(sums)[sum := |old(files)|] else old(sums)
    {
      hide *;
      ghost var d := Data(orig, writeSize, readSize);
      Added(files, archived, live, Reserve(), d, bytes);
      Record(File(Some(Data(orig, writeSize, readSize)), Plain), bytes);
      if first {
        GrewFacts(old(files), old(archived), bytes);
        FirstOfSum(sum, bytes);
        ValidFacts();
        sums := sums[sum := |files| - 1];
        IsValid();
      }
    }

    /** Nothing was read: nothing is kept. */
    method KeepNone(orig: nat, writeSize: nat, ghost live: seq<Byte>, ghost bytes: seq<Byte>)
      requires FilesOk(files, archived, live, Reserve()) && SumsOk(digest, sums, files, archived)
      requires !docksum ==> digestLen == 0
      requires |files| == |archived| && Laid(signatures, digestLen) && heapLen == orig == Reserve() + |live|
      requires |bytes| == writeSize <= pos <= |heap| && heap[..pos] == live + bytes
      modifies this`heapOffset, this`pos, this`files, this`archived
      ensures Valid() && Grew(old(files), old(archived), []) && heapOffset == orig
      ensures |files| > 0 && files[|files| - 1] == File(None, Plain)
    {
      hide *;
      Front(live, bytes, writeSize);
      Rewind(orig, writeSize, live);
      Linked(files, archived, live, Reserve(), Plain, []);
      Record(File(None, Plain), []);
    }

    /** What a new file is: a link to the first one with its checksum, a sharer of that one's
        bytes, or the owner of the bytes from orig on. Only an owner makes the heap longer. */
    ghost predicate Kept(was: seq<File>, had: map<C, nat>, orig: nat, sum: C, checksum: bool, linkSame: bool,
                         coalesce: bool, readSize: nat, writeSize: nat)
      reads this`files, this`sums, this`heapOffset
    {
      && |files| > 0
      && if checksum && sum in had && (linkSame || coalesce) then
           && heapOffset == orig && sums == had && had[sum] < |was| && was[had[sum]].data.Some?
           && files[|files| - 1] ==
              if linkSame then File(None, HardLink(had[sum]))
              else File(Some(Data(was[had[sum]].data.value.offset, writeSize, readSize)), Plain)
         else
           && heapOffset == orig + writeSize
           && files[|files| - 1] == File(Some(Data(orig, writeSize, readSize)), Plain)
           && sums == if checksum && sum !in had then had[sum := |was|] else had
    }

    /** Whose bytes the file is to have. */
    method Keep(linkSame: bool, coalesce: bool, checksum: bool, orig: nat, readSize: nat, writeSize: nat,
                ghost live: seq<Byte>, ghost bytes: seq<Byte>)
      requires FilesOk(files, archived, live, Reserve()) && SumsOk(digest, sums, files, archived)
      requires !docksum ==> digestLen == 0
      requires |files| == |archived| && CollisionFree(digest) && Laid(signatures, digestLen)
      requires orig == Reserve() + |live| && heapOffset == heapLen == Reserve() + pos
      requires |bytes| == writeSize <= pos <= |heap| && heap[..pos] == live + bytes
      modifies this`heapOffset, this`heapLen, this`pos, this`files, this`archived, this`sums
      ensures Valid() && Grew(old(files), old(archived), bytes)
      ensures Kept(old(files), old(sums), orig, digest(bytes), checksum, linkSame, coalesce, readSize, writeSize)
    {
      hide FilesOk, SumsOk, Laid, Lengths, Reserve, Grew, CollisionFree, Valid, StoredAt;
      Front(live, bytes, writeSize);
      var sum := SumOf(writeSize, bytes);
      if checksum && sum in sums {
        SameSum(sum, bytes);
        var t := sums[sum];
        if linkSame || (coalesce && files[t].data.Some?) {
          Duplicate(t, linkSame, orig, readSize, writeSize, live, bytes);
          return;
        }
      }
      KeepOwn(sum, checksum && sum !in sums, orig, readSize, writeSize, live, bytes);
    }

    /** `xar_attrcopy_to_heap` for the data of a new file. A duplicate's bytes are given up
        again, to be overwritten by the next file's. */
    method AddFile(rounds: seq<Round>, linkSame: bool, coalesce: bool, checksum: bool)
      requires Valid() && EndsReading(rounds) && CollisionFree(digest)
      modifies this
      ensures Valid() && signatures == old(signatures) && digestLen == old(digestLen) && docksum == old(docksum)
      ensures Grew(old(files), old(archived), if Total(rounds) == 0 then [] else Output(rounds))
      ensures |heap| == if old(pos) + |Output(rounds)| > old(|heap|) then old(pos) + |Output(rounds)| else old(|heap|)
      ensures if Total(rounds) == 0 then
                && heapOffset == old(heapOffset) && sums == old(sums)
                && |files| > 0 && files[|files| - 1] == File(None, Plain)
              else
                Kept(old(files), old(sums), old(heapOffset), digest(Output(rounds)), checksum, linkSame, coalesce,
                     Total(rounds), |Output(rounds)|)
    {
      hide *;
      ValidFacts();
      var orig := heapOffset;
      ghost var live, bytes := heap[..pos], Output(rounds);
      var readSize, writeSize := CopyIn(rounds);
      if readSize == 0 {
        KeepNone(orig, writeSize, live, bytes);
      } else {
        heapLen := heapLen + writeSize;
        Keep(linkSame, coalesce, checksum, orig, readSize, writeSize, live, bytes);
      }
    }

    /** What `AddFile` says of the first file. */
    lemma OnlyFile(bytes: seq<Byte>, orig: nat, size: nat)
      requires Grew([], [], bytes) && Kept([], map[], orig, digest(bytes), true, false, false, size, |bytes|)
      ensures |files| == 1 && files[0].data == Some(Data(orig, |bytes|, size)) && archived == [bytes]
      ensures heapOffset == orig + |bytes|
    {
    }

    method SumOf(n: nat, ghost bytes: seq<Byte>) returns (sum: C)
      requires n <= pos <= |heap| && heap[pos - n..pos] == bytes
      ensures sum == digest(bytes)
    {
      sum := digest(heap[pos - n..pos]);
    }

    lemma GrewFacts(was: seq<File>, had: seq<seq<Byte>>, bytes: seq<Byte>)
      requires Grew(was, had, bytes) && |was| == |had|
      ensures |files| == |archived| == |was| + 1 && archived[|was|] == bytes
    {
    }

    lemma FirstOfSum(sum: C, bytes: seq<Byte>)
      requires Valid() && files != [] && files[|files| - 1].data.Some? && archived[|files| - 1] == bytes
      requires sum == digest(bytes)
      ensures SumsOk(digest, sums[sum := |files| - 1], files, archived)
    {
    }

    /** The heap file, rsize bytes at a time, up to the length the heap should have with what
        has been written already. */
    method CopyHeap(head: seq<Byte>, rsize0: nat) returns (out: seq<Byte>)
      requires rsize0 > 0 && |head| <= heapLen
      ensures out == head + heap[..if heapLen - |head| < |heap| then heapLen - |head| else |heap|]
    {
      var rsize, rbytes, hpos := rsize0, |head|, 0;
      out := head;
      while true
        invariant rsize > 0 || (rsize == 0 && rbytes == heapLen)
        invariant hpos <= |heap| && rbytes == |head| + hpos <= heapLen && out == head + heap[..hpos]
        decreases heapLen - rbytes
      {
        if heapLen - rbytes < rsize {
          rsize := heapLen - rbytes;
        }
        var r := if rsize < |heap| - hpos then rsize else |heap| - hpos;
        if r == 0 {
          break;
        }
        assert head + heap[..hpos + r] == head + heap[..hpos] + heap[hpos..hpos + r];
        rbytes := rbytes + r;
        out := out + heap[hpos..hpos + r];
        hpos := hpos + r;
        if rbytes >= heapLen {
          break;
        }
      }
    }

    /** The end of `xar_close`: what follows the table of contents. Signatures are written
        only if there is a digest for them to sign; if not, as many bytes as they would take are
        copied from behind the live heap, where there are any. */
    method Close(toc: seq<Byte>, signed: seq<seq<Byte>>, rsize: nat) returns (out: seq<Byte>)
      requires Valid() && rsize > 0 && |toc| == digestLen && |signed| == |signatures|
      requires forall i :: 0 <= i < |signed| ==> |signed[i]| == signatures[i].len
      ensures Closed(toc, signed, out)
    {
      hide FilesOk, SumsOk, Laid;
      out := [];
      if docksum {
        out := toc;
        for i := 0 to |signatures|
          invariant out == toc + Concat(signed[..i]) && |out| == digestLen + Lengths(signatures[..i])
        {
          assert signed[..i + 1][..i] == signed[..i] && signatures[..i + 1][..i] == signatures[..i];
          assert toc + Concat(signed[..i]) + signed[i] == toc + Concat(signed[..i + 1]);
          out := out + signed[i];
        }
        assert signed[..|signed|] == signed && signatures[..|signatures|] == signatures;
      }
      out := CopyHeap(out, rsize);
    }

    /** With the head written, every file that has data finds its archived bytes there. */
    lemma ReadsBack(k: nat, before: seq<Byte>, head: seq<Byte>)
      requires Valid() && k < |files| && files[k].data.Some? && |head| == Reserve()
      ensures var d := files[k].data.value;
        var fd, at := before + (head + heap[..pos]), |before| + d.offset;
        at + d.length <= |fd| && fd[at..at + d.length] == archived[k]
    {
      var d := files[k].data.value;
      assert FileOk(files[k], archived[k], files, archived, heap[..pos], Reserve());
      var fd, at := before + (head + heap[..pos]), |before| + d.offset;
      var low := d.offset - Reserve();
      assert fd[at..at + d.length] == heap[..pos][low..low + d.length];
    }

    /** Without a digest the signatures are not written, and every file's bytes are that much
        before the place recorded for them. */
    lemma ReadsBackLower(k: nat, out: seq<Byte>)
      requires Valid() && k < |files| && files[k].data.Some? && heap[..pos] <= out
      ensures var d := files[k].data.value;
        var at := d.offset - Reserve();
        0 <= at && at + d.length <= |out| && out[at..at + d.length] == archived[k]
    {
      var d := files[k].data.value;
      assert FileOk(files[k], archived[k], files, archived, heap[..pos], Reserve());
      var at := d.offset - Reserve();
      assert out[at..at + d.length] == heap[..pos][at..at + d.length];
    }

    /** What `xar_close` writes behind the table of contents. */
    ghost predicate Closed(toc: seq<Byte>, signed: seq<seq<Byte>>, out: seq<Byte>)
      reads this`docksum, this`heap, this`pos, this`digestLen, this`signatures
    {
      pos <= |heap| &&
      if docksum then out == toc + Concat(signed) + heap[..pos] && |toc + Concat(signed)| == Reserve()
      else out == heap[..if Reserve() + pos < |heap| then Reserve() + pos else |heap|]
    }

    /** The places recorded are right if there is a digest or there are no signatures; if there
        are signatures and no digest, they are wrong for the file at the end of the heap, as long
        as no longer heap has been rewound. */
    lemma OffsetsRight(k: nat, toc: seq<Byte>, signed: seq<seq<Byte>>, out: seq<Byte>)
      requires Valid() && k < |files| && files[k].data.Some? && Closed(toc, signed, out)
      ensures docksum || Lengths(signatures) == 0 ==> Slice(out, files[k].data.value) == archived[k]
      ensures |heap| == pos && files[k].data.value.offset + files[k].data.value.length == Reserve() + pos &&
              files[k].data.value.length > 0 ==>
              (Slice(out, files[k].data.value) == archived[k] <==> docksum || Lengths(signatures) == 0)
    {
      hide *;
      var d := files[k].data.value;
      ClosedFacts(toc, signed, out);
      DataFacts(k);
      SliceIs(out, d);
      if docksum {
        ReadsBack(k, [], toc + Concat(signed));
        assert [] + out == out;
      } else if Lengths(signatures) == 0 {
        ReadsBackLower(k, out);
      }
    }

    /** And where there is one, the digest is at the start, and each signature at its place. */
    lemma SignaturesRight(i: nat, toc: seq<Byte>, signed: seq<seq<Byte>>, out: seq<Byte>)
      requires Valid() && docksum && Closed(toc, signed, out) && |toc| == digestLen && |signed| == |signatures|
      requires forall k :: 0 <= k < |signed| ==> |signed[k]| == signatures[k].len
      requires i < |signatures|
      ensures toc <= out
      ensures var s := signatures[i];
        s.offset + s.len <= |out| && out[s.offset..s.offset + s.len] == signed[i]
    {
      hide Valid, Concat, Laid, Lengths, Closed;
      ValidFacts();
      ClosedFacts(toc, signed, out);
      LaidAt(signatures, digestLen, i);
      ConcatLength(signatures, signed, i);
      ConcatAt(signed, i);
      var front, s := Concat(signed[..i]), signatures[i];
      assert toc + front + signed[i] == toc + (front + signed[i]) <= out;
      assert out[..s.offset + s.len] == toc + front + signed[i];
      assert out[s.offset..s.offset + s.len] == out[..s.offset + s.len][s.offset..];
    }

    lemma ClosedFacts(toc: seq<Byte>, signed: seq<seq<Byte>>, out: seq<Byte>)
      requires Closed(toc, signed, out)
      ensures docksum ==>
        pos <= |heap| && out == toc + Concat(signed) + heap[..pos] && |toc + Concat(signed)| == Reserve()
      ensures !docksum ==> pos <= |heap| && heap[..pos] <= out && (|heap| == pos ==> |out| == pos)
    {
    }

    lemma DataFacts(k: nat)
      requires Valid() && k < |files| && files[k].data.Some?
      ensures |files| == |archived| && |archived[k]| == files[k].data.value.length
      ensures Reserve() <= files[k].data.value.offset && Reserve() == digestLen + Lengths(signatures)
      ensures !docksum ==> digestLen == 0
    {
      assert FileOk(files[k], archived[k], files, archived, heap[..pos], Reserve());
    }
  }

  lemma LaidAt(sigs: seq<Signature>, start: nat, i: nat)
    requires Laid(sigs, start) && i < |sigs|
    ensures sigs[i].offset == start + Lengths(sigs[..i])
  {
  }

  lemma {:induction false} ConcatLength(sigs: seq<Signature>, parts: seq<seq<Byte>>, i: nat)
    requires i <= |sigs| == |parts| && forall k :: 0 <= k < |parts| ==> |parts[k]| == sigs[k].len
    ensures |Concat(parts[..i])| == Lengths(sigs[..i])
    decreases i
  {
    if i > 0 {
      ConcatLength(sigs, parts, i - 1);
      assert parts[..i][..i - 1] == parts[..i - 1] && sigs[..i][..i - 1] == sigs[..i - 1];
    }
  }

  lemma SliceIs(fd: seq<Byte>, d: Data)
    ensures d.offset + d.length <= |fd| ==> Slice(fd, d) == fd[d.offset..d.offset + d.length]
    ensures d.offset + d.length > |fd| ==> |Slice(fd, d)| < d.length || d.length == 0
  {
  }

  /** An archive with a signature and no digest. */
  method Undigested<C(==, !new)>(digest: seq<Byte> -> C, n: nat) returns (x: Archive<C>)
    ensures fresh(x) && x.Valid() && x.digest == digest && !x.docksum && x.digestLen == 0 && x.files == []
    ensures |x.signatures| == 1 && x.signatures[0].len == n && x.Reserve() == n
    ensures x.heap == [] && x.pos == 0 && x.archived == [] && x.sums == map[]
  {
    hide FilesOk, SumsOk, Laid;
    x := new Archive(digest);
    var ok := x.SetTocChecksum(NoDigest);
    ok := x.AddSignature(n);
    OneLength(x.signatures, n);
  }

  /** Without a digest, and with a signature of any length, no first file is read back. */
  method LostWithoutDigest<C(==, !new)>(digest: seq<Byte> -> C, rounds: seq<Round>, signature: seq<Byte>, rsize: nat,
                                        bsize: nat)
    returns (x: Archive<C>, bytes: seq<Byte>)
    requires EndsReading(rounds) && Total(rounds) > 0 && Output(rounds) != [] && CollisionFree(digest)
    requires signature != [] && rsize > 0 && bsize > 0
    ensures fresh(x) && x.Valid() && !x.docksum && |x.files| == 1 && x.archived == [Output(rounds)]
    ensures x.files[0].data == Some(Data(|signature|, |Output(rounds)|, Total(rounds)))
    ensures bytes != Output(rounds) && |bytes| < |Output(rounds)|
  {
    hide *;
    x := Undigested(digest, |signature|);
    x.ValidFacts();
    ghost var body := Output(rounds);
    assert x.heapOffset == |signature|;
    x.AddFile(rounds, false, false, true);
    x.OnlyFile(body, |signature|, Total(rounds));
    x.ValidFacts();
    OneLength(x.signatures, |signature|);
    var signed := [signature];
    var out := x.Close([], signed, rsize);
    x.ClosedFacts([], signed, out);
    var data := x.files[0].data;
    bytes := FromHeap(out, 0, data, bsize);
    TooFar(out, Data(|signature|, |body|, Total(rounds)), |body|);
  }

  lemma TooFar(fd: seq<Byte>, d: Data, n: nat)
    requires |fd| <= n == d.length && d.offset > 0 && n > 0
    ensures |Slice(fd, d.(offset := 0 + d.offset))| < n
  {
  }

  lemma OneLength(sigs: seq<Signature>, n: nat)
    requires |sigs| == 1 && sigs[0].len == n
    ensures Lengths(sigs) == n
  {
    assert sigs[..0] == [];
  }

  /** The bytes at a place, or as many as there are. */
  function Slice(fd: seq<Byte>, d: Data): seq<Byte> {
    if d.offset >= |fd| then []
    else if d.offset + d.length <= |fd| then fd[d.offset..d.offset + d.length]
    else fd[d.offset..]
  }

  /** `xar_attrcopy_from_heap`: the archived bytes of a file, bsize at a time; base is where
      the heap starts in the archive. */
  method FromHeap(fd: seq<Byte>, base: nat, d: Option<Data>, bsize0: nat) returns (bytes: seq<Byte>)
    requires bsize0 > 0
    ensures d.None? ==> bytes == []
    ensures d.Some? ==> bytes == Slice(fd, d.value.(offset := base + d.value.offset))
  {
    bytes := [];
    if d.None? {
      return;
    }
    var seekoff := base + d.value.offset;
    var fsize, inc, at := d.value.length, 0, seekoff;
    while inc != fsize
      invariant inc <= fsize && at == seekoff + inc
      invariant seekoff <= |fd| ==> at <= |fd| && bytes == fd[seekoff..at]
      invariant seekoff > |fd| ==> inc == 0 && bytes == []
    {
      var bsize := if fsize - inc < bsize0 then fsize - inc else bsize0;
      var r := if at >= |fd| then 0 else if |fd| - at < bsize then |fd| - at else bsize;
      if r == 0 {
        break;
      }
      assert fd[seekoff..at] + fd[at..at + r] == fd[seekoff..at + r];
      bytes := bytes + fd[at..at + r];
      inc, at := inc + r, at + r;
    }
  }
}
