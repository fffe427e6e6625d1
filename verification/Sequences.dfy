/** Bytes, and sequences put together. */
module Sequences {

  type Byte = b: nat | b < 0x100

  function Concat<T>(parts: seq<seq<T>>): seq<T> {
    if parts == [] then [] else Concat(parts[..|parts| - 1]) + parts[|parts| - 1]
  }

  lemma ConcatNone<T>(parts: seq<seq<T>>)
    requires |parts| == 0
    ensures Concat(parts) == []
  {
  }

  lemma ConcatMore<T>(parts: seq<seq<T>>, i: nat)
    requires i < |parts|
    ensures Concat(parts[..i + 1]) == Concat(parts[..i]) + parts[i]
  {
    assert parts[..i + 1][..i] == parts[..i];
  }

  /** Each part is in the whole, behind those before it. */
  lemma {:induction false} ConcatAt<T>(parts: seq<seq<T>>, i: nat)
    requires i < |parts|
    ensures Concat(parts[..i]) + parts[i] <= Concat(parts)
    decreases |parts|
  {
    var n := |parts| - 1;
    if i < n {
      assert parts[..n][..i] == parts[..i];
      ConcatAt(parts[..n], i);
    }
  }

  lemma Regroup<T>(a: seq<T>, b: seq<T>, c: seq<T>, d: seq<T>)
    ensures a + b + c + d == a + (b + (c + d))
    ensures a + (b + c) == a + b + c
  {
  }
}
