/** What one repair of the forest does to the sorted sequence, stated by swaps,
    and why it restores heap order and ascending roots. */
module LeonardoForest {
  import opened LeonardoNumbers
  import opened Leonardo
  import opened Words

  type Cmp<!T> = (T, T) -> int

  ghost predicate Le<T>(cmp: Cmp<T>, x: T, y: T) {
    cmp(x, y) <= 0
  }

  /** What the sort asks of a comparison callback: consistent signs and transitivity. */
  ghost predicate TotalPreorder<T(!new)>(cmp: Cmp<T>) {
    && (forall x, y :: cmp(x, y) >= 0 <==> Le(cmp, y, x))
    && (forall x, y, z :: Le(cmp, x, y) && Le(cmp, y, z) ==> Le(cmp, x, z))
  }

  lemma LeTotal<T(!new)>(cmp: Cmp<T>, x: T, y: T)
    requires TotalPreorder(cmp)
    ensures Le(cmp, x, y) || Le(cmp, y, x)
    ensures Le(cmp, x, x)
  {
    assert cmp(x, y) >= 0 || Le(cmp, x, y);
    assert cmp(x, x) >= 0 || Le(cmp, x, x);
  }

  // ----- trees: root at r, order k, occupying positions r - L(k) + 1 .. r

  function Rt(r: int): int { r - 1 }

  function Lf(r: int, k: nat): int
    requires k >= 2
  {
    r - 1 - L(k - 2)
  }

  predicate Fits<T>(s: seq<T>, r: int, k: nat) {
    L(k) <= r + 1 <= |s|
  }

  ghost predicate HeapBelow<T>(cmp: Cmp<T>, s: seq<T>, r: int, k: nat)
    requires Fits(s, r, k)
    decreases k, 0
  {
    k >= 2 ==> Heap(cmp, s, Lf(r, k), k - 1) && Heap(cmp, s, Rt(r), k - 2)
  }

  ghost predicate Heap<T>(cmp: Cmp<T>, s: seq<T>, r: int, k: nat)
    requires Fits(s, r, k)
    decreases k, 1
  {
    HeapBelow(cmp, s, r, k) && (k >= 2 ==> Le(cmp, s[Lf(r, k)], s[r]) && Le(cmp, s[Rt(r)], s[r]))
  }

  lemma HeapChildren<T>(cmp: Cmp<T>, s: seq<T>, r: int, k: nat, lf: int, rt: int)
    requires Fits(s, r, k) && Heap(cmp, s, r, k) && k >= 2 && lf == Lf(r, k) && rt == Rt(r)
    ensures Fits(s, lf, k - 1) && Heap(cmp, s, lf, k - 1)
    ensures Fits(s, rt, k - 2) && Heap(cmp, s, rt, k - 2)
  {
    assert HeapBelow(cmp, s, r, k);
  }

  lemma {:induction false} HeapFrame<T>(cmp: Cmp<T>, s: seq<T>, t: seq<T>, r: int, k: nat)
    requires Fits(s, r, k) && Fits(t, r, k)
    requires forall i :: r - L(k) < i <= r ==> s[i] == t[i]
    requires Heap(cmp, s, r, k)
    ensures Heap(cmp, t, r, k)
    decreases k
  {
    if k >= 2 {
      HeapFrame(cmp, s, t, Lf(r, k), k - 1);
      HeapFrame(cmp, s, t, Rt(r), k - 2);
    }
  }

  lemma {:induction false} HeapRootIsMax<T(!new)>(cmp: Cmp<T>, s: seq<T>, r: int, k: nat, i: int)
    requires TotalPreorder(cmp) && Fits(s, r, k) && Heap(cmp, s, r, k)
    requires r - L(k) < i <= r
    ensures Le(cmp, s[i], s[r])
    decreases k
  {
    if i == r {
      LeTotal(cmp, s[r], s[r]);
    } else if i <= Lf(r, k) {
      HeapRootIsMax(cmp, s, Lf(r, k), k - 1, i);
    } else {
      HeapRootIsMax(cmp, s, Rt(r), k - 2, i);
    }
  }

  // ----- forests: trees of orders os, the first ending at head, side by side down to 0

  predicate Layout(os: seq<nat>, head: int): (b: bool)
    ensures b ==> head >= -1 && (os == [] <==> head == -1)
  {
    if os == [] then head == -1
    else L(os[0]) <= head + 1 && Layout(os[1..], head - L(os[0]))
  }

  lemma LayoutCons(k: nat, rest: seq<nat>, head: int)
    ensures Layout([k] + rest, head) <==> L(k) <= head + 1 && Layout(rest, head - L(k))
  {
    assert ([k] + rest)[1..] == rest;
  }

  ghost predicate Ordered<T>(cmp: Cmp<T>, s: seq<T>, head: int, os: seq<nat>)
    requires Layout(os, head) && head < |s|
  {
    os != [] ==>
      && Heap(cmp, s, head, os[0])
      && (os[1..] != [] ==> Le(cmp, s[head - L(os[0])], s[head]))
      && Ordered(cmp, s, head - L(os[0]), os[1..])
  }

  lemma {:induction false} OrderedFrame<T>(cmp: Cmp<T>, s: seq<T>, t: seq<T>, head: int, os: seq<nat>)
    requires Layout(os, head) && head < |s| && head < |t|
    requires forall i :: 0 <= i <= head ==> s[i] == t[i]
    requires Ordered(cmp, s, head, os)
    ensures Ordered(cmp, t, head, os)
  {
    if os != [] {
      HeapFrame(cmp, s, t, head, os[0]);
      OrderedFrame(cmp, s, t, head - L(os[0]), os[1..]);
    }
  }

  /** The rightmost root of an ordered forest is the maximum of the prefix. */
  lemma {:induction false} OrderedRootIsMax<T(!new)>(cmp: Cmp<T>, s: seq<T>, head: int, os: seq<nat>, i: int)
    requires TotalPreorder(cmp) && Layout(os, head) && head < |s| && Ordered(cmp, s, head, os)
    requires 0 <= i <= head
    ensures Le(cmp, s[i], s[head])
  {
    if head - L(os[0]) < i {
      HeapRootIsMax(cmp, s, head, os[0], i);
    } else {
      OrderedRootIsMax(cmp, s, head - L(os[0]), os[1..], i);
    }
  }

  // ----- swaps

  function Swap<T>(s: seq<T>, i: int, j: int): (t: seq<T>)
    requires 0 <= i < |s| && 0 <= j < |s|
    ensures |t| == |s|
  {
    s[i := s[j]][j := s[i]]
  }

  /** `t` is `s` with the first n elements permuted. */
  ghost predicate PermutesPrefix<T>(s: seq<T>, t: seq<T>, n: nat) {
    n <= |s| == |t| && multiset(s[..n]) == multiset(t[..n]) && s[n..] == t[n..]
  }

  lemma SwapPermutes<T>(s: seq<T>, i: int, j: int, n: nat)
    requires 0 <= i < n <= |s| && 0 <= j < n
    ensures PermutesPrefix(s, Swap(s, i, j), n)
  {
    assert Swap(s, i, j)[..n] == s[..n][i := s[j]][j := s[i]];
  }

  // ----- sift

  /** Let the root of a tree sink to its place. */
  function Sifted<T>(cmp: Cmp<T>, s: seq<T>, r: int, k: nat): (t: seq<T>)
    requires Fits(s, r, k)
    ensures |t| == |s|
    decreases k
  {
    if k < 2 || (cmp(s[r], s[Lf(r, k)]) >= 0 && cmp(s[r], s[Rt(r)]) >= 0) then s
    else if cmp(s[Lf(r, k)], s[Rt(r)]) >= 0 then Sifted(cmp, Swap(s, r, Lf(r, k)), Lf(r, k), k - 1)
    else Sifted(cmp, Swap(s, r, Rt(r)), Rt(r), k - 2)
  }

  lemma SiftedStep<T>(cmp: Cmp<T>, s: seq<T>, r: int, k: nat)
    requires Fits(s, r, k) && k >= 2
    ensures var lf, rt := Lf(r, k), Rt(r);
      Sifted(cmp, s, r, k) ==
      if cmp(s[r], s[lf]) >= 0 && cmp(s[r], s[rt]) >= 0 then s
      else if cmp(s[lf], s[rt]) >= 0 then Sifted(cmp, Swap(s, r, lf), lf, k - 1)
      else Sifted(cmp, Swap(s, r, rt), rt, k - 2)
  {
  }

  lemma {:induction false} SiftedStays<T>(cmp: Cmp<T>, s: seq<T>, r: int, k: nat, n: nat)
    requires Fits(s, r, k) && r < n <= |s|
    ensures PermutesPrefix(s, Sifted(cmp, s, r, k), n)
    ensures forall i :: 0 <= i <= r - L(k) || r < i < |s| ==> Sifted(cmp, s, r, k)[i] == s[i]
    decreases k
  {
    if k < 2 || (cmp(s[r], s[Lf(r, k)]) >= 0 && cmp(s[r], s[Rt(r)]) >= 0) {
    } else if cmp(s[Lf(r, k)], s[Rt(r)]) >= 0 {
      SwapPermutes(s, r, Lf(r, k), n);
      SiftedStays(cmp, Swap(s, r, Lf(r, k)), Lf(r, k), k - 1, n);
    } else {
      SwapPermutes(s, r, Rt(r), n);
      SiftedStays(cmp, Swap(s, r, Rt(r)), Rt(r), k - 2, n);
    }
  }

  /** Sifting makes a heap of a tree whose only flaw is its root; the new root is the
      largest of the old root and its children. */
  lemma {:induction false} SiftedHeap<T(!new)>(cmp: Cmp<T>, s: seq<T>, r: int, k: nat)
    requires TotalPreorder(cmp) && Fits(s, r, k) && HeapBelow(cmp, s, r, k)
    ensures var t := Sifted(cmp, s, r, k);
      && Heap(cmp, t, r, k)
      && (t[r] == s[r] || (k >= 2 && (t[r] == s[Lf(r, k)] || t[r] == s[Rt(r)])))
      && Le(cmp, s[r], t[r])
      && (k >= 2 ==> Le(cmp, s[Lf(r, k)], t[r]) && Le(cmp, s[Rt(r)], t[r]))
    decreases k, 1
  {
    LeTotal(cmp, s[r], s[r]);
    if k < 2 || (cmp(s[r], s[Lf(r, k)]) >= 0 && cmp(s[r], s[Rt(r)]) >= 0) {
    } else if cmp(s[Lf(r, k)], s[Rt(r)]) >= 0 {
      SunkHeap(cmp, s, r, k, Lf(r, k), k - 1, Rt(r), k - 2);
    } else {
      SunkHeap(cmp, s, r, k, Rt(r), k - 2, Lf(r, k), k - 1);
    }
  }

  /** One step of the sinking: c is the child that comes up, d the other one. */
  lemma {:induction false} SunkHeap<T(!new)>(cmp: Cmp<T>, s: seq<T>, r: int, k: nat, c: int, m: nat, d: int, o: nat)
    requires TotalPreorder(cmp) && k >= 2 && Fits(s, r, k) && HeapBelow(cmp, s, r, k)
    requires (c, m, d, o) == (Lf(r, k), k - 1, Rt(r), k - 2) || (c, m, d, o) == (Rt(r), k - 2, Lf(r, k), k - 1)
    requires Le(cmp, s[r], s[c]) && Le(cmp, s[d], s[c])
    ensures var t := Sifted(cmp, Swap(s, r, c), c, m);
      Heap(cmp, t, r, k) && t[r] == s[c]
    decreases k, 0
  {
    hide TotalPreorder, Sifted;
    LeTotal(cmp, s[c], s[c]);
    var u := Swap(s, r, c);
    var t := Sifted(cmp, u, c, m);
    HeapBelowFrame(cmp, s, u, c, m);
    SiftedHeap(cmp, u, c, m);
    SiftedStays(cmp, u, c, m, r + 1);
    HeapFrame(cmp, s, t, d, o);
  }

  // ----- trinkle

  /** The next root on the left need not come into the first tree. */
  predicate Settled<T>(cmp: Cmp<T>, s: seq<T>, head: int, os: seq<nat>, trusty: bool): (b: bool)
    requires os != [] && Layout(os, head) && head < |s|
    ensures !b ==> os[1..] != []
  {
    var k := os[0];
    os[1..] == []
    || cmp(s[head - L(k)], s[head]) <= 0
    || (!trusty && k > 1
        && (cmp(s[Rt(head)], s[head - L(k)]) >= 0 || cmp(s[Lf(head, k)], s[head - L(k)]) >= 0))
  }

  /** Move the root of the first tree left along the roots until it fits, then sift it.
      `trusty` says that the first tree is already a heap. */
  function Trinkled<T>(cmp: Cmp<T>, s: seq<T>, head: int, os: seq<nat>, trusty: bool): (t: seq<T>)
    requires os != [] && Layout(os, head) && head < |s|
    ensures |t| == |s|
    decreases |os|
  {
    if Settled(cmp, s, head, os, trusty) then if trusty then s else Sifted(cmp, s, head, os[0])
    else Trinkled(cmp, Swap(s, head, head - L(os[0])), head - L(os[0]), os[1..], false)
  }

  lemma {:induction false} TrinkledStays<T>(cmp: Cmp<T>, s: seq<T>, head: int, os: seq<nat>, trusty: bool, n: nat)
    requires os != [] && Layout(os, head) && head < n <= |s|
    ensures PermutesPrefix(s, Trinkled(cmp, s, head, os, trusty), n)
    ensures forall i :: head < i < |s| ==> Trinkled(cmp, s, head, os, trusty)[i] == s[i]
    decreases |os|
  {
    hide Settled;
    var stepson := head - L(os[0]);
    if Settled(cmp, s, head, os, trusty) {
      SiftedStays(cmp, s, head, os[0], n);
    } else {
      SwapPermutes(s, head, stepson, n);
      TrinkledStays(cmp, Swap(s, head, stepson), stepson, os[1..], false, n);
    }
  }

  /** Everything that can become the first root is at most z. */
  ghost predicate RootsBelow<T>(cmp: Cmp<T>, s: seq<T>, head: int, os: seq<nat>, z: T)
    requires os != [] && Layout(os, head) && head < |s|
  {
    && Le(cmp, s[head], z)
    && (os[1..] != [] ==> Le(cmp, s[head - L(os[0])], z))
    && (os[0] >= 2 ==> Le(cmp, s[Lf(head, os[0])], z) && Le(cmp, s[Rt(head)], z))
  }

  /** What trinkling starts from: only the first root can be out of place. */
  ghost predicate FlawedAtFirst<T>(cmp: Cmp<T>, s: seq<T>, head: int, os: seq<nat>, trusty: bool)
    requires os != [] && Layout(os, head) && head < |s|
  {
    && HeapBelow(cmp, s, head, os[0])
    && (trusty ==> Heap(cmp, s, head, os[0]))
    && Ordered(cmp, s, head - L(os[0]), os[1..])
  }

  /** Trinkling restores the whole forest when only the first root can be out of place. */
  lemma {:induction false} TrinkledOrdered<T(!new)>(cmp: Cmp<T>, s: seq<T>, head: int, os: seq<nat>, trusty: bool)
    requires TotalPreorder(cmp) && os != [] && Layout(os, head) && head < |s|
    requires FlawedAtFirst(cmp, s, head, os, trusty)
    ensures Ordered(cmp, Trinkled(cmp, s, head, os, trusty), head, os)
    ensures forall z :: RootsBelow(cmp, s, head, os, z) ==> Le(cmp, Trinkled(cmp, s, head, os, trusty)[head], z)
    decreases |os|
  {
    if Settled(cmp, s, head, os, trusty) {
      SettledOrdered(cmp, s, head, os, trusty);
    } else {
      var stepson, rest := head - L(os[0]), os[1..];
      var u := Swap(s, head, stepson);
      var t := Trinkled(cmp, u, stepson, rest, false);
      StepsonHeap(cmp, s, u, head, os, trusty, stepson);
      StepsonRest(cmp, s, u, head, stepson, rest);
      TrinkledOrdered(cmp, u, stepson, rest, false);
      TrinkledStays(cmp, u, stepson, rest, false, stepson + 1);
      HeapFrame(cmp, u, t, head, os[0]);
    }
  }

  lemma SettledOrdered<T(!new)>(cmp: Cmp<T>, s: seq<T>, head: int, os: seq<nat>, trusty: bool)
    requires TotalPreorder(cmp) && os != [] && Layout(os, head) && head < |s|
    requires FlawedAtFirst(cmp, s, head, os, trusty) && Settled(cmp, s, head, os, trusty)
    ensures Ordered(cmp, Trinkled(cmp, s, head, os, trusty), head, os)
    ensures forall z :: RootsBelow(cmp, s, head, os, z) ==> Le(cmp, Trinkled(cmp, s, head, os, trusty)[head], z)
  {
    var t := Trinkled(cmp, s, head, os, trusty);
    if !trusty {
      SiftedHeap(cmp, s, head, os[0]);
      SiftedStays(cmp, s, head, os[0], head + 1);
    }
    OrderedFrame(cmp, s, t, head - L(os[0]), os[1..]);
  }

  /** When the stepson comes in, the first tree is a heap under it. */
  lemma StepsonHeap<T(!new)>(cmp: Cmp<T>, s: seq<T>, u: seq<T>, head: int, os: seq<nat>, trusty: bool, stepson: int)
    requires TotalPreorder(cmp) && os != [] && Layout(os, head) && head < |s|
    requires FlawedAtFirst(cmp, s, head, os, trusty) && !Settled(cmp, s, head, os, trusty)
    requires stepson == head - L(os[0]) && u == Swap(s, head, stepson)
    ensures Heap(cmp, u, head, os[0]) && Le(cmp, s[head], s[stepson])
  {
    HeapBelowFrame(cmp, s, u, head, os[0]);
    LeTotal(cmp, s[stepson], s[head]);
    if os[0] >= 2 {
      LeTotal(cmp, s[stepson], s[Rt(head)]);
      LeTotal(cmp, s[stepson], s[Lf(head, os[0])]);
    }
  }

  /** The tree the stepson came from is flawed only at its root, and nothing that can
      become its root exceeds the stepson. */
  lemma StepsonRest<T(!new)>(cmp: Cmp<T>, s: seq<T>, u: seq<T>, head: int, stepson: int, rest: seq<nat>)
    requires TotalPreorder(cmp) && rest != [] && Layout(rest, stepson) && 0 <= stepson < head < |s|
    requires Ordered(cmp, s, stepson, rest) && Le(cmp, s[head], s[stepson]) && u == Swap(s, head, stepson)
    ensures FlawedAtFirst(cmp, u, stepson, rest, false)
    ensures RootsBelow(cmp, u, stepson, rest, s[stepson])
  {
    HeapBelowFrame(cmp, s, u, stepson, rest[0]);
    OrderedFrame(cmp, s, u, stepson - L(rest[0]), rest[1..]);
  }

  /** Heap order below a root does not depend on the root's own value. */
  lemma HeapBelowFrame<T>(cmp: Cmp<T>, s: seq<T>, t: seq<T>, r: int, k: nat)
    requires Fits(s, r, k) && Fits(t, r, k)
    requires forall i :: r - L(k) < i < r ==> s[i] == t[i]
    requires HeapBelow(cmp, s, r, k)
    ensures HeapBelow(cmp, t, r, k)
  {
    if k >= 2 {
      HeapFrame(cmp, s, t, Lf(r, k), k - 1);
      HeapFrame(cmp, s, t, Rt(r), k - 2);
    }
  }
}
