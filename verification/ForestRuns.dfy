/** What the two loops of `lb_qsort` keep: a loosely ordered forest while it grows,
    an ordered one with a sorted suffix while it shrinks. */
module ForestRuns {
  import opened LeonardoNumbers
  import opened Leonardo
  import opened Words
  import opened LeonardoForest

  /** Orders increase; only the two rightmost trees may have consecutive orders, and a
      tree of order 0 stands beside one of order 1. */
  predicate Shape(os: seq<nat>) {
    && os != []
    && (forall i :: 0 <= i < |os| - 1 ==> os[i] < os[i + 1])
    && (forall i :: 1 <= i < |os| - 1 ==> os[i] + 2 <= os[i + 1])
    && (os[0] == 0 ==> |os| > 1 && os[1] == 1)
  }

  /** The tree of order k ending at e will not be absorbed before n elements are in:
      what remains is too little for the sibling and the parent. */
  predicate Lasting(n: nat, e: int, k: nat) {
    k >= 1 ==> n - 1 - e <= L(k - 1)
  }

  /** Heaps throughout, ascending roots where a tree is there to stay. */
  ghost predicate Loose<T>(cmp: Cmp<T>, s: seq<T>, e: int, os: seq<nat>, n: nat)
    requires Layout(os, e) && e < |s|
  {
    os != [] ==>
      && Heap(cmp, s, e, os[0])
      && (Lasting(n, e, os[0]) && os[1..] != [] ==> Le(cmp, s[e - L(os[0])], s[e]))
      && Loose(cmp, s, e - L(os[0]), os[1..], n)
  }

  lemma {:induction false} OrderedIsLoose<T>(cmp: Cmp<T>, s: seq<T>, e: int, os: seq<nat>, n: nat)
    requires Layout(os, e) && e < |s| && Ordered(cmp, s, e, os)
    ensures Loose(cmp, s, e, os, n)
  {
    if os != [] {
      OrderedIsLoose(cmp, s, e - L(os[0]), os[1..], n);
    }
  }

  lemma {:induction false} LooseFrame<T>(cmp: Cmp<T>, s: seq<T>, t: seq<T>, e: int, os: seq<nat>, n: nat)
    requires Layout(os, e) && e < |s| && e < |t|
    requires forall i :: 0 <= i <= e ==> s[i] == t[i]
    requires Loose(cmp, s, e, os, n)
    ensures Loose(cmp, t, e, os, n)
  {
    if os != [] {
      HeapFrame(cmp, s, t, e, os[0]);
      LooseFrame(cmp, s, t, e - L(os[0]), os[1..], n);
    }
  }

  /** If the first of these trees is there to stay, so are the bigger ones on its left. */
  lemma {:induction false} LastingIsOrdered<T>(cmp: Cmp<T>, s: seq<T>, e: int, os: seq<nat>, n: nat)
    requires Layout(os, e) && e < |s| && Loose(cmp, s, e, os, n)
    requires forall i :: 0 <= i < |os| - 1 ==> os[i] + 2 <= os[i + 1]
    requires os != [] ==> 1 <= os[0] && Lasting(n, e, os[0])
    ensures Ordered(cmp, s, e, os)
  {
    if |os| > 1 {
      var k, m := os[0], os[1];
      LMonotone(k + 1, m - 1);
      assert L(k + 1) == L(k) + L(k - 1) + 1;
      LastingIsOrdered(cmp, s, e - L(k), os[1..], n);
    }
  }

  // ----- growing

  /** Before the tree ending at head has been repaired. */
  ghost predicate Growing<T>(cmp: Cmp<T>, s: seq<T>, head: int, os: seq<nat>, n: nat) {
    && Shape(os) && Layout(os, head) && head < n == |s|
    && HeapBelow(cmp, s, head, os[0])
    && Loose(cmp, s, head - L(os[0]), os[1..], n)
  }

  /** The two rightmost trees become the children of the next element. */
  lemma GrowMerge<T(!new)>(cmp: Cmp<T>, s: seq<T>, t: seq<T>, head: int, os: seq<nat>, one: seq<nat>, n: nat)
    requires TotalPreorder(cmp) && Growing(cmp, s, head, os, n) && head + 1 < n
    requires |os| > 1 && os[1] == os[0] + 1 && one == [os[0] + 2] + os[1..][1..]
    requires t == Sifted(cmp, s, head, os[0])
    ensures Growing(cmp, t, head + 1, one, n)
  {
    hide TotalPreorder, Shape, L, Sifted;
    var k, right, rest := os[0], os[1..], os[1..][1..];
    var e := head - L(k);
    MergeLayout(os, one, head, e, right, rest);
    SiftedHeap(cmp, s, head, k);
    SiftedStays(cmp, s, head, k, n);
    HeapFrame(cmp, s, t, e, k + 1);
    LooseFrame(cmp, s, t, e - L(k + 1), rest, n);
  }

  lemma MergeLayout(os: seq<nat>, one: seq<nat>, head: int, e: int, right: seq<nat>, rest: seq<nat>)
    requires Shape(os) && Layout(os, head) && |os| > 1 && os[1] == os[0] + 1
    requires right == os[1..] && rest == right[1..] && one == [os[0] + 2] + rest && e == head - L(os[0])
    ensures Shape(one) && Layout(one, head + 1) && one[1..] == rest
    ensures Layout(right, e) && Layout(rest, e - L(right[0])) && Lf(head + 1, one[0]) == e
    ensures head + 1 - L(one[0]) == e - L(right[0])
  {
    hide L, Shape;
    var k := os[0];
    LThree(k);
    LayoutCons(k + 2, rest, head + 1);
    assert one[1..] == rest;
    MergeShape(os, one, rest);
  }

  lemma MergeShape(os: seq<nat>, one: seq<nat>, rest: seq<nat>)
    requires Shape(os) && |os| > 1 && os[1] == os[0] + 1 && rest == os[1..][1..] && one == [os[0] + 2] + rest
    ensures Shape(one)
  {
    assert forall i :: 0 <= i < |rest| ==> os[i + 2] == rest[i] == one[i + 1];
  }

  /** Nothing will absorb the repaired tree: the forest from here on is in its final order. */
  lemma GrowLasting<T(!new)>(cmp: Cmp<T>, s: seq<T>, t: seq<T>, head: int, os: seq<nat>, n: nat)
    requires TotalPreorder(cmp) && Growing(cmp, s, head, os, n)
    requires os[0] >= 1 && (|os| > 1 ==> os[0] + 2 <= os[1]) && Lasting(n, head, os[0])
    requires t == Trinkled(cmp, s, head, os, false)
    ensures Loose(cmp, t, head, os, n)
  {
    RestIsOrdered(cmp, s, head, os, n);
    TrinkledOrdered(cmp, s, head, os, false);
    OrderedIsLoose(cmp, t, head, os, n);
  }

  /** The trees left of a lasting one, or of the last one of all, are in order. */
  lemma RestIsOrdered<T(!new)>(cmp: Cmp<T>, s: seq<T>, head: int, os: seq<nat>, n: nat)
    requires Growing(cmp, s, head, os, n)
    requires head == n - 1 || (os[0] >= 1 && (|os| > 1 ==> os[0] + 2 <= os[1]) && Lasting(n, head, os[0]))
    ensures FlawedAtFirst(cmp, s, head, os, false)
  {
    hide L, HeapBelow, Loose, Ordered;
    var k, rest := os[0], os[1..];
    if rest != [] {
      var m := rest[0];
      if head == n - 1 {
        LMonotone(k, m - 1);
      } else {
        LMonotone(k + 1, m - 1);
        LThree(k - 1);
      }
      assert forall i :: 0 <= i < |rest| ==> rest[i] == os[i + 1];
    }
    LastingIsOrdered(cmp, s, head - L(k), rest, n);
  }

  /** The tree will be absorbed: making it a heap is enough. */
  lemma GrowPassing<T(!new)>(cmp: Cmp<T>, s: seq<T>, t: seq<T>, head: int, os: seq<nat>, n: nat)
    requires TotalPreorder(cmp) && Growing(cmp, s, head, os, n) && !Lasting(n, head, os[0])
    requires t == Sifted(cmp, s, head, os[0])
    ensures Loose(cmp, t, head, os, n)
  {
    SiftedHeap(cmp, s, head, os[0]);
    SiftedStays(cmp, s, head, os[0], n);
    LooseFrame(cmp, s, t, head - L(os[0]), os[1..], n);
  }

  /** The next element starts a tree of its own. */
  lemma GrowPush<T>(cmp: Cmp<T>, s: seq<T>, head: int, os: seq<nat>, k: nat, n: nat)
    requires Shape(os) && Layout(os, head) && head + 1 < n == |s| && Loose(cmp, s, head, os, n)
    requires os[0] >= 1 && (|os| > 1 ==> os[0] + 2 <= os[1])
    requires k == if os[0] == 1 then 0 else 1
    ensures Growing(cmp, s, head + 1, [k] + os, n)
  {
    assert ([k] + os)[1..] == os;
  }

  // ----- shrinking

  /** Everything beyond head is in place. */
  ghost predicate Placed<T>(cmp: Cmp<T>, s: seq<T>, head: int) {
    forall i, j :: 0 <= i < j < |s| && head < j ==> Le(cmp, s[i], s[j])
  }

  ghost predicate Shrinking<T>(cmp: Cmp<T>, s: seq<T>, head: int, os: seq<nat>) {
    && Shape(os) && Layout(os, head) && head < |s|
    && Ordered(cmp, s, head, os) && Placed(cmp, s, head)
  }

  lemma PlaceRoot<T(!new)>(cmp: Cmp<T>, s: seq<T>, head: int, os: seq<nat>)
    requires TotalPreorder(cmp) && Shrinking(cmp, s, head, os)
    ensures Placed(cmp, s, head - 1)
  {
    forall i | 0 <= i < head
      ensures Le(cmp, s[i], s[head])
    {
      OrderedRootIsMax(cmp, s, head, os, i);
    }
  }

  lemma PrefixMember<T>(s: seq<T>, t: seq<T>, n: nat, i: nat) returns (m: nat)
    requires PermutesPrefix(s, t, n) && i < n
    ensures m < n && s[m] == t[i]
  {
    var a, b := s[..n], t[..n];
    assert b[i] in multiset(b) && multiset(b) == multiset(a);
    assert b[i] in a;
    m :| 0 <= m < n && a[m] == b[i];
  }

  lemma PlacedKept<T>(cmp: Cmp<T>, s: seq<T>, t: seq<T>, head: int)
    requires 0 <= head + 1 <= |s| && Placed(cmp, s, head) && PermutesPrefix(s, t, head + 1)
    ensures Placed(cmp, t, head)
  {
    forall i, j | 0 <= i < j < |t| && head < j
      ensures Le(cmp, t[i], t[j])
    {
      PermutedTail(s, t, head + 1, j);
      if i <= head {
        var m := PrefixMember(s, t, head + 1, i);
        assert Le(cmp, s[m], s[j]);
      } else {
        PermutedTail(s, t, head + 1, i);
        assert Le(cmp, s[i], s[j]);
      }
    }
  }

  lemma PermutedTail<T>(s: seq<T>, t: seq<T>, n: nat, j: nat)
    requires PermutesPrefix(s, t, n) && n <= j < |s|
    ensures t[j] == s[j]
  {
    assert t[n..][j - n] == s[n..][j - n];
  }

  /** A rightmost tree of one element is simply dropped. */
  lemma ShrinkLeaf<T(!new)>(cmp: Cmp<T>, s: seq<T>, head: int, os: seq<nat>)
    requires TotalPreorder(cmp) && Shrinking(cmp, s, head, os) && os[0] <= 1 && |os| > 1
    ensures Shrinking(cmp, s, head - 1, os[1..])
  {
    PlaceRoot(cmp, s, head, os);
  }

  /** A bigger tree gives way to its two children. */
  ghost predicate Split(os: seq<nat>, left: seq<nat>, both: seq<nat>, head: int, lf: int) {
    && os != [] && os[0] >= 2 && lf == Lf(head, os[0])
    && left == [os[0] - 1] + os[1..] && both == [os[0] - 2] + left
  }

  lemma SplitShape(os: seq<nat>, left: seq<nat>, both: seq<nat>, head: int, lf: int)
    requires Split(os, left, both, head, lf) && Shape(os)
    ensures Shape(both)
  {
    assert forall i :: 1 <= i < |os| ==> os[i] == os[1..][i - 1] == both[i + 1];
  }

  lemma SplitLayout(os: seq<nat>, left: seq<nat>, both: seq<nat>, head: int, lf: int)
    requires Split(os, left, both, head, lf) && Layout(os, head)
    ensures Layout(left, lf) && Layout(both, head - 1) && left[1..] == os[1..] && both[1..] == left
    ensures lf - L(left[0]) == head - L(os[0]) && head - 1 - L(both[0]) == lf
  {
    var k := os[0];
    assert L(k) == L(k - 1) + L(k - 2) + 1;
    LayoutCons(k - 1, os[1..], lf);
    LayoutCons(k - 2, left, head - 1);
  }

  /** Its left child is put in order among the roots on the left. */
  lemma ShrinkLeft<T(!new)>(cmp: Cmp<T>, s: seq<T>, t: seq<T>, os: seq<nat>, left: seq<nat>, both: seq<nat>,
                            head: int, lf: int)
    requires TotalPreorder(cmp) && Split(os, left, both, head, lf) && Layout(os, head) && head < |s|
    requires Layout(left, lf) && Layout(both, head - 1)
    requires Ordered(cmp, s, head, os)
    requires t == Trinkled(cmp, s, lf, left, true)
    ensures FlawedAtFirst(cmp, t, head - 1, both, true) && PermutesPrefix(s, t, head)
  {
    hide Trinkled, TotalPreorder, Shape, L;
    var k := os[0];
    SplitLayout(os, left, both, head, lf);
    HeapChildren(cmp, s, head, k, lf, head - 1);
    TrinkledOrdered(cmp, s, lf, left, true);
    TrinkledStays(cmp, s, lf, left, true, head);
    HeapFrame(cmp, s, t, head - 1, k - 2);
  }

  /** Then its right child is. */
  lemma ShrinkSplit<T(!new)>(cmp: Cmp<T>, s: seq<T>, t: seq<T>, u: seq<T>, os: seq<nat>, left: seq<nat>,
                             both: seq<nat>, head: int, lf: int)
    requires TotalPreorder(cmp) && Split(os, left, both, head, lf) && Shrinking(cmp, s, head, os)
    requires Layout(left, lf) && Layout(both, head - 1)
    requires t == Trinkled(cmp, s, lf, left, true)
    requires u == Trinkled(cmp, t, head - 1, both, true)
    ensures Shrinking(cmp, u, head - 1, both) && PermutesPrefix(s, u, head)
  {
    hide Trinkled, TotalPreorder, Shape, L;
    PlaceRoot(cmp, s, head, os);
    SplitShape(os, left, both, head, lf);
    ShrinkLeft(cmp, s, t, os, left, both, head, lf);
    TrinkledOrdered(cmp, t, head - 1, both, true);
    TrinkledStays(cmp, t, head - 1, both, true, head);
    PlacedKept(cmp, s, u, head - 1);
  }
}
