/** `lb_qsort`: grow a forest over the whole array, then take it apart from the right. */
module Qsort {
  import opened LeonardoNumbers
  import opened Leonardo
  import opened Words
  import opened LeonardoForest
  import opened ForestRuns
  import opened Smoothsort

  ghost predicate Sorted<T>(cmp: Cmp<T>, s: seq<T>) {
    forall i, j :: 0 <= i < j < |s| ==> Le(cmp, s[i], s[j])
  }

  ghost predicate GrowState<T>(cmp: Cmp<T>, s: seq<T>, head: int, p: nat, pshift: nat, n: nat) {
    && p % 2 == 1 && 0 <= head
    && Growing(cmp, s, head, Orders(p, pshift), n)
  }

  lemma GrowFacts<T>(cmp: Cmp<T>, s: seq<T>, head: int, p: nat, pshift: nat, n: nat)
    requires GrowState(cmp, s, head, p, pshift, n)
    ensures Growing(cmp, s, head, Orders(p, pshift), n) && Shape(Orders(p, pshift)) && p % 2 == 1 && 0 <= head
    ensures head < n == |s| && Fits(s, head, pshift) && L(pshift) <= head + 1 && Layout(Orders(p, pshift), head)
    ensures Orders(p, pshift)[0] == pshift
    ensures p % 4 != 3 ==> pshift >= 1
    ensures p % 4 != 3 && |Orders(p, pshift)| > 1 ==> pshift + 2 <= Orders(p, pshift)[1]
  {
    hide Orders;
    OrdersHead(p, pshift);
  }

  lemma MergeState<T(!new)>(cmp: Cmp<T>, s: seq<T>, t: seq<T>, head: int, p: nat, pshift: nat, n: nat)
    requires TotalPreorder(cmp) && GrowState(cmp, s, head, p, pshift, n) && p % 4 == 3 && head + 1 < n
    requires Fits(s, head, pshift) && t == Sifted(cmp, s, head, pshift)
    ensures GrowState(cmp, t, head + 1, Or(Shr(p, 2), 1), pshift + 2, n) && PermutesPrefix(s, t, n)
  {
    SiftedStays(cmp, s, head, pshift, n);
    var os, rest := Orders(p, pshift), Orders(Shr(p, 2), pshift + 2);
    OrdersAdjacent(p, pshift);
    assert os[1..][1..] == rest;
    assert rest != [] ==> rest[0] == os[2] && os[1] + 2 <= os[2];
    OrdersOr1(Shr(p, 2), pshift + 2);
    GrowMerge(cmp, s, t, head, os, [pshift + 2] + rest, n);
  }

  lemma LastingState<T(!new)>(cmp: Cmp<T>, s: seq<T>, t: seq<T>, head: int, p: nat, pshift: nat, n: nat)
    requires TotalPreorder(cmp) && GrowState(cmp, s, head, p, pshift, n) && p % 4 != 3
    requires pshift >= 1 && L(pshift - 1) >= n - 1 - head
    requires Layout(Orders(p, pshift), head) && t == Trinkled(cmp, s, head, Orders(p, pshift), false)
    ensures Loose(cmp, t, head, Orders(p, pshift), n) && PermutesPrefix(s, t, n)
  {
    GrowFacts(cmp, s, head, p, pshift, n);
    TrinkledStays(cmp, s, head, Orders(p, pshift), false, n);
    GrowLasting(cmp, s, t, head, Orders(p, pshift), n);
  }

  lemma PassingState<T(!new)>(cmp: Cmp<T>, s: seq<T>, t: seq<T>, head: int, p: nat, pshift: nat, n: nat)
    requires TotalPreorder(cmp) && GrowState(cmp, s, head, p, pshift, n)
    requires pshift >= 1 && L(pshift - 1) < n - 1 - head
    requires Fits(s, head, pshift) && Layout(Orders(p, pshift), head) && t == Sifted(cmp, s, head, pshift)
    ensures Loose(cmp, t, head, Orders(p, pshift), n) && PermutesPrefix(s, t, n)
  {
    SiftedStays(cmp, s, head, pshift, n);
    GrowPassing(cmp, s, t, head, Orders(p, pshift), n);
  }

  lemma PushState<T>(cmp: Cmp<T>, s: seq<T>, head: int, p: nat, pshift: nat, n: nat, q: nat, k: nat)
    requires p % 2 == 1 && pshift >= 1 && 0 <= head < n - 1 && n == |s|
    requires Shape(Orders(p, pshift)) && Layout(Orders(p, pshift), head)
    requires Loose(cmp, s, head, Orders(p, pshift), n)
    requires |Orders(p, pshift)| > 1 ==> pshift + 2 <= Orders(p, pshift)[1]
    requires if pshift == 1 then q == Shl(p, 1) && k == 0 else q == Shl(p, pshift - 1) && k == 1
    ensures GrowState(cmp, s, head + 1, Or(q, 1), k, n)
  {
    var m := pshift - k;
    assert q == Shl(p, m);
    OrdersShl(p, m, k);
    OrdersOr1(q, k);
    GrowPush(cmp, s, head, Orders(p, pshift), k, n);
  }

  lemma GrowStart<T>(cmp: Cmp<T>, s: seq<T>)
    requires s != []
    ensures GrowState(cmp, s, 0, 1, 1, |s|)
  {
    OrdersOne(1);
  }

  ghost predicate ShrinkState<T>(cmp: Cmp<T>, s: seq<T>, head: int, p: nat, pshift: nat) {
    p % 2 == 1 && 0 <= head && Shrinking(cmp, s, head, Orders(p, pshift))
  }

  lemma ShrinkFacts<T>(cmp: Cmp<T>, s: seq<T>, head: int, p: nat, pshift: nat)
    requires ShrinkState(cmp, s, head, p, pshift)
    ensures Shrinking(cmp, s, head, Orders(p, pshift)) && Layout(Orders(p, pshift), head) && p % 2 == 1 && 0 <= head
    ensures head < |s| && L(pshift) <= head + 1 && Orders(p, pshift)[0] == pshift
    ensures p == 1 && pshift == 1 ==> head == 0 && Placed(cmp, s, 0)
    ensures pshift <= 1 && !(p == 1 && pshift == 1) ==> p > 1
  {
    if p == 1 {
      OrdersOne(pshift);
    }
  }

  lemma LeafState<T(!new)>(cmp: Cmp<T>, s: seq<T>, head: int, p: nat, pshift: nat)
    requires TotalPreorder(cmp) && ShrinkState(cmp, s, head, p, pshift) && pshift <= 1 && p > 1
    ensures ShrinkState(cmp, s, head - 1, Shr(p, Pntz(p)), pshift + Pntz(p))
  {
    var os, rest := Orders(p, pshift), Orders(Shr(p, Pntz(p)), pshift + Pntz(p));
    NextTree(p, pshift);
    assert os[1..] == rest;
    ShrinkLeaf(cmp, s, head, os);
    assert Layout(rest, head - 1);
  }

  lemma SplitState<T(!new)>(cmp: Cmp<T>, s: seq<T>, t: seq<T>, u: seq<T>, head: int,
                            p: nat, q: nat, r: nat, k: nat, lf: int)
    requires TotalPreorder(cmp) && ShrinkState(cmp, s, head, p, k + 2) && q % 2 == 1 && r % 2 == 1
    requires Split(Orders(p, k + 2), Orders(q, k + 1), Orders(r, k), head, lf)
    requires Layout(Orders(q, k + 1), lf) && Layout(Orders(r, k), head - 1) && lf < head < |s|
    requires t == Trinkled(cmp, s, lf, Orders(q, k + 1), true)
    requires u == Trinkled(cmp, t, head - 1, Orders(r, k), true)
    ensures ShrinkState(cmp, u, head - 1, r, k) && PermutesPrefix(s, u, head)
  {
    ShrinkSplit(cmp, s, t, u, Orders(p, k + 2), Orders(q, k + 1), Orders(r, k), head, lf);
  }

  /** Before the last loop the forest is in order but for the last tree. */
  lemma GrownIsFlawedAtFirst<T(!new)>(cmp: Cmp<T>, s: seq<T>, t: seq<T>, head: int, p: nat, pshift: nat, n: nat)
    requires TotalPreorder(cmp) && GrowState(cmp, s, head, p, pshift, n) && head == n - 1
    requires Layout(Orders(p, pshift), head) && t == Trinkled(cmp, s, head, Orders(p, pshift), false)
    ensures ShrinkState(cmp, t, head, p, pshift) && PermutesPrefix(s, t, n)
  {
    var os := Orders(p, pshift);
    RestIsOrdered(cmp, s, head, os, n);
    TrinkledOrdered(cmp, s, head, os, false);
    TrinkledStays(cmp, s, head, os, false, n);
  }

  /** The trees before and after the root of a bigger tree goes; k is its right child's order. */
  lemma SplitOrders(p: nat, k: nat, head: int, q: nat, r: nat, lf: int)
    requires p % 2 == 1 && Layout(Orders(p, k + 2), head) && lf == head - L(k) - 1
    requires q == Shr(Xor(Shl(p, 2), 7), 1) && r == Or(Shl(q, 1), 1)
    ensures q % 2 == 1 && r % 2 == 1 && Orders(p, k + 2)[0] == k + 2
    ensures Split(Orders(p, k + 2), Orders(q, k + 1), Orders(r, k), head, lf)
    ensures Layout(Orders(q, k + 1), lf) && Layout(Orders(r, k), head - 1) && lf < head
  {
    OrdersSplitLeft(p, k + 2);
    OrdersSplitRight(q, k);
    SplitLayout(Orders(p, k + 2), Orders(q, k + 1), Orders(r, k), head, lf);
  }

  lemma SortedIfPlaced<T>(cmp: Cmp<T>, s: seq<T>)
    requires Placed(cmp, s, 0) || s == []
    ensures Sorted(cmp, s)
  {
  }

  /** `t` holds what `s` held. */
  ghost predicate Permutes<T>(s: seq<T>, t: seq<T>) {
    |s| == |t| && multiset(s) == multiset(t)
  }

  lemma ThenPermutes<T>(s: seq<T>, t: seq<T>, u: seq<T>, n: nat)
    requires Permutes(s, t) && PermutesPrefix(t, u, n)
    ensures Permutes(s, u)
  {
    assert t == t[..n] + t[n..] && u == u[..n] + u[n..];
  }

  lemma PermutesSelf<T>(s: seq<T>)
    ensures Permutes(s, s)
  {
  }

  /** Any array, any total preorder: sorted, and a permutation of what it held. */
  method Qsort<T(!new)>(a: array<T>, cmp: Cmp<T>)
    requires TotalPreorder(cmp) && a.Length < PTRDIFF_LIMIT
    modifies a
    ensures Sorted(cmp, a[..])
    ensures Permutes(old(a[..]), a[..])
  {
    hide *;
    ghost var s0 := a[..];
    PermutesSelf(s0);
    var n := a.Length;
    if n == 0 {
      SortedIfPlaced(cmp, s0);
      return;
    }
    var lp := Precompute(n);
    var head, high := 0, n - 1;
    var p: nat, pshift: nat := 1, 1;
    GrowStart(cmp, s0);
    while head < high
      invariant head <= high && GrowState(cmp, a[..], head, p, pshift, n)
      invariant Permutes(s0, a[..])
    {
      ghost var s, p0, k0 := a[..], p, pshift;
      GrowFacts(cmp, s, head, p, pshift, n);
      LpEntry(lp, n, pshift);
      if p % 4 == 3 {
        Sift(a, cmp, head, pshift, lp);
        MergeState(cmp, s, a[..], head, p, pshift, n);
        p := Shr(p, 2);
        pshift := pshift + 2;
      } else {
        if lp[pshift - 1] >= high - head {
          Trinkle(a, cmp, head, p, pshift, false, lp);
          LastingState(cmp, s, a[..], head, p, pshift, n);
        } else {
          Sift(a, cmp, head, pshift, lp);
          PassingState(cmp, s, a[..], head, p, pshift, n);
        }
        if pshift == 1 {
          p := Shl(p, 1);
          pshift := 0;
        } else {
          p := Shl(p, pshift - 1);
          pshift := 1;
        }
        PushState(cmp, a[..], head, p0, k0, n, p, pshift);
      }
      ThenPermutes(s0, s, a[..], n);
      p := Or(p, 1);
      head := head + 1;
    }

    ghost var grown := a[..];
    GrowFacts(cmp, grown, head, p, pshift, n);
    Trinkle(a, cmp, head, p, pshift, false, lp);
    GrownIsFlawedAtFirst(cmp, grown, a[..], head, p, pshift, n);
    ThenPermutes(s0, grown, a[..], n);

    while pshift != 1 || p != 1
      invariant head < n && ShrinkState(cmp, a[..], head, p, pshift)
      invariant Permutes(s0, a[..])
      decreases head
    {
      ghost var s, p0, k0 := a[..], p, pshift;
      ShrinkFacts(cmp, s, head, p, pshift);
      if pshift <= 1 {
        LeafState(cmp, s, head, p, pshift);
        var trail := Pntz(p);
        p := Shr(p, trail);
        pshift := pshift + trail;
      } else {
        LpEntry(lp, n, pshift);
        p := Shl(p, 2);
        pshift := pshift - 2;
        p := Xor(p, 7);
        p := Shr(p, 1);
        var lf := head - lp[pshift] - 1;
        ghost var q, r := p, Or(Shl(p, 1), 1);
        SplitOrders(p0, pshift, head, q, r, lf);
        Trinkle(a, cmp, lf, p, pshift + 1, true, lp);
        ghost var t := a[..];
        p := Shl(p, 1);
        p := Or(p, 1);
        Trinkle(a, cmp, head - 1, p, pshift, true, lp);
        SplitState(cmp, s, t, a[..], head, p0, q, r, pshift, lf);
        ThenPermutes(s0, s, a[..], head);
      }
      head := head - 1;
    }
    ShrinkFacts(cmp, a[..], head, p, pshift);
    SortedIfPlaced(cmp, a[..]);
  }
}
