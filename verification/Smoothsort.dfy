/** The sort itself: `cycle`, `sift`, `trinkle` and `lb_qsort` on an array of elements. */
module Smoothsort {
  import opened LeonardoNumbers
  import opened Leonardo
  import opened Words
  import opened LeonardoForest

  /** Capacity of the chain of element pointers `ar`. */
  const CHAIN_CAP: nat := 113

  /** Capacity of the table of Leonardo numbers `lp`. */
  const LP_CAP: nat := 96

  /** Largest object size; the code compares byte distances as signed numbers. */
  const PTRDIFF_LIMIT: nat := 0x8000_0000_0000_0000

  // ----- chains: v is s with the element at ar[0] moved down the chain, the others moved up

  ghost predicate Descending(ar: seq<int>, n: nat) {
    && (forall i :: 0 <= i < |ar| ==> 0 <= ar[i] < n)
    && (forall i, j :: 0 <= i < j < |ar| ==> ar[j] < ar[i])
  }

  ghost predicate Chained<T>(s: seq<T>, v: seq<T>, ar: seq<int>) {
    && |s| == |v| && ar != [] && Descending(ar, |s|)
    && (forall i :: 0 <= i < |s| && i !in ar ==> v[i] == s[i])
    && (forall j :: 0 <= j < |ar| - 1 ==> v[ar[j]] == s[ar[j + 1]])
    && v[ar[|ar| - 1]] == s[ar[0]]
  }

  lemma ChainedUnique<T>(s: seq<T>, v: seq<T>, w: seq<T>, ar: seq<int>)
    requires Chained(s, v, ar) && Chained(s, w, ar)
    ensures v == w
  {
    forall i | 0 <= i < |s|
      ensures v[i] == w[i]
    {
      if i in ar {
        var j :| 0 <= j < |ar| && ar[j] == i;
        assert j < |ar| - 1 ==> v[ar[j]] == s[ar[j + 1]] && w[ar[j]] == s[ar[j + 1]];
      }
    }
  }

  /** Recording one more position is one more swap. */
  lemma ChainGrow<T>(s: seq<T>, v: seq<T>, ar: seq<int>, c: int)
    requires Chained(s, v, ar) && 0 <= c < ar[|ar| - 1]
    ensures Chained(s, Swap(v, ar[|ar| - 1], c), ar + [c])
  {
    var last := ar[|ar| - 1];
    var w, br := Swap(v, last, c), ar + [c];
    assert c !in ar;
    forall j | 0 <= j < |br| - 1
      ensures w[br[j]] == s[br[j + 1]]
    {
      if j < |ar| - 1 {
        assert w[ar[j]] == v[ar[j]] == s[ar[j + 1]];
      }
    }
  }

  lemma ChainReads<T>(s: seq<T>, v: seq<T>, ar: seq<int>)
    requires Chained(s, v, ar)
    ensures v[ar[|ar| - 1]] == s[ar[0]]
    ensures forall i :: 0 <= i < ar[|ar| - 1] ==> v[i] == s[i]
  {
  }

  /** The first i moves of the rotation are done. */
  ghost predicate Rotating<T>(s: seq<T>, v: seq<T>, ar: seq<int>, i: nat)
    requires ar != [] && Descending(ar, |s|) && |s| == |v| && i <= |ar|
  {
    && (forall j :: 0 <= j < i && j < |ar| - 1 ==> v[ar[j]] == s[ar[j + 1]])
    && (i == |ar| ==> v[ar[i - 1]] == s[ar[0]])
    && (forall j :: 0 <= j < |s| && j !in ar ==> v[j] == s[j])
    && (forall j :: i <= j < |ar| ==> v[ar[j]] == s[ar[j]])
  }

  lemma RotateStep<T>(s: seq<T>, v: seq<T>, ar: seq<int>, i: nat)
    requires ar != [] && Descending(ar, |s|) && |s| == |v| && i < |ar| && Rotating(s, v, ar, i)
    ensures i < |ar| - 1 ==> v[ar[i + 1]] == s[ar[i + 1]]
    ensures Rotating(s, v[ar[i] := if i < |ar| - 1 then s[ar[i + 1]] else s[ar[0]]], ar, i + 1)
  {
  }

  /** Rotate the elements along the chain: one temporary, each element moved once. */
  method Cycle<T>(a: array<T>, ar: seq<int>)
    requires ar != [] && Descending(ar, a.Length)
    requires |ar| < CHAIN_CAP
    modifies a
    ensures Chained(old(a[..]), a[..], ar)
  {
    var n := |ar|;
    if n < 2 {
      return;
    }
    ghost var s := a[..];
    var tmp := a[ar[0]];
    for i := 0 to n
      invariant Rotating(s, a[..], ar, i)
    {
      ghost var v := a[..];
      RotateStep(s, v, ar, i);
      a[ar[i]] := if i < n - 1 then a[ar[i + 1]] else tmp;
      assert a[..] == v[ar[i] := if i < n - 1 then s[ar[i + 1]] else s[ar[0]]];
    }
  }

  // ----- the table of Leonardo numbers

  ghost predicate LpOk(lp: seq<int>, n: nat) {
    |lp| == LP_CAP && n < PTRDIFF_LIMIT && forall k :: 0 <= k < LP_CAP && L(k) <= n ==> lp[k] == L(k)
  }

  /** A tree that fits in the array has an order the table covers. */
  lemma OrderBound(k: nat, n: nat)
    requires L(k) <= n < PTRDIFF_LIMIT
    ensures k < 90
    ensures forall m: nat :: m <= k ==> L(m) <= n
  {
    LeonardoExceedsPtrdiff(k);
    forall m: nat | m <= k
      ensures L(m) <= n
    {
      LMonotone(m, k);
    }
  }

  lemma LpEntry(lp: seq<int>, n: nat, k: nat)
    requires LpOk(lp, n) && L(k) <= n
    ensures forall m: nat :: m <= k ==> m < |lp| && lp[m] == L(m)
  {
    OrderBound(k, n);
  }

  method Precompute(n: nat) returns (lp: seq<int>)
    requires n < PTRDIFF_LIMIT
    ensures LpOk(lp, n)
  {
    var t := new int[LP_CAP](_ => 0);
    t[0], t[1] := 1, 1;
    var i := 2;
    t[i] := t[i - 2] + t[i - 1] + 1;
    while t[i] < n
      invariant 2 <= i <= 90
      invariant forall k :: 0 <= k <= i ==> t[k] == L(k)
      decreases 90 - i
    {
      LeonardoExceedsPtrdiff(i);
      i := i + 1;
      t[i] := t[i - 2] + t[i - 1] + 1;
    }
    forall k: nat | k < LP_CAP && L(k) <= n
      ensures t[k] == L(k)
    {
      if k > i {
        LMonotone(i, k);
        assert false;
      }
    }
    lp := t[..];
  }

  // ----- sift and trinkle

  /** While sifting: chain leads from r0 to the hole at r, v has the root's element there,
      and sifting v from r gives what sifting s from r0 gives. */
  ghost predicate Sinking<T>(cmp: Cmp<T>, s: seq<T>, v: seq<T>, chain: seq<int>, r: int, k: nat, goal: seq<T>) {
    && Chained(s, v, chain) && chain[|chain| - 1] == r
    && Fits(v, r, k) && Sifted(cmp, v, r, k) == goal
  }

  lemma SinkStep<T>(cmp: Cmp<T>, s: seq<T>, v: seq<T>, chain: seq<int>, r: int, k: nat, goal: seq<T>,
                    lf: int, rt: int)
    requires Sinking(cmp, s, v, chain, r, k, goal) && k >= 2 && lf == Lf(r, k) && rt == Rt(r)
    ensures 0 <= lf < rt < r < |s| == |v| && 0 <= chain[0] < |s|
    ensures
      if cmp(s[chain[0]], s[lf]) >= 0 && cmp(s[chain[0]], s[rt]) >= 0 then v == goal
      else if cmp(s[lf], s[rt]) >= 0 then Sinking(cmp, s, Swap(v, r, lf), chain + [lf], lf, k - 1, goal)
      else Sinking(cmp, s, Swap(v, r, rt), chain + [rt], rt, k - 2, goal)
  {
    ChainReads(s, v, chain);
    SiftedStep(cmp, v, r, k);
    ChainGrow(s, v, chain, lf);
    ChainGrow(s, v, chain, rt);
  }

  method Sift<T>(a: array<T>, cmp: Cmp<T>, head0: int, pshift0: nat, lp: seq<int>)
    requires L(pshift0) <= head0 + 1 <= a.Length && LpOk(lp, a.Length)
    modifies a
    ensures a[..] == Sifted(cmp, old(a[..]), head0, pshift0)
  {
    OrderBound(pshift0, a.Length);
    var head, pshift := head0, pshift0;
    var ar := [head];
    ghost var s, v := a[..], a[..];
    ghost var goal := Sifted(cmp, s, head, pshift);
    while pshift > 1
      invariant 0 <= pshift <= pshift0 && |ar| <= pshift0 - pshift + 1
      invariant a[..] == s
      invariant Sinking(cmp, s, v, ar, head, pshift, goal)
    {
      var rt := head - 1;
      var lf := head - 1 - lp[pshift - 2];
      SinkStep(cmp, s, v, ar, head, pshift, goal, lf, rt);
      if cmp(a[ar[0]], a[lf]) >= 0 && cmp(a[ar[0]], a[rt]) >= 0 {
        break;
      }
      ghost var hole := head;
      if cmp(a[lf], a[rt]) >= 0 {
        ar := ar + [lf];
        head := lf;
        pshift := pshift - 1;
      } else {
        ar := ar + [rt];
        head := rt;
        pshift := pshift - 2;
      }
      v := Swap(v, hole, head);
    }
    assert v == goal;
    Cycle(a, ar);
    ChainedUnique(s, v, a[..], ar);
  }

  function Rested<T>(cmp: Cmp<T>, v: seq<T>, head: int, k: nat, trusty: bool): seq<T>
    requires Fits(v, head, k)
  {
    if trusty then v else Sifted(cmp, v, head, k)
  }

  /** While trinkling: as in Sinking, with os the trees from the hole leftwards. */
  ghost predicate Moving<T>(cmp: Cmp<T>, s: seq<T>, v: seq<T>, chain: seq<int>,
                            head: int, os: seq<nat>, trusty: bool, goal: seq<T>) {
    && Chained(s, v, chain) && chain[|chain| - 1] == head
    && (trusty ==> v == s)
    && os != [] && Layout(os, head)
    && Trinkled(cmp, v, head, os, trusty) == goal
  }

  /** The element x, on its way left, stops at head: the next root does not come in. */
  predicate StaysPut<T>(cmp: Cmp<T>, s: seq<T>, x: T, head: int, k: nat, trusty: bool)
    requires Fits(s, head, k) && L(k) <= head
  {
    var stepson := head - L(k);
    || cmp(s[stepson], x) <= 0
    || (!trusty && k > 1 && (cmp(s[Rt(head)], s[stepson]) >= 0 || cmp(s[Lf(head, k)], s[stepson]) >= 0))
  }

  lemma MovingStep<T>(cmp: Cmp<T>, s: seq<T>, v: seq<T>, chain: seq<int>,
                      head: int, os: seq<nat>, trusty: bool, goal: seq<T>, stepson: int, rest: seq<nat>)
    requires Moving(cmp, s, v, chain, head, os, trusty, goal)
    requires os[1..] == rest != [] && stepson == head - L(os[0])
    ensures 0 <= stepson < head < |s| == |v|
    ensures if StaysPut(cmp, s, s[chain[0]], head, os[0], trusty)
            then goal == Rested(cmp, v, head, os[0], trusty)
            else Moving(cmp, s, Swap(v, head, stepson), chain + [stepson], stepson, rest, false, goal)
  {
    ChainReads(s, v, chain);
    ChainGrow(s, v, chain, stepson);
  }

  lemma MovingLast<T>(cmp: Cmp<T>, s: seq<T>, v: seq<T>, chain: seq<int>,
                      head: int, k: nat, trusty: bool, goal: seq<T>)
    requires Moving(cmp, s, v, chain, head, [k], trusty, goal)
    ensures Fits(v, head, k) && goal == Rested(cmp, v, head, k, trusty)
  {
  }

  /** The same with the trees given by (p, pshift) and the table of sizes at hand. */
  ghost predicate Trinkling<T>(cmp: Cmp<T>, s: seq<T>, v: seq<T>, chain: seq<int>, head: int,
                               p: nat, pshift: nat, trusty: bool, goal: seq<T>, lp: seq<int>) {
    && p > 0 && p % 2 == 1 && LpOk(lp, |s|)
    && Moving(cmp, s, v, chain, head, Orders(p, pshift), trusty, goal)
  }

  lemma TrinklingIs<T>(cmp: Cmp<T>, s: seq<T>, v: seq<T>, chain: seq<int>, head: int,
                       p: nat, pshift: nat, trusty: bool, goal: seq<T>, lp: seq<int>)
    ensures Trinkling(cmp, s, v, chain, head, p, pshift, trusty, goal, lp) <==>
      p % 2 == 1 && LpOk(lp, |s|) && Moving(cmp, s, v, chain, head, Orders(p, pshift), trusty, goal)
  {
  }

  lemma TrinkleStart<T>(cmp: Cmp<T>, s: seq<T>, head: int,
                        p: nat, pshift: nat, trusty: bool, goal: seq<T>, lp: seq<int>)
    requires p % 2 == 1 && Layout(Orders(p, pshift), head) && head < |s| && LpOk(lp, |s|)
    requires goal == Trinkled(cmp, s, head, Orders(p, pshift), trusty)
    ensures Trinkling(cmp, s, s, [head], head, p, pshift, trusty, goal, lp)
  {
  }

  lemma StaysPutIs<T>(cmp: Cmp<T>, s: seq<T>, x: T, head: int, k: nat, trusty: bool, stepson: int, lf: int)
    requires Fits(s, head, k) && L(k) <= head && stepson == head - L(k)
    requires k > 1 ==> 0 <= lf < head - 1 && lf == Lf(head, k)
    ensures StaysPut(cmp, s, x, head, k, trusty) <==>
      || cmp(s[stepson], x) <= 0
      || (!trusty && k > 1 && (cmp(s[head - 1], s[stepson]) >= 0 || cmp(s[lf], s[stepson]) >= 0))
  {
  }

  lemma RestedIs<T>(cmp: Cmp<T>, v: seq<T>, head: int, k: nat, trusty: bool)
    requires Fits(v, head, k)
    ensures Rested(cmp, v, head, k, trusty) == if trusty then v else Sifted(cmp, v, head, k)
  {
  }

  lemma TrinkleFacts<T>(cmp: Cmp<T>, s: seq<T>, v: seq<T>, chain: seq<int>, head: int,
                        p: nat, pshift: nat, trusty: bool, goal: seq<T>, lp: seq<int>)
    requires Trinkling(cmp, s, v, chain, head, p, pshift, trusty, goal, lp)
    ensures Chained(s, v, chain) && chain != [] && Descending(chain, |s|) && 0 <= chain[0] < |s|
    ensures LpOk(lp, |s|) && pshift < |lp| && |s| == |v|
    ensures p > 0 && p % 2 == 1 && pshift + 1 < CHAIN_CAP && lp[pshift] == L(pshift)
    ensures Fits(v, head, pshift) && Fits(s, head, pshift) && L(pshift) <= head + 1 <= |s|
    ensures pshift >= 2 ==>
      var lf := head - 1 - lp[pshift - 2];
      0 <= lf < head - 1 && lf == Lf(head, pshift)
    ensures trusty ==> v == s
  {
    OrderBound(pshift, |s|);
  }

  lemma TrinkleStep<T>(cmp: Cmp<T>, s: seq<T>, v: seq<T>, chain: seq<int>, head: int,
                       p: nat, pshift: nat, trusty: bool, goal: seq<T>, lp: seq<int>,
                       stepson: int, n: nat)
    requires Trinkling(cmp, s, v, chain, head, p, pshift, trusty, goal, lp) && p > 1
    requires stepson == head - L(pshift) && n == Pntz(p)
    ensures var x := s[chain[0]];
      && 0 <= stepson < head < |s| == |v| && L(pshift) <= head
      && if StaysPut(cmp, s, x, head, pshift, trusty)
         then goal == Rested(cmp, v, head, pshift, trusty)
         else n >= 1 && Shr(p, n) < p && Trinkling(cmp, s, Swap(v, head, stepson), chain + [stepson],
                                  stepson, Shr(p, n), pshift + n, false, goal, lp)
  {
    hide *;
    TrinkleFacts(cmp, s, v, chain, head, p, pshift, trusty, goal, lp);
    TrinklingIs(cmp, s, v, chain, head, p, pshift, trusty, goal, lp);
    NextTree(p, pshift);
    var rest := Orders(Shr(p, n), pshift + n);
    assert Orders(p, pshift)[1..] == rest;
    MovingStep(cmp, s, v, chain, head, Orders(p, pshift), trusty, goal, stepson, rest);
    TrinklingIs(cmp, s, Swap(v, head, stepson), chain + [stepson], stepson, Shr(p, n), pshift + n, false, goal, lp);
  }

  lemma TrinkleLast<T>(cmp: Cmp<T>, s: seq<T>, v: seq<T>, chain: seq<int>, head: int,
                       p: nat, pshift: nat, trusty: bool, goal: seq<T>, lp: seq<int>)
    requires Trinkling(cmp, s, v, chain, head, p, pshift, trusty, goal, lp) && p == 1
    ensures Fits(v, head, pshift) && goal == Rested(cmp, v, head, pshift, trusty)
  {
    OrdersOne(pshift);
    MovingLast(cmp, s, v, chain, head, pshift, trusty, goal);
  }

  method Trinkle<T>(a: array<T>, cmp: Cmp<T>, head0: int, pp: nat, pshift0: nat, trusty0: bool, lp: seq<int>)
    requires pp % 2 == 1 && Layout(Orders(pp, pshift0), head0) && head0 < a.Length && LpOk(lp, a.Length)
    modifies a
    ensures a[..] == Trinkled(cmp, old(a[..]), head0, Orders(pp, pshift0), trusty0)
  {
    hide *;
    var head, trusty := head0, trusty0;
    var p: nat, pshift: nat := pp, pshift0;
    var ar := [head];
    ghost var s, v := a[..], a[..];
    ghost var goal := Trinkled(cmp, s, head, Orders(p, pshift), trusty);
    TrinkleStart(cmp, s, head, p, pshift, trusty, goal, lp);
    while p != 1
      invariant a[..] == s
      invariant |ar| <= pshift - pshift0 + 1
      invariant Trinkling(cmp, s, v, ar, head, p, pshift, trusty, goal, lp)
      decreases p
    {
      TrinkleFacts(cmp, s, v, ar, head, p, pshift, trusty, goal, lp);
      var stepson := head - lp[pshift];
      TrinkleStep(cmp, s, v, ar, head, p, pshift, trusty, goal, lp, stepson, Pntz(p));
      StaysPutIs(cmp, s, s[ar[0]], head, pshift, trusty, stepson,
                 if pshift > 1 then head - 1 - lp[pshift - 2] else 0);
      if cmp(a[stepson], a[ar[0]]) <= 0 {
        break;
      }
      if !trusty && pshift > 1 {
        var rt := head - 1;
        var lf := head - 1 - lp[pshift - 2];
        if cmp(a[rt], a[stepson]) >= 0 || cmp(a[lf], a[stepson]) >= 0 {
          break;
        }
      }
      v := Swap(v, head, stepson);
      ar := ar + [stepson];
      head := stepson;
      var trail := Pntz(p);
      p := Shr(p, trail);
      pshift := pshift + trail;
      trusty := false;
    }
    TrinkleFacts(cmp, s, v, ar, head, p, pshift, trusty, goal, lp);
    if p == 1 {
      TrinkleLast(cmp, s, v, ar, head, p, pshift, trusty, goal, lp);
    }
    assert goal == Rested(cmp, v, head, pshift, trusty);
    RestedIs(cmp, v, head, pshift, trusty);
    if !trusty {
      Cycle(a, ar);
      ChainedUnique(s, v, a[..], ar);
      Sift(a, cmp, head, pshift, lp);
    }
  }
}
