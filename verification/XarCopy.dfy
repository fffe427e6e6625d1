/** Copying the files of one archive into another, with two stacks to remember where the
    copies of a file's ancestors are: the loop of `replace_sign`. */
module XarCopy {
  import opened Wrappers
  import opened XarTree

  ghost function Head(es: seq<Node>): Node? { if es == [] then null else es[0] }

  ghost function After(es: seq<Node>, j: nat): Node? { if j + 1 < |es| then es[j + 1] else null }

  /** A list of siblings: no node twice, each linked to the next. */
  ghost predicate Siblings(es: seq<Node>, parent: Node?)
    reads es`parent, es`next
  {
    && (forall j :: 0 <= j < |es| ==> es[j].parent == parent && es[j].next == After(es, j))
    && (forall i, j :: 0 <= i < j < |es| ==> es[i] != es[j])
  }

  /** A node goes behind the last of its siblings. */
  method LinkLast(f: Node, parent: Node, ghost es: seq<Node>)
    requires Siblings(es, parent) && parent.children == Head(es)
    requires f !in es && f.parent == parent && f.next == null && f != parent
    modifies es`next, parent`children
    ensures Siblings(es + [f], parent) && parent.children == Head(es + [f])
    ensures forall j :: 0 <= j < |es| - 1 ==> es[j].next == old(es[j].next)
  {
    if parent.children == null {
      parent.children := f;
    } else {
      var i := parent.children;
      ghost var j := 0;
      while i.next != null
        invariant 0 <= j < |es| && i == es[j]
        decreases |es| - j
      {
        i := i.next;
        j := j + 1;
      }
      i.next := f;
    }
  }

  /** The list below a file. */
  ghost predicate ListAt(p: Node, es: seq<Node>, all: set<Node>)
    reads es`parent, es`next, p`children
  {
    (forall j :: 0 <= j < |es| ==> es[j] in all) && p.children == Head(es) && Siblings(es, p)
  }

  lemma Wider(p: Node, es: seq<Node>, all: set<Node>, more: set<Node>)
    requires ListAt(p, es, all) && all <= more
    ensures ListAt(p, es, more)
  {
  }

  lemma Childless(p: Node, all: set<Node>)
    requires p.children == null
    ensures ListAt(p, [], all)
  {
  }

  lemma NewFirst(f: Node, es: seq<Node>)
    requires Siblings(es, null) && f.parent == null && f.next == Head(es) && f !in es
    ensures Siblings([f] + es, null)
  {
    var all := [f] + es;
    forall j | 0 <= j < |all| ensures all[j].parent == null && all[j].next == After(all, j) {
      assert j > 0 ==> all[j] == es[j - 1] && After(all, j) == After(es, j - 1);
    }
  }

  /** No file is below two. */
  lemma OneParent(p: Node, es: seq<Node>, q: Node?, ds: seq<Node>)
    requires Siblings(es, p) && Siblings(ds, q) && p != q
    ensures forall x :: x in es ==> x !in ds
  {
  }

  class FileList {
    var files: Node?
    /** The files, the list of roots, and the list below each file. */
    ghost var all: set<Node>
    ghost var roots: seq<Node>
    ghost var below: map<Node, seq<Node>>

    constructor ()
      ensures Valid() && all == {} && roots == []
    {
      files, all, roots, below := null, {}, [], map[];
    }

    ghost predicate Valid()
      reads this, all`parent, all`next, all`children
    {
      && files == Head(roots) && (forall j :: 0 <= j < |roots| ==> roots[j] in all) && Siblings(roots, null)
      && below.Keys == all
      && forall p :: p in all ==> (forall j :: 0 <= j < |below[p]| ==> below[p][j] in all) && ListAt(p, below[p], all)
    }

    lemma ValidFacts()
      requires Valid()
      ensures files == Head(roots) && (forall j :: 0 <= j < |roots| ==> roots[j] in all) && Siblings(roots, null)
      ensures below.Keys == all && forall p :: p in all ==> p in below && ListAt(p, below[p], all)
      ensures forall p :: p in all ==> Siblings(below[p], p) && p.children == Head(below[p])
    {
    }

    lemma IsValid()
      requires files == Head(roots) && (forall j :: 0 <= j < |roots| ==> roots[j] in all) && Siblings(roots, null)
      requires below.Keys == all && forall p :: p in all ==> ListAt(p, below[p], all)
      ensures Valid()
    {
    }

    /** A file without parent goes before the other roots: the end of `xar_add_from_archive`. */
    method AddRoot(key: string) returns (f: Node)
      requires Valid()
      modifies this`files, this`all, this`roots, this`below
      ensures Valid() && fresh(f) && f.key == key && f.parent == null && all == old(all) + {f}
      ensures roots == [f] + old(roots) && below == old(below)[f := []]
    {
      hide *;
      ValidFacts();
      ghost var nodes, was: map<Node, seq<Node>> := all, below;
      f := new Node(key);
      if files != null {
        f.next := files;
      }
      files := f;
      NewFirst(f, roots);
      roots, below, all := [f] + roots, below[f := []], all + {f};
      FirstOf(f, roots);
      forall p | p in all ensures ListAt(p, below[p], all) {
        if p == f {
          Childless(f, all);
        } else {
          Wider(p, was[p], nodes, all);
        }
      }
      IsValid();
    }

    lemma FirstOf(f: Node, es: seq<Node>)
      requires es != [] && es[0] == f
      ensures Head(es) == f
    {
    }

    /** No list is touched by adding to the one below the parent. */
    lemma Elsewhere(parent: Node)
      requires Valid() && parent in all
      ensures forall p, j :: p in all && p != parent && 0 <= j < |below[p]| ==> below[p][j] !in below[parent]
      ensures forall j :: 0 <= j < |roots| ==> roots[j] !in below[parent]
    {
      ValidFacts();
      hide Valid, ListAt;
      forall p, j | p in all && p != parent && 0 <= j < |below[p]| ensures below[p][j] !in below[parent] {
        OneParent(p, below[p], parent, below[parent]);
      }
      RootsElsewhere(parent);
    }

    lemma RootsElsewhere(parent: Node)
      requires Siblings(roots, null) && parent in below && Siblings(below[parent], parent)
      ensures forall j :: 0 <= j < |roots| ==> roots[j] !in below[parent]
    {
    }

    /** A file with one goes behind its siblings: `xar_file_new`. */
    method AddChild(key: string, parent: Node) returns (f: Node)
      requires Valid() && parent in all
      modifies this`all, this`below, all`next, all`children
      ensures Valid() && fresh(f) && f.key == key && f.parent == parent && all == old(all) + {f}
      ensures parent in old(below) && below == old(below)[f := []][parent := old(below)[parent] + [f]]
    {
      hide *;
      ValidFacts();
      Elsewhere(parent);
      ghost var nodes, was: map<Node, seq<Node>> := all, below;
      ghost var es: seq<Node> := below[parent];
      ListMembers(parent, es, nodes);
      f := new Node(key);
      f.parent := parent;
      LinkLast(f, parent, es);
      assert forall p :: p in nodes && p != parent ==> ListAt(p, was[p], nodes);
      below, all := below[f := []][parent := es + [f]], all + {f};
      forall p | p in all ensures ListAt(p, below[p], all) {
        if p == f {
          Childless(f, all);
        } else if p == parent {
          IsListAt(parent, es + [f], all);
        } else {
          Wider(p, was[p], nodes, all);
        }
      }
      IsValid();
    }

    lemma ListMembers(p: Node, es: seq<Node>, nodes: set<Node>)
      requires ListAt(p, es, nodes)
      ensures (forall j :: 0 <= j < |es| ==> es[j] in nodes)
    {
    }

    lemma IsListAt(p: Node, es: seq<Node>, nodes: set<Node>)
      requires (forall j :: 0 <= j < |es| ==> es[j] in nodes) && p.children == Head(es) && Siblings(es, p)
      ensures ListAt(p, es, nodes)
    {
    }
  }

  // ----- which copies belong where

  /** The parents of the nodes, in the order of the visits. */
  ghost function Parents(w: Forest, parent: Node?): seq<Node?> {
    if w.Empty? then [] else [parent] + Parents(w.kids, w.f) + Parents(w.rest, parent)
  }

  lemma {:induction false} ParentsAre(w: Forest, parent: Node?, above: seq<string>, all: set<Node>)
    requires Linked(w, parent, all)
    ensures |Parents(w, parent)| == |PreOrder(w, above)|
    ensures forall i :: 0 <= i < |PreOrder(w, above)| ==>
      PreOrder(w, above)[i].f in all && PreOrder(w, above)[i].f.parent == Parents(w, parent)[i]
    decreases w
  {
    if w.Cell? {
      ParentsAre(w.kids, w.f, above + [w.f.key], all);
      ParentsAre(w.rest, parent, above, all);
    }
  }

  /** Where the children of p are, among nodes with these parents. */
  ghost function Places(par: seq<Node?>, p: Node?): (ix: seq<nat>)
    ensures forall j :: 0 <= j < |ix| ==> ix[j] < |par| && par[ix[j]] == p
  {
    if par == [] then []
    else
      var n := |par| - 1;
      Places(par[..n], p) + if par[n] == p then [n] else []
  }

  ghost function Pick(ns: seq<Node>, ix: seq<nat>): (r: seq<Node>)
    requires forall j :: 0 <= j < |ix| ==> ix[j] < |ns|
    ensures |r| == |ix| && forall j :: 0 <= j < |r| ==> r[j] == ns[ix[j]]
  {
    seq(|ix|, j requires 0 <= j < |ix| => ns[ix[j]])
  }

  ghost function Reversed(ns: seq<Node>): (r: seq<Node>)
    ensures |r| == |ns| && forall j :: 0 <= j < |r| ==> r[j] == ns[|ns| - 1 - j]
  {
    seq(|ns|, j requires 0 <= j < |ns| => ns[|ns| - 1 - j])
  }

  /** The copies made so far: each has the key of what it is a copy of, below it the copies of
      that one's children in their order; the roots are in reverse. */
  ghost predicate CopiedTo(below: map<Node, seq<Node>>, roots: seq<Node>, all: set<Node>, visits: seq<Visit>,
                           par: seq<Node?>, copies: seq<Node>) {
    && |copies| == |par| <= |visits|
    && (forall k :: 0 <= k < |copies| ==> copies[k] in all && copies[k] in below && copies[k].key == visits[k].f.key)
    && (forall j, k :: 0 <= j < k < |copies| ==> copies[j] != copies[k])
    && (forall k :: 0 <= k < |copies| ==> below[copies[k]] == Pick(copies, Places(par, visits[k].f)))
    && roots == Reversed(Pick(copies, Places(par, null)))
  }

  lemma PlacesMore(par: seq<Node?>, p: Node?, q: Node?)
    ensures Places(par + [p], q) == Places(par, q) + if p == q then [|par|] else []
  {
    assert (par + [p])[..|par|] == par;
  }

  lemma PickMore(ns: seq<Node>, f: Node, par: seq<Node?>, p: Node?, q: Node?)
    requires |ns| == |par|
    ensures Pick(ns + [f], Places(par + [p], q)) == Pick(ns, Places(par, q)) + if p == q then [f] else []
  {
    PlacesMore(par, p, q);
  }

  lemma ReversedMore(ns: seq<Node>, f: Node)
    ensures Reversed(ns + [f]) == [f] + Reversed(ns)
  {
  }

  /** A copy more. Nothing below it yet: in a forest no node has been visited before its parent. */
  lemma OneMore(below: map<Node, seq<Node>>, now: map<Node, seq<Node>>, roots: seq<Node>, rootsNow: seq<Node>,
                all: set<Node>, visits: seq<Visit>, par: seq<Node?>, p: Node?, copies: seq<Node>, f: Node)
    requires CopiedTo(below, roots, all, visits, par, copies) && f !in all && |par| < |visits|
    requires f.key == visits[|par|].f.key
    requires forall k :: 0 <= k < |par| ==> par[k] != visits[|par|].f
    requires p != visits[|par|].f
    requires p == null ==> rootsNow == [f] + roots && now == below[f := []]
    requires p != null ==> rootsNow == roots && exists k :: (0 <= k < |copies| && visits[k].f == p &&
      now == below[f := []][copies[k] := below[copies[k]] + [f]])
    requires forall j, k :: 0 <= j < k < |visits| ==> visits[j].f != visits[k].f
    ensures CopiedTo(now, rootsNow, all + {f}, visits, par + [p], copies + [f])
  {
    hide Places, Reversed;
    var cs, ps, n := copies + [f], par + [p], |par|;
    NoPlaces(par, visits[n].f);
    forall k | 0 <= k < |cs| ensures cs[k] in now && now[cs[k]] == Pick(cs, Places(ps, visits[k].f)) {
      PickMore(copies, f, par, p, visits[k].f);
      assert k < n ==> cs[k] == copies[k];
    }
    PickMore(copies, f, par, p, null);
    ReversedMore(Pick(copies, Places(par, null)), f);
  }

  lemma NoPlaces(par: seq<Node?>, p: Node?)
    requires forall k :: 0 <= k < |par| ==> par[k] != p
    ensures Places(par, p) == []
  {
    if par != [] {
      NoPlaces(par[..|par| - 1], p);
    }
  }

  /** A parent is visited before its children. */
  lemma {:induction false} ParentBefore(w: Forest, parent: Node?, above: seq<string>, i: nat)
    requires i < |PreOrder(w, above)|
    ensures |Parents(w, parent)| == |PreOrder(w, above)|
    ensures Parents(w, parent)[i] == parent ||
            exists j: nat :: j < i && PreOrder(w, above)[j].f == Parents(w, parent)[i]
    decreases w
  {
    var here := above + [w.f.key];
    var kids, rest := PreOrder(w.kids, here), PreOrder(w.rest, above);
    var all := PreOrder(w, above);
    SameParents(w.kids, w.f, here);
    SameParents(w.rest, parent, above);
    if 0 < i <= |kids| {
      ParentBefore(w.kids, w.f, here, i - 1);
      if Parents(w.kids, w.f)[i - 1] == w.f {
        assert all[0].f == w.f;
      } else {
        var j: nat :| j < i - 1 && kids[j].f == Parents(w.kids, w.f)[i - 1];
        assert all[j + 1] == kids[j];
      }
    } else if i > |kids| {
      var k := i - 1 - |kids|;
      ParentBefore(w.rest, parent, above, k);
      if Parents(w.rest, parent)[k] != parent {
        var j: nat :| j < k && rest[j].f == Parents(w.rest, parent)[k];
        assert all[j + 1 + |kids|] == rest[j];
      }
    }
  }

  lemma {:induction false} SameParents(w: Forest, parent: Node?, above: seq<string>)
    ensures |Parents(w, parent)| == |PreOrder(w, above)|
    decreases w
  {
    if w.Cell? {
      SameParents(w.kids, w.f, above + [w.f.key]);
      SameParents(w.rest, parent, above);
    }
  }

  // ----- the stacks

  /** Below every file on the stack that has a parent is that parent. */
  ghost predicate Spine(s: seq<Node>)
    reads s`parent
  {
    forall q :: 0 <= q < |s| && s[q].parent != null ==> q > 0 && s[q - 1] == s[q].parent
  }

  /** The second stack holds the copies of what the first holds. */
  ghost predicate Paired(olds: seq<Node>, news: seq<Node>, visits: seq<Visit>, copies: seq<Node>) {
    |olds| == |news| && forall q :: 0 <= q < |olds| ==> exists k: nat ::
      (k < |copies| <= |visits| && olds[q] == visits[k].f && news[q] == copies[k])
  }

  /** With the last file on top, all its ancestors are right below. */
  lemma {:induction false} OnStack(s: seq<Node>, ctx: seq<Forest>, all: set<Node>)
    requires Chain(ctx, all) && s != [] && s[|s| - 1] == ctx[|ctx| - 1].f && Spine(s)
    ensures |s| >= |ctx| && forall q :: 0 <= q < |ctx| ==> s[|s| - |ctx| + q] == ctx[q].f
    decreases |ctx|
  {
    Links(ctx, all);
    if |ctx| > 1 {
      ChainUp(ctx, all);
      OnStack(s[..|s| - 1], ctx[..|ctx| - 1], all);
    }
  }

  /** So a file whose parent is one of them has a sibling on the stack, or is a child of the
      last file: the search for it does not run the stack empty. */
  lemma SiblingOnStack(f: Node, s: seq<Node>, ctx: seq<Forest>, all: set<Node>) returns (t: nat)
    requires Chain(ctx, all) && s != [] && s[|s| - 1] == ctx[|ctx| - 1].f && Spine(s)
    requires f.parent != null && OnChain(f.parent, ctx) && f.parent != s[|s| - 1]
    ensures t < |s| && s[t].parent == f.parent
  {
    OnStack(s, ctx, all);
    var q :| 0 <= q < |ctx| && ctx[q].Cell? && ctx[q].f == f.parent;
    t := |s| - |ctx| + q + 1;
    assert Linked(ctx[q + 1], ctx[q].f, all);
  }

  lemma PairedMore(olds: seq<Node>, news: seq<Node>, visits: seq<Visit>, copies: seq<Node>, f: Node, n: nat)
    requires Paired(olds, news, visits, copies) && n <= |olds| && |copies| < |visits|
    ensures Paired(olds[..n] + [visits[|copies|].f], news[..n] + [f], visits, copies + [f])
  {
    var o, w, cs := olds[..n] + [visits[|copies|].f], news[..n] + [f], copies + [f];
    forall q | 0 <= q < |o| ensures exists k: nat :: (k < |cs| <= |visits| && o[q] == visits[k].f && w[q] == cs[k]) {
      if q < n {
        var k: nat :| k < |copies| <= |visits| && olds[q] == visits[k].f && news[q] == copies[k];
        assert cs[k] == copies[k];
      } else {
        assert cs[|copies|] == f;
      }
    }
  }

  lemma SpineMore(s: seq<Node>, n: nat, f: Node)
    requires Spine(s) && n <= |s| && (f.parent != null ==> n > 0 && s[n - 1] == f.parent)
    ensures Spine(s[..n] + [f])
  {
  }

  lemma PairAt(olds: seq<Node>, news: seq<Node>, visits: seq<Visit>, copies: seq<Node>, q: nat) returns (i: nat)
    requires Paired(olds, news, visits, copies) && q < |olds|
    ensures i < |copies| <= |visits| && olds[q] == visits[i].f && news[q] == copies[i]
  {
    var o, w := olds[q], news[q];
    assert exists k: nat :: (k < |copies| <= |visits| && o == visits[k].f && w == copies[k]);
    var k: nat :| k < |copies| <= |visits| && o == visits[k].f && w == copies[k];
    i := k;
  }

  lemma CopyIn(below: map<Node, seq<Node>>, roots: seq<Node>, all: set<Node>, visits: seq<Visit>,
               par: seq<Node?>, copies: seq<Node>, k: nat)
    requires CopiedTo(below, roots, all, visits, par, copies) && k < |copies|
    ensures copies[k] in all && copies[k] in below
  {
  }

  /** Both stacks are popped until a sibling of the file is on top, and once more. */
  method FindParent(f: Node, olds0: seq<Node>, news0: seq<Node>, ghost ctx: seq<Forest>, ghost nodes: set<Node>)
    returns (olds: seq<Node>, news: seq<Node>)
    requires |olds0| == |news0| && Spine(olds0) && olds0 != []
    requires Chain(ctx, nodes) && olds0[|olds0| - 1] == ctx[|ctx| - 1].f
    requires f.parent != null && OnChain(f.parent, ctx) && f.parent != olds0[|olds0| - 1]
    ensures 0 < |olds| <= |olds0| && olds == olds0[..|olds|] && news == news0[..|olds|]
    ensures olds[|olds| - 1] == f.parent
  {
    ghost var t := SiblingOnStack(f, olds0, ctx, nodes);
    olds, news := olds0, news0;
    while f.parent != olds[|olds| - 1].parent
      invariant t < |olds| <= |olds0| && olds == olds0[..|olds|] && news == news0[..|olds|]
      decreases |olds|
    {
      news := news[..|news| - 1];
      olds := olds[..|olds| - 1];
    }
    news := news[..|news| - 1];
    olds := olds[..|olds| - 1];
  }

  /** The walk has come to f from the file on top of the stack. */
  ghost predicate Reached(f: Node, olds: seq<Node>, ctx: seq<Forest>, nodes: set<Node>)
    reads f`parent, nodes`parent, nodes`children, nodes`next
  {
    && olds != [] && Chain(ctx, nodes) && olds[|olds| - 1] == ctx[|ctx| - 1].f
    && (f.parent != null ==> OnChain(f.parent, ctx))
  }

  lemma ReachedFacts(f: Node, olds: seq<Node>, ctx: seq<Forest>, nodes: set<Node>)
    requires Reached(f, olds, ctx, nodes)
    ensures olds != [] && Chain(ctx, nodes) && ctx != [] && ctx[|ctx| - 1].Cell? && olds[|olds| - 1] == ctx[|ctx| - 1].f
    ensures f.parent != null ==> OnChain(f.parent, ctx)
  {
  }

  lemma IsReached(f: Node, last: Node, olds: seq<Node>, ctx: seq<Forest>, nodes: set<Node>)
    requires olds != [] && olds[|olds| - 1] == last && Chain(ctx, nodes) && ctx[|ctx| - 1].f == last
    requires f.parent != null ==> OnChain(f.parent, ctx)
    ensures Reached(f, olds, ctx, nodes)
  {
  }

  /** What the walk guarantees of the next file. */
  ghost predicate Upcoming(f: Node, visits: seq<Visit>, par: seq<Node?>, n: nat) {
    && n < |visits| == |par| && visits[n].f == f
    && (forall j, k :: 0 <= j < k < |visits| ==> visits[j].f != visits[k].f)
    && (forall k :: 0 <= k <= n ==> par[k] != f)
  }

  /** Between two files: the copies so far, and the stacks. */
  ghost predicate Copying(x: FileList, visits: seq<Visit>, par: seq<Node?>, copies: seq<Node>, olds: seq<Node>,
                          news: seq<Node>, nodes: set<Node>)
    reads x, x.all`parent, x.all`next, x.all`children, olds`parent
  {
    && x.Valid() && |copies| <= |par| && CopiedTo(x.below, x.roots, x.all, visits, par[..|copies|], copies)
    && Paired(olds, news, visits, copies) && Spine(olds) && |olds| == |news|
    && forall q :: 0 <= q < |olds| ==> olds[q] in nodes
  }

  lemma CopyingFacts(x: FileList, visits: seq<Visit>, par: seq<Node?>, copies: seq<Node>, olds: seq<Node>,
                     news: seq<Node>, nodes: set<Node>)
    requires Copying(x, visits, par, copies, olds, news, nodes)
    ensures x.Valid() && |copies| <= |par| && CopiedTo(x.below, x.roots, x.all, visits, par[..|copies|], copies)
    ensures Paired(olds, news, visits, copies) && Spine(olds) && |olds| == |news|
    ensures forall q :: 0 <= q < |olds| ==> olds[q] in nodes
  {
  }

  lemma IsCopying(x: FileList, visits: seq<Visit>, par: seq<Node?>, copies: seq<Node>, olds: seq<Node>,
                  news: seq<Node>, nodes: set<Node>)
    requires x.Valid() && |copies| <= |par| && CopiedTo(x.below, x.roots, x.all, visits, par[..|copies|], copies)
    requires Paired(olds, news, visits, copies) && Spine(olds) && |olds| == |news|
    requires forall q :: 0 <= q < |olds| ==> olds[q] in nodes
    ensures Copying(x, visits, par, copies, olds, news, nodes)
  {
  }

  /** The copy of the parent, if the file has one, which is then on top of the stacks. */
  method Find(f: Node, olds0: seq<Node>, news0: seq<Node>, ghost visits: seq<Visit>, ghost copies: seq<Node>,
              ghost ctx: seq<Forest>, ghost nodes: set<Node>)
    returns (p: Node?, olds: seq<Node>, news: seq<Node>, ghost k: nat)
    requires Paired(olds0, news0, visits, copies) && Spine(olds0) && |olds0| == |news0|
    requires copies == [] ==> f.parent == null
    requires copies != [] ==> Reached(f, olds0, ctx, nodes)
    ensures |olds| <= |olds0| && olds == olds0[..|olds|] && news == news0[..|olds|]
    ensures f.parent != null ==> |olds| > 0 && olds[|olds| - 1] == f.parent
    ensures p == null <==> f.parent == null
    ensures p != null ==> k < |copies| <= |visits| && p == copies[k] && visits[k].f == f.parent
  {
    hide *;
    olds, news, p, k := olds0, news0, null, 0;
    if f.parent != null {
      ReachedFacts(f, olds0, ctx, nodes);
      if f.parent != olds[|olds| - 1] {
        olds, news := FindParent(f, olds, news, ctx, nodes);
      }
      k := PairAt(olds0, news0, visits, copies, |olds| - 1);
      p := news[|news| - 1];
    }
  }

  /** Copying one file: a root, a child of the last file, or of one of its ancestors. */
  method CopyOne(x: FileList, f: Node, olds0: seq<Node>, news0: seq<Node>, ghost visits: seq<Visit>,
                 ghost par: seq<Node?>, ghost copies: seq<Node>, ghost ctx: seq<Forest>, ghost nodes: set<Node>)
    returns (g: Node, olds: seq<Node>, news: seq<Node>)
    requires Copying(x, visits, par, copies, olds0, news0, nodes) && x.all !! nodes
    requires Upcoming(f, visits, par, |copies|) && f.parent == par[|copies|] && f in nodes
    requires copies == [] ==> f.parent == null
    requires copies != [] ==> Reached(f, olds0, ctx, nodes)
    modifies x, x.all`next, x.all`children
    ensures fresh(g) && x.all == old(x.all) + {g}
    ensures Copying(x, visits, par, copies + [g], olds, news, nodes) && olds != [] && olds[|olds| - 1] == f
  {
    hide *;
    CopyingFacts(x, visits, par, copies, olds0, news0, nodes);
    UpcomingFacts(f, visits, par, |copies|, x.below, x.roots, x.all, copies);
    ghost var below, roots, all := x.below, x.roots, x.all;
    var p;
    ghost var k;
    p, olds, news, k := Find(f, olds0, news0, visits, copies, ctx, nodes);
    if p == null {
      g := x.AddRoot(f.key);
    } else {
      CopyIn(below, roots, all, visits, par[..|copies|], copies, k);
      g := x.AddChild(f.key, p);
    }
    OneMore(below, x.below, roots, x.roots, all, visits, par[..|copies|], par[|copies|], copies, g);
    assert par[..|copies|] + [par[|copies|]] == par[..|copies| + 1];
    PairedMore(olds0, news0, visits, copies, g, |olds|);
    SpineMore(olds0, |olds|, f);
    olds, news := olds + [f], news + [g];
    IsCopying(x, visits, par, copies + [g], olds, news, nodes);
  }

  lemma UpcomingFacts(f: Node, visits: seq<Visit>, par: seq<Node?>, n: nat, below: map<Node, seq<Node>>,
                      roots: seq<Node>, all: set<Node>, copies: seq<Node>)
    requires Upcoming(f, visits, par, n) && n == |copies| && CopiedTo(below, roots, all, visits, par[..n], copies)
    ensures n < |visits| == |par| && visits[n].f == f
    ensures forall j, k :: 0 <= j < k < |visits| ==> visits[j].f != visits[k].f
    ensures forall k :: 0 <= k <= n ==> par[k] != f
  {
  }

  lemma Coming(w: Forest, nodes: set<Node>, visits: seq<Visit>, par: seq<Node?>, n: nat)
    requires Linked(w, null, nodes) && visits == PreOrder(w, []) && par == Parents(w, null) && Distinct(visits)
    requires n < |visits|
    ensures Upcoming(visits[n].f, visits, par, n) && visits[n].f in nodes && visits[n].f.parent == par[n]
    ensures n == 0 ==> par[n] == null
  {
    ParentsAre(w, null, [], nodes);
    ParentBefore(w, null, [], n);
    forall k | 0 <= k <= n ensures par[k] != visits[n].f {
      ParentBefore(w, null, [], k);
    }
  }

  lemma NothingCopied(visits: seq<Visit>, par: seq<Node?>, below: map<Node, seq<Node>>)
    ensures CopiedTo(below, [], {}, visits, par[..0], []) && Paired([], [], visits, []) && Spine([])
  {
  }

  /** The iterator is at file n, with the files after that to come. */
  ghost predicate Heading(it: Iterator, f: Node, visits: seq<Visit>, n: nat, todo: seq<Visit>, fate: Fate,
                          nodes: set<Node>)
    reads it, nodes`parent, nodes`children, nodes`next
  {
    && it.Before(todo, fate, nodes) && fate.Kept? && it.iter == f
    && n < |visits| && visits[n].f == f && visits[n + 1..] == todo
  }

  lemma HeadingFacts(it: Iterator, f: Node, visits: seq<Visit>, n: nat, todo: seq<Visit>, fate: Fate, nodes: set<Node>)
    requires Heading(it, f, visits, n, todo, fate, nodes)
    ensures it.Before(todo, fate, nodes) && fate.Kept? && it.iter == f
    ensures n < |visits| && visits[n].f == f && visits[n + 1..] == todo
  {
  }

  lemma IsHeading(it: Iterator, f: Node, visits: seq<Visit>, n: nat, todo: seq<Visit>, fate: Fate, nodes: set<Node>)
    requires it.Before(todo, fate, nodes) && fate.Kept? && it.iter == f
    requires n < |visits| && visits[n].f == f && visits[n + 1..] == todo
    ensures Heading(it, f, visits, n, todo, fate, nodes)
  {
  }

  lemma Ahead(visits: seq<Visit>, n: nat, v: Visit, todo: seq<Visit>)
    requires n <= |visits| && visits[n..] == [v] + todo
    ensures n < |visits| && visits[n] == v && visits[n + 1..] == todo && n + 1 + |todo| == |visits|
  {
    assert visits[n..][1..] == visits[n + 1..];
  }

  lemma TopOfChain(f: Node, ctx: seq<Forest>, all: set<Node>, it: Iterator)
    requires it.At(all) && ctx == it.ctx && it.iter == f
    ensures Chain(ctx, all) && ctx[|ctx| - 1].f == f
  {
  }

  /** On to the next file. */
  method Move(it: Iterator, f: Node, ghost olds: seq<Node>, ghost visits: seq<Visit>, ghost n: nat,
              ghost todo0: seq<Visit>, ghost fate: Fate, ghost nodes: set<Node>)
    returns (g: Node?, ghost todo: seq<Visit>, ghost prev: seq<Forest>)
    requires Heading(it, f, visits, n, todo0, fate, nodes) && olds != [] && olds[|olds| - 1] == f
    modifies it
    ensures g == null ==> n + 1 == |visits|
    ensures g != null ==> Heading(it, g, visits, n + 1, todo, fate, nodes) && Reached(g, olds, prev, nodes)
  {
    hide *;
    HeadingFacts(it, f, visits, n, todo0, fate, nodes);
    it.BeforeFacts(todo0, fate, nodes);
    TopOfChain(f, it.ctx, nodes, it);
    prev, todo := it.ctx, todo0;
    var name, lost;
    g, name, lost := it.Advance(nodes);
    assert !lost by {
      KeptIsNotLost(fate);
    }
    if g == null {
      assert visits[n + 1..] == [];
    } else {
      it.AtFacts(nodes);
      IsReached(g, f, olds, prev, nodes);
      Ahead(visits, n + 1, Visit(g, Keys(it.ctx)), ToDo(it.ctx));
      todo := ToDo(it.ctx);
      it.IsBefore(todo, fate, nodes);
      IsHeading(it, g, visits, n + 1, todo, fate, nodes);
    }
  }

  lemma KeptIsNotLost(a: Fate)
    ensures a.Kept? <==> !a.Lost?
  {
  }

  method Begin(first: Node, ghost w: Forest, ghost nodes: set<Node>) returns (it: Iterator, ghost todo: seq<Visit>)
    requires w.Cell? && first == First(w) && Linked(w, null, nodes) && Walked(w, None).Kept?
    ensures fresh(it) && PreOrder(w, []) != []
    ensures Heading(it, first, PreOrder(w, []), 0, todo, Walked(w, None), nodes)
  {
    hide *;
    it := new Iterator();
    it.Start(first, w, nodes);
    todo := ToDo(it.ctx);
    ghost var visits := PreOrder(w, []);
    assert visits[0..] == visits;
    Ahead(visits, 0, Visit(first, [first.key]), todo);
    it.IsBefore(todo, Walked(w, None), nodes);
    IsHeading(it, first, visits, 0, todo, Walked(w, None), nodes);
  }

  /** The loop of `replace_sign`, which needs an iterator that keeps its path: afterwards the new
      archive's files are the old one's, each list in the same order, but the roots in reverse. */
  method CopyFiles(first: Node, ghost w: Forest, ghost nodes: set<Node>) returns (x: FileList, ghost copies: seq<Node>)
    requires w.Cell? && first == First(w) && Linked(w, null, nodes) && Counted(w, NoPath).Some?
    ensures fresh(x) && x.Valid() && |copies| == |PreOrder(w, [])| == |Parents(w, null)|
    ensures CopiedTo(x.below, x.roots, x.all, PreOrder(w, []), Parents(w, null), copies)
  {
    hide *;
    ghost var visits, par := PreOrder(w, []), Parents(w, null);
    EachOnce(w, nodes);
    StartCounted(w);
    x := new FileList();
    var it;
    ghost var fate := Walked(w, None);
    ghost var todo, prev: seq<Forest>;
    it, todo := Begin(first, w, nodes);
    SameParents(w, null, []);
    NothingCopied(visits, par, x.below);
    var f: Node? := first;
    var olds: seq<Node>, news: seq<Node> := [], [];
    copies, prev := [], [];
    IsCopying(x, visits, par, copies, olds, news, nodes);
    while f != null
      invariant fresh(it) && fresh(x) && fresh(x.all) && |copies| <= |visits| == |par|
      invariant f == null ==> |copies| == |visits|
      invariant f != null ==> Heading(it, f, visits, |copies|, todo, fate, nodes)
      invariant Copying(x, visits, par, copies, olds, news, nodes)
      invariant copies != [] && f != null ==> Reached(f, olds, prev, nodes)
      decreases |visits| - |copies|, f != null
    {
      HeadingFacts(it, f, visits, |copies|, todo, fate, nodes);
      Coming(w, nodes, visits, par, |copies|);
      ghost var g;
      g, olds, news := CopyOne(x, f, olds, news, visits, par, copies, prev, nodes);
      f, todo, prev := Move(it, f, olds, visits, |copies|, todo, fate, nodes);
      copies := copies + [g];
    }
    CopyingFacts(x, visits, par, copies, olds, news, nodes);
    assert par[..|par|] == par;
  }

  // ----- that this is the same tree

  ghost function RootNodes(w: Forest): seq<Node> {
    if w.Empty? then [] else [w.f] + RootNodes(w.rest)
  }

  /** c is a node of w with what is below and beside it. */
  ghost predicate CellOf(c: Forest, w: Forest)
    decreases w
  {
    w.Cell? && c.Cell? && (c == w || CellOf(c, w.kids) || CellOf(c, w.rest))
  }

  ghost function Kids(w: Forest, parent: Node?, p: Node?): seq<Node> {
    if w.Empty? then []
    else (if parent == p then [w.f] else []) + Kids(w.kids, w.f, p) + Kids(w.rest, parent, p)
  }

  lemma {:induction false} PickBoth(a: seq<Node>, b: seq<Node>, pa: seq<Node?>, pb: seq<Node?>, p: Node?)
    requires |a| == |pa| && |b| == |pb|
    ensures Pick(a + b, Places(pa + pb, p)) == Pick(a, Places(pa, p)) + Pick(b, Places(pb, p))
    decreases |b|
  {
    if b == [] {
      assert a + b == a && pa + pb == pa && Places(pb, p) == [];
    } else {
      var n := |b| - 1;
      PickBoth(a, b[..n], pa, pb[..n], p);
      assert a + b == a + b[..n] + [b[n]] && pa + pb == pa + pb[..n] + [pb[n]];
      assert b == b[..n] + [b[n]] && pb == pb[..n] + [pb[n]];
      PickMore(a + b[..n], b[n], pa + pb[..n], pb[n], p);
      PickMore(b[..n], b[n], pb[..n], pb[n], p);
    }
  }

  lemma {:induction false} KidsPicked(w: Forest, parent: Node?, above: seq<string>, p: Node?)
    ensures |Parents(w, parent)| == |PreOrder(w, above)|
    ensures Pick(Nodes(PreOrder(w, above)), Places(Parents(w, parent), p)) == Kids(w, parent, p)
    decreases w
  {
    SameParents(w, parent, above);
    if w.Cell? {
      var here := above + [w.f.key];
      SameParents(w.kids, w.f, here);
      SameParents(w.rest, parent, above);
      var a, b, c := [w.f], Nodes(PreOrder(w.kids, here)), Nodes(PreOrder(w.rest, above));
      var x, y, z: seq<Node?> := [parent], Parents(w.kids, w.f), Parents(w.rest, parent);
      KidsPicked(w.kids, w.f, here, p);
      KidsPicked(w.rest, parent, above, p);
      PickBoth(a + b, c, x + y, z, p);
      PickBoth(a, b, x, y, p);
      assert Nodes(PreOrder(w, above)) == a + b + c;
      OnePick(w.f, parent, p);
    }
  }

  lemma OnePick(f: Node, parent: Node?, p: Node?)
    ensures Pick([f], Places([parent], p)) == if parent == p then [f] else []
  {
    assert [parent][..0] == [] && Places([], p) == [];
  }

  lemma {:induction false} KidsOfOther(w: Forest, parent: Node?, p: Node?)
    requires p !in NodeSet(w)
    ensures Kids(w, parent, p) == if parent == p then RootNodes(w) else []
    decreases w
  {
    if w.Cell? {
      KidsOfOther(w.kids, w.f, p);
      KidsOfOther(w.rest, parent, p);
    }
  }

  lemma {:induction false} CellIn(c: Forest, w: Forest)
    requires CellOf(c, w)
    ensures c.f in NodeSet(w)
    decreases w
  {
    if c != w {
      if CellOf(c, w.kids) {
        CellIn(c, w.kids);
      } else {
        CellIn(c, w.rest);
      }
    }
  }

  /** The nodes picked as children of a node are its children, in order. */
  lemma {:induction false} KidsAre(w: Forest, parent: Node?, c: Forest)
    requires CellOf(c, w) && Once(w) && parent !in NodeSet(w)
    ensures Kids(w, parent, c.f) == RootNodes(c.kids)
    decreases w
  {
    CellIn(c, w);
    if c == w {
      KidsOfOther(w.kids, w.f, w.f);
      KidsOfOther(w.rest, parent, w.f);
    } else if CellOf(c, w.kids) {
      CellIn(c, w.kids);
      KidsAre(w.kids, w.f, c);
      KidsOfOther(w.rest, parent, c.f);
    } else {
      CellIn(c, w.rest);
      KidsAre(w.rest, parent, c);
      KidsOfOther(w.kids, w.f, c.f);
    }
  }

  /** What has been copied is the same tree: below the copy of a node are the copies of the
      nodes below it, in order, and the roots are the copies of the roots, in reverse. */
  lemma SameTree(below: map<Node, seq<Node>>, roots: seq<Node>, all: set<Node>, w: Forest, copies: seq<Node>,
                 c: Forest, k: nat, ix: seq<nat>, rx: seq<nat>, nodes: set<Node>)
    requires Linked(w, null, nodes)
    requires |Parents(w, null)| == |PreOrder(w, [])|
    requires CopiedTo(below, roots, all, PreOrder(w, []), Parents(w, null), copies)
    requires CellOf(c, w) && k < |copies| && PreOrder(w, [])[k].f == c.f
    requires ix == Places(Parents(w, null), c.f) && rx == Places(Parents(w, null), null)
    ensures copies[k] in below && below[copies[k]] == Pick(copies, ix) && copies[k].key == c.f.key
    ensures RootNodes(c.kids) == Pick(Nodes(PreOrder(w, [])), ix)
    ensures roots == Reversed(Pick(copies, rx)) && RootNodes(w) == Pick(Nodes(PreOrder(w, [])), rx)
  {
    EachOnce(w, nodes);
    KidsPicked(w, null, [], c.f);
    KidsPicked(w, null, [], null);
    KidsAre(w, null, c);
    KidsOfOther(w, null, null);
  }
}
