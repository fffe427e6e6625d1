/** The trees of a xar archive, of files and of properties: nodes linked to their parent, first
    child and next sibling, walked without a stack and searched by path. */
module XarTree {
  import opened Sequences
  import opened Wrappers
  import opened Slashes

  /** A file, known by its name, or a property, known by its key. */
  class Node {
    const key: string
    var parent: Node?
    var children: Node?
    var next: Node?

    constructor (key: string)
      ensures this.key == key && parent == null && children == null && next == null
    {
      this.key := key;
      parent, children, next := null, null, null;
    }
  }

  /** What the links amount to: a node, what is below it, and what is beside it. */
  datatype Forest = Empty | Cell(f: Node, kids: Forest, rest: Forest)

  ghost function First(w: Forest): Node? {
    if w.Empty? then null else w.f
  }

  ghost predicate Linked(w: Forest, parent: Node?, all: set<Node>)
    reads all`parent, all`children, all`next
    decreases w
  {
    w.Cell? ==>
      && w.f in all && w.f.parent == parent && w.f.children == First(w.kids) && w.f.next == First(w.rest)
      && Linked(w.kids, w.f, all) && Linked(w.rest, parent, all)
  }

  /** No separator in a key, and no key without a character. */
  predicate KeyOk(key: string) { key != "" && SEP !in key }

  ghost predicate KeysOk(w: Forest) {
    w.Cell? ==> KeyOk(w.f.key) && KeysOk(w.kids) && KeysOk(w.rest)
  }

  /** A node as it is visited, with the keys that lead to it. */
  datatype Visit = Visit(f: Node, keys: seq<string>)

  /** Every node once, each before what is below it, that before what is beside it. */
  ghost function PreOrder(w: Forest, above: seq<string>): seq<Visit> {
    if w.Empty? then []
    else
      var here := above + [w.f.key];
      [Visit(w.f, here)] + PreOrder(w.kids, here) + PreOrder(w.rest, above)
  }

  // ----- the path kept aside

  /** Without the separators at the end. */
  function Trim(s: string): string {
    if s != "" && s[|s| - 1] == SEP then Trim(s[..|s| - 1]) else s
  }

  /** Without the last part. */
  function DropLast(s: string): string {
    if s != "" && s[|s| - 1] != SEP then DropLast(s[..|s| - 1]) else s
  }

  /** `dirname` */
  function DirName(s: string): string {
    if s == "" then "."
    else
      var t := Trim(s);
      if t == "" then "/"
      else
        var u := DropLast(t);
        if u == "" then "." else if Trim(u) == "" then "/" else Trim(u)
  }

  /** Down past a node with that key. */
  function DownPath(p: Option<string>, key: string): Option<string> {
    Some(if p.Some? then p.value + [SEP] + key else key)
  }

  /** Up again. */
  function UpPath(p: string): Option<string> {
    if SEP in p then Some(DirName(p)) else None
  }

  /** What becomes of the path: it is lost when it is null and one must go up. */
  datatype Fate = Lost | Kept(path: Option<string>)

  function UpFrom(a: Fate): Fate {
    if a.Lost? || a.path.None? then Lost else Kept(UpPath(a.path.value))
  }

  /** Down into the files below each file of a list and up again, from path p. */
  ghost function Walked(w: Forest, p: Option<string>): Fate
    decreases w
  {
    if w.Empty? then Kept(p)
    else if w.kids.Empty? then Walked(w.rest, p)
    else
      var a := UpFrom(Walked(w.kids, DownPath(p, w.f.key)));
      if a.Lost? then Lost else Walked(w.rest, a.path)
  }

  /** A key with a character that is not a separator. */
  predicate KeySome(key: string) { exists i :: 0 <= i < |key| && key[i] != SEP }

  ghost predicate KeysSome(w: Forest) {
    w.Cell? ==> KeySome(w.f.key) && KeysSome(w.kids) && KeysSome(w.rest)
  }

  /** Enough of a path to go up n times. */
  predicate Enough(p: Option<string>, n: nat) {
    n > 0 ==> p.Some? && (Rooted(p.value) || |Components(p.value)| >= n)
  }

  lemma {:induction false} TrimIs(s: string)
    ensures Components(Trim(s)) == Components(s)
    ensures (Trim(s) != "" ==> Trim(s)[0] == s[0] && Trim(s)[|Trim(s)| - 1] != SEP)
    ensures Trim(s) == "" && s != "" ==> s[0] == SEP
    decreases |s|
  {
    if s != "" && s[|s| - 1] == SEP {
      var front := s[..|s| - 1];
      TrimIs(front);
      ComponentsSep(front, "");
      assert s == front + [SEP] + "" && Components(front) + Components("") == Components(front);
    }
  }

  lemma {:induction false} DropLastIs(s: string)
    ensures DropLast(s) <= s && SEP !in s[|DropLast(s)|..]
    ensures DropLast(s) != "" ==> DropLast(s)[|DropLast(s)| - 1] == SEP
    decreases |s|
  {
    if s != "" && s[|s| - 1] != SEP {
      DropLastIs(s[..|s| - 1]);
    }
  }

  /** A part without separators behind one. */
  lemma LastComponent(u: string, c: string)
    requires c != "" && SEP !in c && (u == "" || u[|u| - 1] == SEP)
    ensures |Components(u + c)| == |Components(u)| + 1
  {
    ComponentsName(c, "");
    assert c + "" == c;
    if u == "" {
      assert u + c == c;
    } else {
      var v := u[..|u| - 1];
      assert u == v + [SEP] + "" && u + c == v + [SEP] + c;
      ComponentsSep(v, "");
      ComponentsSep(v, c);
    }
  }

  /** `dirname` takes one part away, at most, and leaves a rooted path rooted. */
  lemma DirNameKeeps(s: string)
    ensures |Components(DirName(s))| + 1 >= |Components(s)|
    ensures Rooted(s) ==> Rooted(DirName(s))
  {
    hide Components;
    if s != "" {
      var t := Trim(s);
      TrimIs(s);
      if t == "" {
        Few();
      } else {
        var u := DropLast(t);
        DropLastIs(t);
        assert t == u + t[|u|..] && (u != "" ==> u[0] == t[0]);
        LastComponent(u, t[|u|..]);
        TrimIs(u);
        Few();
      }
    } else {
      Few();
    }
  }

  lemma Few()
    ensures Components("") == []
  {
  }

  lemma {:induction false} SomeComponent(key: string)
    ensures KeySome(key) <==> Components(key) != []
    decreases |key|
  {
    if key != "" {
      if key[0] == SEP {
        SomeComponent(key[1..]);
        assert forall i :: 0 < i < |key| ==> key[i] == key[1..][i - 1];
        if KeySome(key) {
          var i :| 0 <= i < |key| && key[i] != SEP;
          assert key[1..][i - 1] != SEP;
        }
      } else {
        assert KeySome(key);
      }
    }
  }

  lemma EnoughDown(p: Option<string>, key: string, n: nat)
    requires Enough(p, n) && KeySome(key)
    ensures Enough(DownPath(p, key), n + 1)
  {
    hide Components, KeySome;
    SomeComponent(key);
    if p.Some? {
      ComponentsSep(p.value, key);
    }
  }

  lemma EnoughUp(p: Option<string>, n: nat)
    requires Enough(p, n + 1)
    ensures p.Some? && Enough(UpPath(p.value), n)
  {
    hide DirName;
    var s := p.value;
    if SEP in s {
      DirNameKeeps(s);
    } else if s != "" {
      ComponentsName(s, "");
      assert s + "" == s;
    }
  }

  /** If every key has a character that is not a separator, the path lasts. */
  lemma {:induction false} PathLasts(w: Forest, p: Option<string>, n: nat)
    requires KeysSome(w) && Enough(p, n)
    ensures Walked(w, p).Kept? && Enough(Walked(w, p).path, n)
    decreases w
  {
    hide Enough, DownPath, UpPath;
    if w.Cell? {
      if w.kids.Cell? {
        EnoughDown(p, w.f.key, n);
        PathLasts(w.kids, DownPath(p, w.f.key), n + 1);
        var q := Walked(w.kids, DownPath(p, w.f.key)).path;
        EnoughUp(q, n);
        PathLasts(w.rest, UpPath(q.value), n);
      } else {
        PathLasts(w.rest, p, n);
      }
    }
  }

  /** Empty keys can use it up: below "a", "" and "" the path is "a//", then ".", then null, and
      there is one more level to go up. */
  lemma PathLost(a: Node, b: Node, c: Node, d: Node)
    requires a.key == "a" && b.key == c.key == ""
    ensures Walked(Cell(a, Cell(b, Cell(c, Cell(d, Empty, Empty), Empty), Empty), Empty), None) == Lost
  {
    hide DirName;
    var x := Cell(d, Empty, Empty);
    var y := Cell(c, x, Empty);
    var z := Cell(b, y, Empty);
    assert "a" + [SEP] + "" == "a/" && "a/" + [SEP] + "" == "a//";
    DirNameOfA();
    assert Walked(x, Some("a//")) == Kept(Some("a//"));
    assert Walked(y, Some("a/")) == Kept(Some("."));
    assert Walked(z, Some("a")) == Kept(None);
  }

  lemma DirNameOfA()
    ensures DirName("a//") == "."
  {
    assert "a//"[..2] == "a/" && "a/"[..1] == "a" && "a"[..0] == "";
    assert Trim("a//") == Trim("a/") == Trim("a") == "a";
    assert DropLast("a") == DropLast("") == "";
  }

  /** All that matters of the path kept aside: whether there is one, whether it starts at the root,
      and if not how many parts it has and whether there is a separator in it. */
  datatype Shape = NoPath | FromRoot | Parts(n: nat, slash: bool)

  function ShapeOf(p: Option<string>): Shape {
    if p.None? then NoPath
    else if Rooted(p.value) then FromRoot
    else Parts(|Components(p.value)|, SEP in p.value)
  }

  /** Down past a node with that key. Below an empty path every key makes a rooted one. */
  function Deeper(a: Shape, key: string): Shape {
    match a
    case NoPath => ShapeOf(Some(key))
    case FromRoot => FromRoot
    case Parts(n, _) => if n == 0 then FromRoot else Parts(n + |Components(key)|, true)
  }

  /** Up again: a single part with a separator becomes ".", which has none. */
  function Higher(a: Shape): Shape
    requires !a.NoPath?
  {
    match a
    case FromRoot => FromRoot
    case Parts(n, slash) => if !slash then NoPath else if n <= 1 then Parts(1, false) else Parts(n - 1, n > 2)
  }

  /** The walk with no path but its shape: nothing once there is none to go up from. */
  ghost function Counted(w: Forest, a: Shape): Option<Shape>
    decreases w
  {
    if w.Empty? then Some(a)
    else if w.kids.Empty? then Counted(w.rest, a)
    else
      var b := Counted(w.kids, Deeper(a, w.f.key));
      if b.None? || b.value.NoPath? then None else Counted(w.rest, Higher(b.value))
  }

  lemma CountOf(s: string)
    ensures Components(s) == [] <==> forall i :: 0 <= i < |s| ==> s[i] == SEP
    ensures s != "" && !Rooted(s) ==> Components(s) != []
  {
    SomeComponent(s);
  }

  lemma DeeperIs(p: Option<string>, key: string)
    ensures ShapeOf(DownPath(p, key)) == Deeper(ShapeOf(p), key)
  {
    hide Components;
    if p.Some? {
      var s := p.value;
      ComponentsSep(s, key);
      CountOf(s);
      Few();
      assert SEP in s + [SEP] + key by {
        assert (s + [SEP] + key)[|s|] == SEP;
      }
    }
  }

  /** Text that neither starts nor ends with a separator has one in it exactly if it has
      more than one part. */
  lemma Inner(t: string)
    requires t != "" && !Rooted(t) && t[|t| - 1] != SEP
    ensures SEP in t <==> |Components(t)| > 1
  {
    hide Components;
    var u := DropLast(t);
    DropLastIs(t);
    assert t == u + t[|u|..];
    LastComponent(u, t[|u|..]);
    Few();
    CountOf(u);
    if u != "" {
      assert u[0] == t[0];
    }
  }

  lemma HigherIs(s: string)
    ensures ShapeOf(UpPath(s)) == Higher(ShapeOf(Some(s)))
  {
    hide Components;
    if SEP in s {
      var t := Trim(s);
      TrimIs(s);
      if Rooted(s) {
        DirNameKeeps(s);
      } else {
        UpOnce(s, t, DropLast(t));
      }
    }
  }

  /** Up from a path that does not start at the root. */
  lemma UpOnce(s: string, t: string, u: string)
    requires s != "" && !Rooted(s) && t == Trim(s) && u == DropLast(t)
    ensures ShapeOf(Some(DirName(s))) == if |Components(s)| <= 1 then Parts(1, false)
                                         else Parts(|Components(s)| - 1, |Components(s)| > 2)
  {
    hide Components, Trim, DropLast;
    TrimIs(s);
    DropLastIs(t);
    assert t == u + t[|u|..];
    LastComponent(u, t[|u|..]);
    Few();
    if u == "" {
      OneDot();
    } else {
      StartsAlike(s, t, u);
      TrimIs(u);
      Inner(Trim(u));
    }
  }

  lemma OneDot()
    ensures ShapeOf(Some(".")) == Parts(1, false)
  {
    ComponentsName(".", "");
    assert "." + "" == ".";
  }

  lemma StartsAlike(s: string, t: string, u: string)
    requires s != "" && t != "" && u != "" && s[0] == t[0] && u <= t && !Rooted(s)
    ensures !Rooted(u) && Components(u) != [] && (Trim(u) != "" ==> !Rooted(Trim(u))) && Trim(u) != ""
  {
    TrimIs(u);
    CountOf(u);
  }

  /** The path is used up exactly if the counts say so. */
  lemma {:induction false} CountedIs(w: Forest, p: Option<string>)
    ensures Walked(w, p).Lost? <==> Counted(w, ShapeOf(p)).None?
    ensures Walked(w, p).Kept? ==> Counted(w, ShapeOf(p)) == Some(ShapeOf(Walked(w, p).path))
    decreases w
  {
    hide DownPath, UpPath, ShapeOf, Deeper, Higher;
    if w.Cell? {
      if w.kids.Cell? {
        DeeperIs(p, w.f.key);
        CountedIs(w.kids, DownPath(p, w.f.key));
        var a := Walked(w.kids, DownPath(p, w.f.key));
        if a.Kept? {
          NoShape(a.path);
          if a.path.Some? {
            HigherIs(a.path.value);
            CountedIs(w.rest, UpPath(a.path.value));
          }
        }
      } else {
        CountedIs(w.rest, p);
      }
    }
  }

  lemma NoShape(p: Option<string>)
    ensures ShapeOf(p).NoPath? <==> p.None?
  {
  }

  lemma DirNameOf(dir: string, key: string)
    requires key != "" && SEP !in key && dir != "" && dir[|dir| - 1] != SEP
    ensures DirName(dir + [SEP] + key) == dir
  {
    var s := dir + [SEP] + key;
    assert Trim(s) == s;
    Dropped(dir + [SEP], key);
    assert (dir + [SEP])[..|dir|] == dir;
    assert Trim(dir + [SEP]) == Trim(dir) == dir;
  }

  lemma {:induction false} Dropped(u: string, key: string)
    requires SEP !in key && u != "" && u[|u| - 1] == SEP
    ensures DropLast(u + key) == u
    decreases |key|
  {
    if key == "" {
      assert u + key == u;
    } else {
      assert (u + key)[..|u + key| - 1] == u + key[..|key| - 1];
      Dropped(u, key[..|key| - 1]);
    }
  }

  lemma {:induction false} JoinSlash(keys: seq<string>)
    requires keys != [] && forall i :: 0 <= i < |keys| ==> KeyOk(keys[i])
    ensures (SEP in Join(keys) <==> |keys| > 1) && Join(keys) != "" && Join(keys)[|Join(keys)| - 1] != SEP
  {
    if |keys| > 1 {
      assert Join(keys)[|Join(keys[..|keys| - 1])|] == SEP;
    }
  }

  // ----- the iterator

  /** The cells from the root list down to the current node. */
  ghost predicate Chain(ctx: seq<Forest>, all: set<Node>)
    reads all`parent, all`children, all`next
  {
    && ctx != []
    && (forall q :: 0 <= q < |ctx| ==> ctx[q].Cell?)
    && Linked(ctx[0], null, all)
    && (forall q :: 0 < q < |ctx| ==> Linked(ctx[q], ctx[q - 1].f, all))
  }

  ghost function Keys(ctx: seq<Forest>): (ks: seq<string>)
    requires forall q :: 0 <= q < |ctx| ==> ctx[q].Cell?
    ensures |ks| == |ctx| && forall q :: 0 <= q < |ks| ==> ks[q] == ctx[q].f.key
  {
    seq(|ctx|, q requires 0 <= q < |ctx| => ctx[q].f.key)
  }

  /** What is beside the nodes of the chain, the innermost first. */
  ghost function Beside(ctx: seq<Forest>): seq<Visit>
    requires forall q :: 0 <= q < |ctx| ==> ctx[q].Cell?
  {
    if ctx == [] then []
    else
      var n := |ctx| - 1;
      PreOrder(ctx[n].rest, Keys(ctx[..n])) + Beside(ctx[..n])
  }

  /** What is to be visited after the current node. */
  ghost function ToDo(ctx: seq<Forest>): seq<Visit>
    requires ctx != [] && forall q :: 0 <= q < |ctx| ==> ctx[q].Cell?
  {
    PreOrder(ctx[|ctx| - 1].kids, Keys(ctx)) + Beside(ctx)
  }

  lemma KeysMore(ctx: seq<Forest>, w: Forest)
    requires w.Cell? && forall q :: 0 <= q < |ctx| ==> ctx[q].Cell?
    ensures Keys(ctx + [w]) == Keys(ctx) + [w.f.key] && (ctx + [w])[..|ctx|] == ctx
    ensures forall n :: 0 <= n <= |ctx| ==> Keys(ctx)[..n] == Keys(ctx[..n])
  {
  }

  lemma BesideMore(ctx: seq<Forest>, w: Forest)
    requires w.Cell? && forall q :: 0 <= q < |ctx| ==> ctx[q].Cell?
    ensures Beside(ctx + [w]) == PreOrder(w.rest, Keys(ctx)) + Beside(ctx)
    ensures ToDo(ctx + [w]) == PreOrder(w.kids, Keys(ctx) + [w.f.key]) + Beside(ctx + [w])
  {
    KeysMore(ctx, w);
  }

  /** The first thing to be done in a list of siblings. */
  lemma Next(w: Forest, front: seq<Forest>)
    requires w.Cell? && forall q :: 0 <= q < |front| ==> front[q].Cell?
    ensures PreOrder(w, Keys(front)) + Beside(front) == [Visit(w.f, Keys(front + [w]))] + ToDo(front + [w])
  {
    hide Beside, ToDo;
    var here := Keys(front) + [w.f.key];
    KeysMore(front, w);
    BesideMore(front, w);
    Regroup([Visit(w.f, here)], PreOrder(w.kids, here), PreOrder(w.rest, Keys(front)), Beside(front));
  }

  lemma ChainDown(ctx: seq<Forest>, w: Forest, all: set<Node>)
    requires Chain(ctx, all) && w == ctx[|ctx| - 1].kids && w.Cell?
    ensures Chain(ctx + [w], all)
  {
    assert Linked(ctx[|ctx| - 1], if |ctx| == 1 then null else ctx[|ctx| - 2].f, all);
  }

  lemma ChainOn(ctx: seq<Forest>, w: Forest, all: set<Node>)
    requires Chain(ctx, all) && w == ctx[|ctx| - 1].rest && w.Cell?
    ensures Chain(ctx[..|ctx| - 1] + [w], all)
  {
    assert Linked(ctx[|ctx| - 1], if |ctx| == 1 then null else ctx[|ctx| - 2].f, all);
  }

  /** What the links of the current node say. */
  lemma Links(ctx: seq<Forest>, all: set<Node>)
    requires Chain(ctx, all)
    ensures var w := ctx[|ctx| - 1];
      && w.Cell? && w.f in all && w.f.children == First(w.kids) && w.f.next == First(w.rest)
      && w.f.parent == if |ctx| == 1 then null else ctx[|ctx| - 2].f
  {
    assert Linked(ctx[|ctx| - 1], if |ctx| == 1 then null else ctx[|ctx| - 2].f, all);
  }

  lemma ChainUp(ctx: seq<Forest>, all: set<Node>)
    requires Chain(ctx, all) && |ctx| > 1
    ensures Chain(ctx[..|ctx| - 1], all)
  {
  }

  lemma OneCell(w: Forest, all: set<Node>)
    requires w.Cell? && Linked(w, null, all)
    ensures Chain([w], all) && First(w) == w.f
    ensures PreOrder(w, []) == [Visit(w.f, [w.f.key])] + ToDo([w])
  {
    hide PreOrder, ToDo, Linked;
    Next(w, []);
    KeysMore([], w);
    assert [] + [w] == [w] && Keys([]) == [] && [] + [w.f.key] == [w.f.key];
    assert PreOrder(w, []) + Beside([]) == PreOrder(w, []);
  }

  /** One of the nodes of the chain. */
  ghost predicate OnChain(f: Node, ctx: seq<Forest>) {
    exists q :: 0 <= q < |ctx| && ctx[q].Cell? && ctx[q].f == f
  }

  lemma OnLonger(f: Node, ctx: seq<Forest>, n: nat)
    requires n <= |ctx| && OnChain(f, ctx[..n])
    ensures OnChain(f, ctx)
  {
  }

  lemma ParentOnChain(ctx: seq<Forest>, all: set<Node>)
    requires Chain(ctx, all)
    ensures ctx[|ctx| - 1].f.parent != null ==> OnChain(ctx[|ctx| - 1].f.parent, ctx[..|ctx| - 1])
  {
    Links(ctx, all);
    if |ctx| > 1 {
      assert ctx[..|ctx| - 1][|ctx| - 2].f == ctx[|ctx| - 2].f;
    }
  }

  /** What becomes of the path after a list of siblings with those nodes above it, if it is a
      when that list is done. */
  ghost function Finish(front: seq<Forest>, a: Fate): Fate
    requires forall q :: 0 <= q < |front| ==> front[q].Cell?
  {
    if a.Lost? || front == [] then a
    else
      var n, b := |front| - 1, UpFrom(a);
      if b.Lost? then Lost else Finish(front[..n], Walked(front[n].rest, b.path))
  }

  /** The end of the path from here on; the current node's children are yet to come, or not. */
  ghost function End(ctx: seq<Forest>, path: Option<string>, nochild: bool): Fate
    requires ctx != [] && forall q :: 0 <= q < |ctx| ==> ctx[q].Cell?
  {
    var n := |ctx| - 1;
    Finish(ctx[..n], Walked(if nochild then ctx[n].rest else ctx[n], path))
  }

  /** Going on, down and up leaves it what it is. */
  lemma EndSteps(ctx: seq<Forest>, path: Option<string>)
    requires ctx != [] && forall q :: 0 <= q < |ctx| ==> ctx[q].Cell?
    ensures var n := |ctx| - 1;
      && (ctx[n].kids.Empty? ==> End(ctx, path, true) == End(ctx, path, false))
      && (ctx[n].kids.Cell? ==> End(ctx + [ctx[n].kids], DownPath(path, ctx[n].f.key), false) == End(ctx, path, false))
      && (ctx[n].rest.Cell? ==> End(ctx[..n] + [ctx[n].rest], path, false) == End(ctx, path, true))
      && (ctx[n].rest.Empty? && n == 0 ==> End(ctx, path, true).Kept?)
      && (ctx[n].rest.Empty? && n > 0 && path.None? ==> End(ctx, path, true).Lost?)
      && (ctx[n].rest.Empty? && n > 0 && path.Some? ==>
            End(ctx[..n], UpPath(path.value), true) == End(ctx, path, true))
  {
    var n := |ctx| - 1;
    assert (ctx + [ctx[n].kids])[..n + 1] == ctx && (ctx[..n] + [ctx[n].rest])[..n] == ctx[..n];
    assert n > 0 ==> ctx[..n][..n - 1] == ctx[..n - 1];
  }

  class Iterator {
    var iter: Node?
    var path: Option<string>
    var nochild: bool
    ghost var ctx: seq<Forest>

    /** `xar_iter_new` */
    constructor ()
      ensures iter == null && path == None && !nochild
    {
      iter, path, nochild, ctx := null, None, false, [];
    }

    ghost predicate At(all: set<Node>)
      reads this`iter, this`ctx, all`parent, all`children, all`next
    {
      Chain(ctx, all) && iter == ctx[|ctx| - 1].f
    }

    /** The path is the names of the nodes above, joined. */
    ghost predicate Named()
      reads this`path, this`ctx
    {
      NamedAt(path, ctx)
    }

    /** `xar_file_first`, `xar_prop_first` */
    method Start(first: Node, ghost w: Forest, ghost all: set<Node>)
      requires w.Cell? && first == First(w) && Linked(w, null, all)
      requires path == None && !nochild
      modifies this`iter, this`ctx
      ensures At(all) && iter == first && ctx == [w] && ctx != []
      ensures PreOrder(w, []) == [Visit(first, [first.key])] + ToDo(ctx)
      ensures End(ctx, path, false) == Walked(w, None)
      ensures KeysOk(w) ==> Named()
    {
      hide *;
      iter := first;
      ctx := [w];
      OneCell(w, all);
      IsAt(all);
      StartsSo(w);
    }

    lemma StartsSo(w: Forest)
      requires w.Cell? && ctx == [w] && path == None
      ensures End(ctx, path, false) == Walked(w, None)
      ensures KeysOk(w) ==> Named()
    {
      assert ctx[..0] == [];
    }

    /** The node's name with those of the nodes above it: `xar_prop_next` puts it together
        from the path. */
    method Name() returns (name: string)
      requires iter != null
      ensures name == if path.None? then iter.key else path.value + [SEP] + iter.key
    {
      name := if path.None? then iter.key else path.value + [SEP] + iter.key;
    }

    lemma AtFacts(all: set<Node>)
      requires At(all)
      ensures Chain(ctx, all) && ctx != [] && (forall q :: 0 <= q < |ctx| ==> ctx[q].Cell?)
      ensures iter == ctx[|ctx| - 1].f
    {
    }

    lemma NameIs(all: set<Node>)
      requires At(all) && Named()
      ensures ctx != [] && forall q :: 0 <= q < |ctx| ==> ctx[q].Cell?
      ensures Join(Keys(ctx)) == if path.None? then iter.key else path.value + [SEP] + iter.key
    {
      assert Keys(ctx) == Keys(ctx)[..|ctx| - 1] + [iter.key];
    }

    ghost predicate Before(todo: seq<Visit>, fate: Fate, all: set<Node>)
      reads this, all`parent, all`children, all`next
    {
      At(all) && !nochild && todo == ToDo(ctx) && fate == End(ctx, path, false)
    }

    lemma IsBefore(todo: seq<Visit>, fate: Fate, all: set<Node>)
      requires At(all) && !nochild && ctx != [] && (forall q :: 0 <= q < |ctx| ==> ctx[q].Cell?)
      requires todo == ToDo(ctx) && fate == End(ctx, path, false)
      ensures Before(todo, fate, all)
    {
    }

    lemma BeforeFacts(todo: seq<Visit>, fate: Fate, all: set<Node>)
      requires Before(todo, fate, all)
      ensures At(all) && !nochild && ctx != [] && (forall q :: 0 <= q < |ctx| ==> ctx[q].Cell?)
      ensures todo == ToDo(ctx) && fate == End(ctx, path, false)
    {
    }

    lemma IsAt(all: set<Node>)
      requires Chain(ctx, all) && iter == ctx[|ctx| - 1].f
      ensures At(all)
    {
    }

    /** What to do at a node: what is below it, if there is anything, comes first. */
    lemma DownFirst(w: Forest)
      requires ctx != [] && (forall q :: 0 <= q < |ctx| ==> ctx[q].Cell?) && w == ctx[|ctx| - 1].kids
      ensures w.Empty? ==> ToDo(ctx) == Beside(ctx)
      ensures w.Cell? ==> ToDo(ctx) == [Visit(w.f, Keys(ctx + [w]))] + ToDo(ctx + [w])
    {
      if w.Cell? {
        Next(w, ctx);
      } else {
        assert [] + Beside(ctx) == Beside(ctx);
      }
    }

    lemma ThenOn(w: Forest)
      requires ctx != [] && (forall q :: 0 <= q < |ctx| ==> ctx[q].Cell?) && w == ctx[|ctx| - 1].rest
      ensures w.Empty? ==> Beside(ctx) == Beside(ctx[..|ctx| - 1])
      ensures w.Cell? ==> Beside(ctx) == [Visit(w.f, Keys(ctx[..|ctx| - 1] + [w]))] + ToDo(ctx[..|ctx| - 1] + [w])
      ensures Beside([]) == []
    {
      var front := ctx[..|ctx| - 1];
      if w.Cell? {
        Next(w, front);
      } else {
        assert [] + Beside(front) == Beside(front);
      }
    }

    /** `xar_file_next`, `xar_prop_next`: down if there is anything below that has not been
        visited, else on, else up and on from there; `lost` when it goes up without a path, which
        the source looks for a separator in all the same. */
    method Advance(ghost all: set<Node>) returns (r: Node?, name: string, lost: bool)
      requires At(all) && ctx != [] && forall q :: 0 <= q < |ctx| ==> ctx[q].Cell?
      modifies this
      ensures var todo := if old(nochild) then Beside(old(ctx)) else ToDo(old(ctx));
        !lost ==>
          && (r == null <==> todo == [])
          && (r != null ==> At(all) && !nochild && r == iter && ctx != []
                            && (forall q :: 0 <= q < |ctx| ==> ctx[q].Cell?)
                            && todo == [Visit(r, Keys(ctx))] + ToDo(ctx))
      ensures !lost && r != null && old(Named()) ==> Named() && name == Join(Keys(ctx))
      ensures !lost && r != null && r.parent != null ==> OnChain(r.parent, old(ctx))
      ensures !lost && r != null ==> End(ctx, path, false) == End(old(ctx), old(path), old(nochild))
      ensures !lost && r == null ==> End(old(ctx), old(path), old(nochild)).Kept?
      ensures lost ==> End(old(ctx), old(path), old(nochild)).Lost?
      decreases |ctx|, !nochild
    {
      hide *;
      AtFacts(all);
      Links(ctx, all);
      ghost var n, w := |ctx| - 1, ctx[|ctx| - 1];
      FirstIs(w.kids);
      FirstIs(w.rest);
      DownFirst(w.kids);
      ThenOn(w.rest);
      EndSteps(ctx, path);
      var p := iter;
      lost := false;
      if !nochild && p.children != null {
        Down(w.kids, all);
        name := NameNow(all);
        return iter, name, false;
      }
      nochild := false;
      if p.next != null {
        On(w.rest, all);
        name := NameNow(all);
        return iter, name, false;
      }
      if p.parent != null {
        if path == None {
          return null, "", true;
        }
        Up(all);
        nochild := true;
        r, name, lost := Advance(all);
        if !lost && r != null && r.parent != null {
          OnLonger(r.parent, old(ctx), n);
        }
        return;
      }
      assert ctx[..n] == [];
      return null, "", false;
    }

    method NameNow(ghost all: set<Node>) returns (name: string)
      requires At(all) && iter != null && ctx != [] && forall q :: 0 <= q < |ctx| ==> ctx[q].Cell?
      ensures Named() ==> name == Join(Keys(ctx))
    {
      hide *;
      name := Name();
      if Named() {
        NameIs(all);
      }
    }

    method Down(ghost w: Forest, ghost all: set<Node>)
      requires At(all) && iter != null && ctx != [] && w == ctx[|ctx| - 1].kids && w.Cell? && iter.children == w.f
      modifies this`iter, this`path, this`ctx
      ensures At(all) && iter == w.f && ctx == old(ctx) + [w] && path == DownPath(old(path), old(iter).key)
      ensures old(Named()) ==> Named()
      ensures iter.parent != null ==> OnChain(iter.parent, old(ctx))
    {
      hide *;
      AtFacts(all);
      NamedDown(w, all);
      ChainDown(ctx, w, all);
      path := DownPath(path, iter.key);
      iter := iter.children;
      ctx := ctx + [w];
      ParentOnChain(ctx, all);
      IsAt(all);
      IsNamed();
    }

    method On(ghost w: Forest, ghost all: set<Node>)
      requires At(all) && iter != null && ctx != [] && w == ctx[|ctx| - 1].rest && w.Cell? && iter.next == w.f
      modifies this`iter, this`ctx
      ensures At(all) && iter == w.f && ctx == old(ctx)[..|old(ctx)| - 1] + [w]
      ensures old(Named()) ==> Named()
      ensures iter.parent != null ==> OnChain(iter.parent, old(ctx))
    {
      hide *;
      AtFacts(all);
      NamedOn(w);
      ghost var n := |ctx| - 1;
      ChainOn(ctx, w, all);
      iter := iter.next;
      ctx := ctx[..n] + [w];
      ParentOnChain(ctx, all);
      if iter.parent != null {
        assert ctx[..n] == old(ctx)[..n];
        OnLonger(iter.parent, old(ctx), n);
      }
      IsAt(all);
      IsNamed();
    }

    method Up(ghost all: set<Node>)
      requires At(all) && |ctx| > 1 && iter != null && iter.parent == ctx[|ctx| - 2].f && path.Some?
      modifies this`iter, this`path, this`ctx
      ensures At(all) && ctx == old(ctx)[..|old(ctx)| - 1] && path == UpPath(old(path).value)
      ensures old(Named()) ==> Named()
    {
      hide *;
      AtFacts(all);
      NamedUp();
      ChainUp(ctx, all);
      path := UpPath(path.value);
      iter := iter.parent;
      ctx := ctx[..|ctx| - 1];
      IsAt(all);
      IsNamed();
    }

    lemma NamedDown(w: Forest, all: set<Node>)
      requires At(all) && ctx != [] && w == ctx[|ctx| - 1].kids && w.Cell?
      ensures Named() ==> NamedAt(DownPath(path, iter.key), ctx + [w])
    {
      if Named() {
        KeysMore(ctx, w);
        NameIs(all);
        assert Keys(ctx + [w])[..|ctx|] == Keys(ctx);
      }
    }

    lemma NamedOn(w: Forest)
      requires ctx != [] && (forall q :: 0 <= q < |ctx| ==> ctx[q].Cell?) && w == ctx[|ctx| - 1].rest && w.Cell?
      ensures Named() ==> NamedAt(path, ctx[..|ctx| - 1] + [w])
    {
      if Named() {
        var n := |ctx| - 1;
        KeysMore(ctx[..n], w);
        KeysMore(ctx, w);
        assert Keys(ctx[..n] + [w])[..n] == Keys(ctx[..n]) == Keys(ctx)[..n];
      }
    }

    lemma NamedUp()
      requires |ctx| > 1 && path.Some?
      ensures Named() ==> NamedAt(UpPath(path.value), ctx[..|ctx| - 1])
    {
      if Named() {
        var n := |ctx| - 1;
        var ks := Keys(ctx)[..n];
        KeysMore(ctx, ctx[n]);
        JoinSlash(ks);
        if n > 1 {
          JoinSlash(ks[..n - 1]);
          DirNameOf(Join(ks[..n - 1]), ks[n - 1]);
          assert Keys(ctx[..n])[..n - 1] == ks[..n - 1];
        }
      }
    }

    lemma IsNamed()
      ensures Named() <==> NamedAt(path, ctx)
    {
    }

    lemma FirstIs(w: Forest)
      ensures First(w) == null <==> w.Empty?
      ensures w.Cell? ==> First(w) == w.f
    {
    }
  }

  ghost predicate NamedAt(path: Option<string>, ctx: seq<Forest>) {
    && ctx != [] && (forall q :: 0 <= q < |ctx| ==> ctx[q].Cell? && KeysOk(ctx[q]))
    && path == (if |ctx| == 1 then None else Some(Join(Keys(ctx)[..|ctx| - 1])))
  }

  // ----- every node once

  ghost function NodeSet(w: Forest): set<Node> {
    if w.Empty? then {} else {w.f} + NodeSet(w.kids) + NodeSet(w.rest)
  }

  ghost function Nodes(visits: seq<Visit>): (ns: seq<Node>)
    ensures |ns| == |visits| && forall i :: 0 <= i < |ns| ==> ns[i] == visits[i].f
  {
    seq(|visits|, i requires 0 <= i < |visits| => visits[i].f)
  }

  /** No node is in two places. */
  ghost predicate Once(w: Forest) {
    w.Cell? ==>
      && Once(w.kids) && Once(w.rest) && w.f !in NodeSet(w.kids) + NodeSet(w.rest) && NodeSet(w.kids) !! NodeSet(w.rest)
  }

  ghost predicate Distinct(visits: seq<Visit>) {
    forall j, k :: 0 <= j < k < |visits| ==> visits[j].f != visits[k].f
  }

  ghost function Size(w: Forest): nat {
    if w.Empty? then 0 else 1 + Size(w.kids) + Size(w.rest)
  }

  /** A node's links determine what is below and beside it. */
  lemma {:induction false} SameCell(v: Forest, w: Forest, p: Node?, q: Node?, all: set<Node>)
    requires Linked(v, p, all) && Linked(w, q, all) && First(v) == First(w)
    ensures v == w
    decreases v
  {
    if v.Cell? {
      SameCell(v.kids, w.kids, v.f, w.f, all);
      SameCell(v.rest, w.rest, p, q, all);
    }
  }

  lemma {:induction false} CellAt(w: Forest, p: Node?, x: Node, all: set<Node>) returns (c: Forest, q: Node?)
    requires Linked(w, p, all) && x in NodeSet(w)
    ensures Linked(c, q, all) && c.Cell? && c.f == x && Size(c) <= Size(w)
    decreases w
  {
    if x == w.f {
      return w, p;
    } else if x in NodeSet(w.kids) {
      c, q := CellAt(w.kids, w.f, x, all);
    } else {
      c, q := CellAt(w.rest, p, x, all);
    }
  }

  lemma NotFurtherOn(w: Forest, p: Node?, all: set<Node>)
    requires Linked(w, p, all) && w.Cell?
    ensures w.f !in NodeSet(w.kids) && w.f !in NodeSet(w.rest)
  {
    if w.f in NodeSet(w.kids) {
      var c, q := CellAt(w.kids, w.f, w.f, all);
      SameCell(c, w, q, p, all);
    } else if w.f in NodeSet(w.rest) {
      var c, q := CellAt(w.rest, p, w.f, all);
      SameCell(c, w, q, p, all);
    }
  }

  lemma {:induction false} ParentIn(w: Forest, p: Node?, x: Node, all: set<Node>)
    requires Linked(w, p, all) && x in NodeSet(w)
    ensures x.parent == p || x.parent in NodeSet(w)
    decreases w
  {
    if x in NodeSet(w.kids) {
      ParentIn(w.kids, w.f, x, all);
    } else if x in NodeSet(w.rest) {
      ParentIn(w.rest, p, x, all);
    }
  }

  /** Lists below different parents share nothing, if neither parent is in the other. */
  lemma {:induction false} Apart(v: Forest, p: Node?, w: Forest, q: Node?, all: set<Node>)
    requires Linked(v, p, all) && Linked(w, q, all) && p != q && p !in NodeSet(w) && q !in NodeSet(v)
    ensures NodeSet(v) !! NodeSet(w)
    decreases v
  {
    if v.Cell? {
      if v.f in NodeSet(w) {
        ParentIn(w, q, v.f, all);
      }
      Apart(v.kids, v.f, w, q, all);
      Apart(v.rest, p, w, q, all);
    }
  }

  /** In nodes that are linked as a forest, none is in two places. */
  lemma {:induction false} LinkedOnce(w: Forest, p: Node?, all: set<Node>)
    requires Linked(w, p, all) && p !in NodeSet(w)
    ensures Once(w)
    decreases w
  {
    if w.Cell? {
      NotFurtherOn(w, p, all);
      LinkedOnce(w.kids, w.f, all);
      LinkedOnce(w.rest, p, all);
      Apart(w.kids, w.f, w.rest, p, all);
    }
  }

  lemma {:induction false} VisitsNode(w: Forest, above: seq<string>, f: Node)
    ensures f in NodeSet(w) <==> f in Nodes(PreOrder(w, above))
    decreases w
  {
    if w.Cell? {
      var here := above + [w.f.key];
      VisitsNode(w.kids, here, f);
      VisitsNode(w.rest, above, f);
      assert Nodes(PreOrder(w, above)) == [w.f] + Nodes(PreOrder(w.kids, here)) + Nodes(PreOrder(w.rest, above));
    }
  }

  lemma {:induction false} OnceIsDistinct(w: Forest, above: seq<string>)
    requires Once(w)
    ensures Distinct(PreOrder(w, above))
    decreases w
  {
    if w.Cell? {
      var here := above + [w.f.key];
      var kids, rest := PreOrder(w.kids, here), PreOrder(w.rest, above);
      OnceIsDistinct(w.kids, here);
      OnceIsDistinct(w.rest, above);
      forall i | 0 <= i < |kids| ensures kids[i].f in NodeSet(w.kids) {
        assert Nodes(kids)[i] == kids[i].f;
        VisitsNode(w.kids, here, kids[i].f);
      }
      forall i | 0 <= i < |rest| ensures rest[i].f in NodeSet(w.rest) {
        assert Nodes(rest)[i] == rest[i].f;
        VisitsNode(w.rest, above, rest[i].f);
      }
    }
  }

  /** A walk in pre-order comes to every node of a forest. */
  lemma EachVisited(w: Forest)
    ensures forall f :: f in Nodes(PreOrder(w, [])) <==> f in NodeSet(w)
  {
    forall f: Node ensures f in NodeSet(w) <==> f in Nodes(PreOrder(w, [])) {
      VisitsNode(w, [], f);
    }
  }

  /** In nodes linked as a forest, it comes to none of them twice. */
  lemma EachOnce(w: Forest, all: set<Node>)
    requires Linked(w, null, all)
    ensures Once(w) && Distinct(PreOrder(w, []))
  {
    LinkedOnce(w, null, all);
    OnceIsDistinct(w, []);
  }

  /** The loop around the iterator. It returns every node once, in order, unless the path kept
      aside is lost on the way; the names are those that lead to the nodes if no key is empty or
      has a separator in it. */
  method VisitAll(first: Node?, ghost w: Forest, ghost all: set<Node>)
    returns (nodes: seq<Node>, names: seq<string>, lost: bool)
    requires first == First(w) && Linked(w, null, all)
    ensures lost <==> Counted(w, NoPath).None?
    ensures KeysSome(w) ==> !lost
    ensures nodes <= Nodes(PreOrder(w, [])) && |names| == |nodes|
    ensures !lost ==> nodes == Nodes(PreOrder(w, [])) && forall f :: f in nodes <==> f in NodeSet(w)
    ensures KeysOk(w) ==> forall i :: 0 <= i < |names| ==>
      var keys := PreOrder(w, [])[i].keys; keys != [] && names[i] == Join(keys)
    ensures forall j, k :: 0 <= j < k < |nodes| ==> nodes[j] != nodes[k]
  {
    hide *;
    EachOnce(w, all);
    AreDistinct(PreOrder(w, []));
    SomeLasts(w);
    StartCounted(w);
    ghost var visits: seq<Visit> := [];
    nodes, names, lost := [], [], false;
    NoVisits(w);
    if first == null {
      return;
    }
    OneCell(w, all);
    var it := new Iterator();
    it.Start(first, w, all);
    var f: Node?, name := first, first.key;
    OneName(first.key);
    visits, nodes, names := [Visit(first, [first.key])], [first], [name];
    ghost var todo, fate := ToDo(it.ctx), Walked(w, None);
    it.IsBefore(todo, fate, all);
    while f != null
      invariant fresh(it) && (f != null ==> it.Before(todo, fate, all) && (KeysOk(w) ==> it.Named()))
      invariant f == null ==> (if lost then fate.Lost? else todo == [] && fate.Kept?)
      invariant PreOrder(w, []) == visits + todo
      invariant nodes == Nodes(visits) && |names| == |visits|
      invariant KeysOk(w) ==> forall i :: 0 <= i < |names| ==> visits[i].keys != [] && names[i] == Join(visits[i].keys)
      invariant lost ==> f == null
      decreases |todo|, f != null
    {
      it.BeforeFacts(todo, fate, all);
      f, name, lost := it.Advance(all);
      if lost {
        f := null;
      } else if f != null {
        it.AtFacts(all);
        ghost var v := Visit(f, Keys(it.ctx));
        assert visits + ([v] + ToDo(it.ctx)) == visits + [v] + ToDo(it.ctx);
        visits, nodes, names := visits + [v], nodes + [f], names + [name];
        todo := ToDo(it.ctx);
        it.IsBefore(todo, fate, all);
      }
    }
    EachVisited(w);
    NodesOf(visits, todo);
  }

  lemma NodesOf(a: seq<Visit>, b: seq<Visit>)
    ensures Nodes(a) <= Nodes(a + b)
    ensures b == [] ==> a + b == a
  {
  }

  lemma StartCounted(w: Forest)
    ensures Walked(w, None).Kept? <==> Counted(w, NoPath).Some?
    ensures Walked(w, None).Lost? <==> Counted(w, NoPath).None?
  {
    CountedIs(w, None);
  }

  lemma SomeLasts(w: Forest)
    ensures KeysSome(w) ==> Walked(w, None).Kept?
  {
    if KeysSome(w) {
      PathLasts(w, None, 0);
    }
  }

  lemma AreDistinct(visits: seq<Visit>)
    ensures Distinct(visits) ==> forall j, k :: 0 <= j < k < |visits| ==> Nodes(visits)[j] != Nodes(visits)[k]
  {
  }

  lemma NoVisits(w: Forest)
    ensures First(w) == null ==> PreOrder(w, []) == [] && NodeSet(w) == {}
    ensures First(w) == null ==> Walked(w, None) == Kept(None) && Nodes([]) == []
    ensures First(w) != null ==> w.Cell?
  {
  }

  lemma OneName(key: string)
    ensures Join([key]) == key
  {
  }

  // ----- searching

  ghost predicate Unique(w: Forest) {
    w.Cell? ==> w.f.key !in Roots(w.rest) && Unique(w.kids) && Unique(w.rest)
  }

  /** The keys of a list of siblings. */
  ghost function Roots(w: Forest): set<string> {
    if w.Empty? then {} else {w.f.key} + Roots(w.rest)
  }

  /** Up to the first separator, and what is behind it if there is one: `strsep`. */
  function Cut(key: string): (string, Option<string>) {
    if key == "" then ("", None)
    else if key[0] == SEP then ("", Some(key[1..]))
    else var (head, tail) := Cut(key[1..]); ([key[0]] + head, tail)
  }

  /** The first of the siblings with the first key decides. */
  ghost function Found(w: Forest, key: string): Node?
    decreases w
  {
    if w.Empty? then null
    else
      var (head, tail) := Cut(key);
      if head == w.f.key then (if tail.None? then w.f else Found(w.kids, tail.value))
      else Found(w.rest, key)
  }

  lemma {:induction false} CutJoin(keys: seq<string>)
    requires keys != [] && forall i :: 0 <= i < |keys| ==> SEP !in keys[i]
    ensures Cut(Join(keys)) == (keys[0], if |keys| == 1 then None else Some(Join(keys[1..])))
    decreases |keys|
  {
    if |keys| == 1 {
      CutPlain(keys[0], "", false);
    } else {
      JoinFront(keys);
      CutPlain(keys[0], Join(keys[1..]), true);
    }
  }

  /** Joined from the front as from the back. */
  lemma {:induction false} JoinFront(keys: seq<string>)
    requires |keys| > 1
    ensures Join(keys) == keys[0] + [SEP] + Join(keys[1..])
    decreases |keys|
  {
    var n := |keys| - 1;
    if n > 1 {
      JoinFront(keys[..n]);
      assert keys[..n][1..] == keys[1..][..n - 1];
      var a, b, c := keys[0] + [SEP], Join(keys[1..][..n - 1]), [SEP] + keys[n];
      assert Join(keys[1..]) == b + [SEP] + keys[n] == b + c;
      assert Join(keys) == a + b + [SEP] + keys[n] == a + (b + c);
    } else {
      assert keys[..1] == [keys[0]] && keys[1..] == [keys[1]];
    }
  }

  lemma {:induction false} CutPlain(key: string, rest: string, more: bool)
    requires SEP !in key
    ensures Cut(if more then key + [SEP] + rest else key) == (key, if more then Some(rest) else None)
    decreases |key|
  {
    if key == "" {
      assert more ==> ("" + [SEP] + rest)[0] == SEP && ("" + [SEP] + rest)[1..] == rest;
    } else {
      CutPlain(key[1..], rest, more);
      assert [key[0]] + key[1..] == key;
      assert more ==> (key + [SEP] + rest)[1..] == key[1..] + [SEP] + rest && (key + [SEP] + rest)[0] == key[0];
    }
  }

  /** The keys below a node start with its own. */
  lemma {:induction false} KeysAbove(w: Forest, above: seq<string>, i: nat)
    requires i < |PreOrder(w, above)|
    ensures |PreOrder(w, above)| == |PreOrder(w, [])|
    ensures PreOrder(w, above)[i] == Visit(PreOrder(w, [])[i].f, above + PreOrder(w, [])[i].keys)
    decreases w
  {
    var here := above + [w.f.key];
    SameLength(w.kids, here, [w.f.key]);
    SameLength(w.rest, above, []);
    assert [] + [w.f.key] == [w.f.key];
    var kids := |PreOrder(w.kids, here)|;
    if 0 < i <= kids {
      KeysAbove(w.kids, here, i - 1);
      KeysAbove(w.kids, [w.f.key], i - 1);
      var rel := PreOrder(w.kids, [])[i - 1].keys;
      assert here + rel == above + ([w.f.key] + rel);
    } else if i > kids {
      KeysAbove(w.rest, above, i - 1 - kids);
    }
  }

  lemma {:induction false} SameLength(w: Forest, a: seq<string>, b: seq<string>)
    ensures |PreOrder(w, a)| == |PreOrder(w, b)|
    decreases w
  {
    if w.Cell? {
      SameLength(w.kids, a + [w.f.key], b + [w.f.key]);
      SameLength(w.rest, a, b);
    }
  }

  lemma {:induction false} VisitKeys(w: Forest, i: nat)
    requires KeysOk(w) && i < |PreOrder(w, [])|
    ensures var ks := PreOrder(w, [])[i].keys;
      ks != [] && ks[0] in Roots(w) && forall j :: 0 <= j < |ks| ==> KeyOk(ks[j])
    decreases w
  {
    var kids := |PreOrder(w.kids, [w.f.key])|;
    assert [] + [w.f.key] == [w.f.key];
    SameLength(w.kids, [w.f.key], []);
    if 0 < i <= kids {
      KeysAbove(w.kids, [w.f.key], i - 1);
      VisitKeys(w.kids, i - 1);
    } else if i > kids {
      VisitKeys(w.rest, i - 1 - kids);
    }
  }

  /** The name the iterator gives a node leads back to it, where no two siblings have the
      same key. */
  lemma {:induction false} NameLeadsBack(w: Forest, i: nat)
    requires KeysOk(w) && Unique(w) && i < |PreOrder(w, [])|
    ensures PreOrder(w, [])[i].keys != []
    ensures Found(w, Join(PreOrder(w, [])[i].keys)) == PreOrder(w, [])[i].f
    decreases w
  {
    hide Join, Cut;
    var ks := PreOrder(w, [])[i].keys;
    var kids := |PreOrder(w.kids, [w.f.key])|;
    assert [] + [w.f.key] == [w.f.key];
    SameLength(w.kids, [w.f.key], []);
    VisitKeys(w, i);
    CutJoin(ks);
    if 0 < i <= kids {
      KeysAbove(w.kids, [w.f.key], i - 1);
      VisitKeys(w.kids, i - 1);
      assert ks[1..] == PreOrder(w.kids, [])[i - 1].keys;
      NameLeadsBack(w.kids, i - 1);
    } else if i > kids {
      VisitKeys(w.rest, i - 1 - kids);
      NameLeadsBack(w.rest, i - 1 - kids);
    }
  }

  /** The name, split by separators, is the keys that lead to node i. */
  ghost predicate Leads(w: Forest, i: nat, name: string) {
    i < |PreOrder(w, [])| && PreOrder(w, [])[i].keys != [] && Join(PreOrder(w, [])[i].keys) == name
  }

  lemma {:induction false} CutIs(key: string)
    ensures var (head, tail) := Cut(key);
      key == if tail.None? then head else head + [SEP] + tail.value
    decreases |key|
  {
    if key != "" && key[0] != SEP {
      CutIs(key[1..]);
    }
  }

  /** What is found has the name that was searched for. */
  lemma {:induction false} FoundAt(w: Forest, key: string) returns (i: nat)
    requires Found(w, key) != null
    ensures Leads(w, i, key) && PreOrder(w, [])[i].f == Found(w, key)
    decreases w
  {
    hide Join, Cut;
    var (head, tail) := Cut(key);
    CutIs(key);
    var k := w.f.key;
    assert [] + [k] == [k];
    SameLength(w.kids, [k], []);
    if head != k {
      i := FoundAt(w.rest, key);
      i := 1 + |PreOrder(w.kids, [k])| + i;
    } else if tail.None? {
      i := 0;
      OneName(k);
    } else {
      i := FoundAt(w.kids, tail.value);
      KeysAbove(w.kids, [k], i);
      var ks := PreOrder(w.kids, [])[i].keys;
      JoinFront([k] + ks);
      assert ([k] + ks)[1..] == ks;
      i := 1 + i;
    }
  }

  /** Something is, if a node has that name and no two siblings have the same key. */
  lemma FoundIs(w: Forest, key: string)
    ensures Found(w, key) != null ==> exists i: nat :: Leads(w, i, key) && PreOrder(w, [])[i].f == Found(w, key)
    ensures KeysOk(w) && Unique(w) ==> (Found(w, key) == null <==> forall i: nat :: !Leads(w, i, key))
  {
    hide Found, PreOrder, Join;
    if Found(w, key) != null {
      var i := FoundAt(w, key);
    }
    if KeysOk(w) && Unique(w) {
      forall i: nat | Leads(w, i, key) ensures Found(w, key) != null {
        NameLeadsBack(w, i);
      }
    }
  }

  /** `xar_prop_find`: what it finds has that name. Under keys that are not empty, have no separator
      in them and are unique among siblings it finds nothing exactly if no node has that name. */
  method Find(p: Node?, key: string, ghost w: Forest, ghost parent: Node?, ghost all: set<Node>) returns (r: Node?)
    requires p == First(w) && Linked(w, parent, all)
    ensures r == Found(w, key)
    ensures r != null ==> exists i: nat :: Leads(w, i, key) && PreOrder(w, [])[i].f == r
    ensures KeysOk(w) && Unique(w) ==> (r == null <==> forall i: nat :: !Leads(w, i, key))
    decreases w
  {
    FoundIs(w, key);
    if p == null {
      return null;
    }
    var (head, tail) := Cut(key);
    var i: Node? := p;
    ghost var v := w;
    while i != null
      invariant i == First(v) && Linked(v, parent, all) && Found(v, key) == Found(w, key)
      invariant v == w || v < w
      decreases v
    {
      if head == i.key {
        if tail.None? {
          return i;
        }
        r := Find(i.children, tail.value, v.kids, i, all);
        return;
      }
      i := i.next;
      v := v.rest;
    }
    r := null;
  }

  /** With a repeated key it does not: the second of two like-named files is never found. */
  lemma FirstOfTwo(a: Node, b: Node, key: string)
    requires a.key == b.key == key && KeyOk(key)
    ensures var w := Cell(a, Empty, Cell(b, Empty, Empty));
      PreOrder(w, []) == [Visit(a, [key]), Visit(b, [key])] && Found(w, Join([key])) == a
  {
    var w := Cell(a, Empty, Cell(b, Empty, Empty));
    assert [] + [key] == [key];
    assert PreOrder(w.rest, []) == [Visit(b, [key])] && PreOrder(w.kids, [key]) == [];
    CutJoin([key]);
  }
}
