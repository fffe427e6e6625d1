/** `fts_open` and `fts_read` on linked nodes that share one growing path buffer. */
module Fts {
  import opened FtsMachine
  import opened FtsSeen
  import opened FtsStray
  import opened Wrappers

  const NUL: char := '\0'

  /** A file in the list of its directory. */
  class Ent {
    var name: string
    var level: int
    var info: Info
    var id: Id
    var nlink: nat
    var link: Ent?
    var parent: Ent?
    /** Points to the shared buffer, where the first pathlen characters are this file's path. */
    var path: array<char>
    var pathlen: nat
    /** What those characters should be when this file is returned. */
    ghost var full: string

    /** `fts_alloc` */
    constructor (name: string, path: array<char>)
      ensures this.name == name && this.path == path && link == null && parent == null && id == NO_ID && nlink == 0
      ensures pathlen == 0 && Val() == Node("", INIT, NO_ID, 0)
    {
      this.name := name;
      this.path := path;
      level, info, id, nlink, link, parent, pathlen, full := 0, INIT, NO_ID, 0, null, null, 0, "";
    }

    ghost function Val(): Node
      reads this`full, this`info, this`id, this`nlink
    {
      Node(full, info, id, nlink)
    }
  }

  // ----- sibling lists

  ghost function Next(es: seq<Ent>, j: nat): Ent? {
    if j + 1 < |es| then es[j + 1] else null
  }

  ghost predicate Chained(es: seq<Ent>, vs: seq<Node>, level: int, parent: Ent)
    reads es`full, es`info, es`id, es`nlink, es`level, es`parent, es`link
  {
    && |es| == |vs|
    && (forall j :: 0 <= j < |es| ==>
          && es[j].Val() == vs[j] && es[j].level == level && es[j].parent == parent
          && es[j].link == Next(es, j))
    && (forall i, j :: 0 <= i < j < |es| ==> es[i] != es[j])
  }

  /** A file goes at the end of a list. */
  method Append(p: Ent, head0: Ent?, tail0: Ent?, ghost es: seq<Ent>, ghost vs: seq<Node>, ghost level: int,
                ghost parent: Ent)
    returns (head: Ent, tail: Ent)
    requires Chained(es, vs, level, parent) && p !in es && p.link == null && p.level == level && p.parent == parent
    requires head0 == (if es == [] then null else es[0]) && tail0 == (if es == [] then null else es[|es| - 1])
    modifies es`link
    ensures Chained(es + [p], vs + [p.Val()], level, parent)
    ensures head == (es + [p])[0] && tail == p
  {
    ghost var v := p.Val();
    if head0 == null {
      head := p;
    } else {
      head := head0;
      tail0.link := p;
    }
    tail := p;
    assert p.Val() == v;
  }

  /** The children of the directory at dir. */
  ghost predicate KidPaths(es: seq<Ent>, vs: seq<Node>, dir: string)
    reads es`pathlen, es`name
  {
    |es| == |vs| && forall j :: 0 <= j < |es| ==>
      es[j].pathlen == |vs[j].path| && vs[j].path == ChildPath(dir, es[j].name) && NameOk(es[j].name)
  }

  /** The roots; the first of them has been loaded. */
  ghost predicate RootPaths(es: seq<Ent>, vs: seq<Node>)
    reads es`pathlen, es`name
  {
    |es| == |vs| && forall j :: 0 <= j < |es| ==>
      && (j == 0 ==> es[j].pathlen == |vs[j].path|)
      && (vs[j].info != INIT ==> vs[j].path != "")
      && (j > 0 ==> vs[j].info != INIT && vs[j].path == es[j].name)
  }

  /** One list of siblings, at the level they have. */
  ghost predicate LevelOf(es: seq<Ent>, vs: seq<Node>, level: nat, parent: Ent, dir: string)
    reads es`full, es`info, es`id, es`nlink, es`level, es`parent, es`link, es`pathlen, es`name
  {
    Chained(es, vs, level, parent) && if level == 0 then RootPaths(es, vs) else KidPaths(es, vs, dir)
  }

  /** The first of a list is done with. */
  method Settle(p: Ent, info: Info, ghost es: seq<Ent>, ghost vs: seq<Node>, ghost level: nat, ghost parent: Ent,
                ghost dir: string)
    requires LevelOf(es, vs, level, parent, dir) && es != [] && p == es[0] && vs[0].info == D && info != INIT
    modifies p`info
    ensures LevelOf(es, [vs[0].(info := info)] + vs[1..], level, parent, dir) && p.Val() == vs[0].(info := info)
  {
    hide *;
    LevelFacts(es, vs, level, parent, dir);
    ghost var now := [vs[0].(info := info)] + vs[1..];
    PathsNow(es, vs, now, dir);
    SetInfo(p, info, es, vs, now, level, parent);
    IsLevel(es, now, level, parent, dir);
  }

  lemma LevelFacts(es: seq<Ent>, vs: seq<Node>, level: nat, parent: Ent, dir: string)
    requires LevelOf(es, vs, level, parent, dir)
    ensures |es| == |vs| && Chained(es, vs, level, parent)
    ensures if level == 0 then RootPaths(es, vs) else KidPaths(es, vs, dir)
  {
  }

  lemma IsLevel(es: seq<Ent>, vs: seq<Node>, level: nat, parent: Ent, dir: string)
    requires Chained(es, vs, level, parent)
    requires if level == 0 then RootPaths(es, vs) else KidPaths(es, vs, dir)
    ensures LevelOf(es, vs, level, parent, dir)
  {
  }

  /** The paths say nothing about what a file is, once that is known. */
  lemma PathsNow(es: seq<Ent>, vs: seq<Node>, now: seq<Node>, dir: string)
    requires vs != [] && vs[0].info != INIT
    requires |now| == |vs| && now[0].path == vs[0].path && now[0].info != INIT && now[1..] == vs[1..]
    ensures RootPaths(es, vs) ==> RootPaths(es, now)
    ensures KidPaths(es, vs, dir) ==> KidPaths(es, now, dir)
  {
    hide NameOk, ChildPath;
    assert forall j :: 0 < j < |vs| ==> now[j] == now[1..][j - 1] == vs[j];
  }

  method SetInfo(p: Ent, info: Info, ghost es: seq<Ent>, ghost vs: seq<Node>, ghost now: seq<Node>, ghost level: nat,
                 ghost parent: Ent)
    requires Chained(es, vs, level, parent) && es != [] && p == es[0]
    requires now == [vs[0].(info := info)] + vs[1..]
    modifies p`info
    ensures Chained(es, now, level, parent) && p.Val() == now[0]
  {
    p.info := info;
  }

  /** What is left of a list without its first file, once the next is loaded. */
  lemma RestLevel(es: seq<Ent>, vs: seq<Node>, level: nat, parent: Ent, dir: string)
    requires LevelOf(es, vs, level, parent, dir) && |es| == |vs| >= 2
    requires level == 0 ==> es[1].pathlen == |vs[1].path|
    ensures LevelOf(es[1..], vs[1..], level, parent, dir)
    ensures forall j :: 0 <= j < |es[1..]| ==> es[1..][j] in es && es[1..][j] != es[0]
  {
    hide NameOk, ChildPath;
    assert forall j :: 0 <= j < |es| - 1 ==> Next(es[1..], j) == Next(es, j + 1);
  }

  /** The next root is loaded. */
  method SetLength(p: Ent, ghost es: seq<Ent>, ghost vs: seq<Node>, ghost parent: Ent)
    requires LevelOf(es, vs, 0, parent, "") && |es| == |vs| >= 2 && p == es[1] != es[0]
    modifies p`pathlen
    ensures LevelOf(es, vs, 0, parent, "") && p.pathlen == |p.name|
  {
    p.pathlen := |p.name|;
  }

  /** The root that is loaded gets another name. */
  method Rename(p: Ent, name: string, ghost es: seq<Ent>, ghost vs: seq<Node>, ghost parent: Ent)
    requires LevelOf(es, vs, 0, parent, "") && es != [] && p == es[0]
    modifies p`name
    ensures LevelOf(es, vs, 0, parent, "") && p.name == name
  {
    p.name := name;
  }

  ghost function ParentIn(frames: seq<seq<Ent>>, top: Ent, k: nat): Ent
    requires k <= |frames| && forall i :: 0 <= i < |frames| ==> frames[i] != []
  {
    if k == 0 then top else frames[k - 1][0]
  }

  ghost function DirIn(nodes: seq<seq<Node>>, k: nat): string
    requires k <= |nodes| && forall i :: 0 <= i < |nodes| ==> nodes[i] != []
  {
    if k == 0 then "" else nodes[k - 1][0].path
  }

  lemma MoreLevels(fr: seq<seq<Ent>>, nd: seq<seq<Node>>, kids: seq<Ent>, kvs: seq<Node>, top: Ent)
    requires |fr| == |nd| && kids != [] && kvs != []
    requires forall i :: 0 <= i < |fr| ==> fr[i] != [] && nd[i] != []
    requires forall k :: 0 <= k < |fr| ==> LevelOf(fr[k], nd[k], k, ParentIn(fr, top, k), DirIn(nd, k))
    requires LevelOf(kids, kvs, |fr|, ParentIn(fr, top, |fr|), DirIn(nd, |fr|))
    ensures forall k :: 0 <= k <= |fr| ==> (fr + [kids])[k] != [] && (nd + [kvs])[k] != []
    ensures forall k :: 0 <= k <= |fr| ==>
      LevelOf((fr + [kids])[k], (nd + [kvs])[k], k, ParentIn(fr + [kids], top, k), DirIn(nd + [kvs], k))
  {
    hide LevelOf, ParentIn, DirIn;
    var frames, nodes := fr + [kids], nd + [kvs];
    assert frames[|fr|] == kids && nodes[|fr|] == kvs;
    assert forall k :: 0 <= k < |fr| ==> frames[k] == fr[k] && nodes[k] == nd[k];
    forall k | 0 <= k <= |fr| ensures LevelOf(frames[k], nodes[k], k, ParentIn(frames, top, k), DirIn(nodes, k)) {
      SameAbove(fr, nd, kids, kvs, top, k);
      if k < |fr| {
        assert LevelOf(fr[k], nd[k], k, ParentIn(fr, top, k), DirIn(nd, k));
      }
    }
  }

  lemma SameAbove(fr: seq<seq<Ent>>, nd: seq<seq<Node>>, kids: seq<Ent>, kvs: seq<Node>, top: Ent, k: nat)
    requires k <= |fr| == |nd| && kids != [] && kvs != []
    requires forall i :: 0 <= i < |fr| ==> fr[i] != [] && nd[i] != []
    ensures forall i :: 0 <= i <= |fr| ==> (fr + [kids])[i] != [] && (nd + [kvs])[i] != []
    ensures ParentIn(fr + [kids], top, k) == ParentIn(fr, top, k) && DirIn(nd + [kvs], k) == DirIn(nd, k)
  {
  }

  lemma MoreMembers<T>(fr: seq<seq<T>>, kids: seq<T>, es: set<T>)
    requires forall i, j :: 0 <= i < |fr| && 0 <= j < |fr[i]| ==> fr[i][j] in es
    requires forall j :: 0 <= j < |kids| ==> kids[j] in es
    ensures forall i, j :: 0 <= i <= |fr| && 0 <= j < |(fr + [kids])[i]| ==> (fr + [kids])[i][j] in es
  {
    forall i, j | 0 <= i <= |fr| && 0 <= j < |(fr + [kids])[i]| ensures (fr + [kids])[i][j] in es {
      assert i < |fr| ==> (fr + [kids])[i] == fr[i];
    }
  }

  /** The first n lists alone. */
  lemma Below(fr: seq<seq<Ent>>, nd: seq<seq<Node>>, n: nat, es: set<Ent>)
    requires n <= |fr| == |nd|
    requires forall i :: 0 <= i < |fr| ==> fr[i] != [] && nd[i] != []
    requires forall i, j :: 0 <= i < n && 0 <= j < |fr[i]| ==> fr[i][j] in es
    ensures forall k :: 0 <= k < n ==> fr[..n][k] == fr[k] && nd[..n][k] == nd[k]
    ensures forall top, k :: 0 <= k <= n ==> ParentIn(fr[..n], top, k) == ParentIn(fr, top, k)
    ensures forall k :: 0 <= k <= n ==> DirIn(nd[..n], k) == DirIn(nd, k)
    ensures forall i, j :: 0 <= i < n && 0 <= j < |fr[..n][i]| ==> fr[..n][i][j] in es
  {
  }

  /** Every path fits in the buffer, and every path pointer leads to it. */
  ghost predicate InBuffer(es: seq<Ent>, path: array<char>)
    reads es`path
  {
    forall j :: 0 <= j < |es| ==> es[j].path == path
  }

  predicate Fit(vs: seq<Node>, room: int) { forall j :: 0 <= j < |vs| ==> |vs[j].path| < room }

  /** What a root's name is cut to: the part behind the last separator, unless that is all. */
  function LastPart(name: string): string {
    if '/' !in name || name == "/" then name else Behind(name)
  }

  function Behind(name: string): string {
    if name == "" || name[|name| - 1] == '/' then "" else Behind(name[..|name| - 1]) + [name[|name| - 1]]
  }

  lemma {:induction false} BehindIs(name: string, i: nat)
    requires i <= |name| && (i == 0 || name[i - 1] == '/') && '/' !in name[i..]
    ensures Behind(name) == name[i..]
    decreases |name|
  {
    if i < |name| {
      var front, last := name[..|name| - 1], name[|name| - 1];
      assert name[i..] == front[i..] + [last];
      BehindIs(front, i);
    }
  }

  lemma BehindAt(name: string) returns (i: nat)
    ensures i <= |name| && (i == 0 || name[i - 1] == '/') && '/' !in name[i..] && Behind(name) == name[i..]
  {
    i := |name|;
    while i > 0 && name[i - 1] != '/'
      invariant 0 <= i <= |name| && '/' !in name[i..]
    {
      i := i - 1;
    }
    BehindIs(name, i);
  }

  /** It is the end of the name, and nothing that is cut off could be added to it. */
  lemma LastPartIs(name: string)
    ensures '/' !in LastPart(name) || name == "/"
    ensures var n := |name| - |LastPart(name)|;
      n >= 0 && name[n..] == LastPart(name) && (n > 0 ==> name[n - 1] == '/')
  {
    hide Behind;
    var i := BehindAt(name);
  }

  predicate NameOk(name: string) { name != "" && '/' !in name }

  ghost predicate NamesOk(fs: FileSystem) {
    forall d :: d in fs && fs[d].Listing? ==>
      forall i :: 0 <= i < |fs[d].entries| ==> NameOk(fs[d].entries[i].name)
  }

  ghost function StackOf(nodes: seq<seq<Node>>): (s: Stack)
    ensures s.Frame? <==> nodes != [] && nodes[|nodes| - 1] != []
  {
    if nodes == [] || nodes[|nodes| - 1] == [] then Nil
    else
      var top := nodes[|nodes| - 1];
      Frame(top[0], top[1..], StackOf(nodes[..|nodes| - 1]))
  }

  ghost predicate Holds(buf: seq<char>, s: string) { s <= buf }

  /** The buffer, read as a C string, is s. */
  ghost predicate Shows(buf: seq<char>, s: string) { s + [NUL] <= buf }

  ghost function Members(all: seq<seq<Ent>>): set<Ent> {
    set i, m | 0 <= i < |all| && 0 <= m < |all[i]| :: all[i][m]
  }

  /** How the links lead through the lists: along each, then up to the one before. */
  ghost predicate Spine(all: seq<seq<Ent>>, top: Ent)
    reads Members(all)`level, Members(all)`parent, Members(all)`link
  {
    && (forall i :: 0 <= i < |all| ==> all[i] != [])
    && (forall i, m :: 0 <= i < |all| && 0 <= m < |all[i]| ==>
          && all[i][m].level == i
          && all[i][m].parent == (if i == 0 then top else all[i - 1][0])
          && all[i][m].link == Next(all[i], m))
  }

  lemma SpineAt(all: seq<seq<Ent>>, top: Ent, i: nat, m: nat)
    requires Spine(all, top) && i < |all| && m < |all[i]|
    ensures all[i] != [] && (i > 0 ==> all[i - 1] != [])
    ensures all[i][m].level == i
    ensures all[i][m].parent == (if i == 0 then top else all[i - 1][0])
    ensures all[i][m].link == Next(all[i], m)
    ensures all[i][m] in Members(all)
  {
  }

  lemma {:induction false} ChainIs(nodes: seq<seq<Node>>, id: Id)
    requires forall k :: 0 <= k < |nodes| ==> nodes[k] != []
    ensures id in Chain(StackOf(nodes)) <==> exists k :: 0 <= k < |nodes| && nodes[k][0].id == id
    decreases |nodes|
  {
    if nodes != [] {
      var front := nodes[..|nodes| - 1];
      ChainIs(front, id);
      assert forall k :: 0 <= k < |front| ==> front[k] == nodes[k];
      if id in Chain(StackOf(front)) {
        var k :| 0 <= k < |front| && front[k][0].id == id;
        assert nodes[k][0].id == id;
      }
    }
  }

  /** memmove of a name and its end mark. */
  method CopyName(a: array<char>, at: nat, name: string)
    requires at + |name| < a.Length
    modifies a
    ensures a[..] == old(a[..at]) + name + [NUL] + old(a[at + |name| + 1..])
  {
    ghost var buf := a[..];
    for i := 0 to |name|
      invariant a[..] == Copied(buf, at, name[..i])
    {
      OneCopied(buf, at, name, i);
      a[at + i] := name[i];
      assert a[..] == Copied(buf, at, name[..i])[at + i := name[i]];
    }
    assert name[..|name|] == name;
    a[at + |name|] := NUL;
  }

  ghost function Copied(buf: seq<char>, at: nat, name: string): seq<char>
    requires at + |name| <= |buf|
  {
    buf[..at] + name + buf[at + |name|..]
  }

  lemma OneCopied(buf: seq<char>, at: nat, name: string, i: nat)
    requires i < |name| && at + |name| <= |buf|
    ensures Copied(buf, at, name[..i])[at + i := name[i]] == Copied(buf, at, name[..i + 1])
  {
  }

  /** Writing a child's name behind its directory's path leaves that path in place. */
  lemma WriteChild(buf: seq<char>, dir: string, name: string, out: seq<char>)
    requires dir != "" && Holds(buf, dir) && NAppend(dir) + 1 + |name| < |buf|
    requires out == (buf[..NAppend(dir)] + ['/']) + name + [NUL] + buf[NAppend(dir) + 1 + |name| + 1..]
    ensures Shows(out, ChildPath(dir, name)) && Holds(out, dir)
  {
    assert buf[..NAppend(dir)] == dir[..NAppend(dir)];
    assert out[..|ChildPath(dir, name)| + 1] == ChildPath(dir, name) + [NUL];
  }

  ghost predicate RoomIn(buf: seq<char>, dir: string, len: int) {
    && dir != "" && len == NAppend(dir) + 1 && len <= |buf|
    && Holds(buf, dir) && Holds(buf, dir[..NAppend(dir)] + "/")
  }

  lemma RoomStays(buf: seq<char>, out: seq<char>, dir: string, len: int)
    requires RoomIn(buf, dir, len) && len <= |out| && buf[..len] == out[..len]
    ensures RoomIn(out, dir, len)
  {
  }

  lemma KidLength(dir: string, name: string, len: int)
    requires dir != "" && len == NAppend(dir) + 1
    ensures |ChildPath(dir, name)| == len + |name| && |dir| <= len
  {
  }

  lemma KidIs(opt: Options, pv: Node, e: Entry, chain: set<Id>, budget: int, v: Node)
    requires v.path == ChildPath(pv.path, e.name)
    requires if budget == 0 || (opt.nostat && opt.physical && e.dtype == DtOther)
             then v.info == NSOK && v.id == NO_ID && v.nlink == 0
             else v.info == StatInfo(e.stat, IsDot(e.name), chain) && v.id == IdOf(e.stat) && v.nlink == LinksOf(e.stat)
    ensures v == Kid(opt, pv, e, chain, budget)
  {
  }

  lemma Grown(dir: string, name: string, room: nat)
    ensures Outgrows(dir, name, room) <==> |ChildPath(dir, name)| >= room
    ensures RoomFor(dir, name, room) ==
            if Outgrows(dir, name, room) then RoundUp(|ChildPath(dir, name)| + 1, 1) else room
  {
  }

  lemma GlanceIs(opt: Options, dir: string, e: Entry, elsewhere: StatResult, budget: int, room: nat)
    ensures Glance(opt, dir, e, elsewhere, budget, room) ==
            if Outgrows(dir, e.name, room) && !Unlooked(opt, e, budget) then e.(stat := elsewhere) else e
  {
  }

  lemma NoneTooLong(opt: Options, dir: string, room: nat)
    ensures !TooLong(opt, dir, [], room) && RoomAfter(opt, dir, [], room) == room
  {
  }

  lemma OneRoom(opt: Options, dir: string, es: seq<Entry>, room: nat)
    requires es != []
    ensures RoomAfter(opt, dir, es, room) ==
            RoomAfter(opt, dir, es[1..], if Listed(opt, es[0]) then RoomFor(dir, es[0].name, room) else room)
  {
  }

  /** One more entry, looked at with a buffer that has grown if one before it was too long. */
  lemma OneTooLong(opt: Options, es: seq<Entry>, e: Entry, dir: string, room: nat)
    ensures TooLong(opt, dir, es + [e], room) <==>
            TooLong(opt, dir, es, room) || (Listed(opt, e) && Outgrows(dir, e.name, room))
  {
    var all := es + [e];
    assert all[|es|] == e && forall i :: 0 <= i < |es| ==> all[i] == es[i];
  }

  lemma StatDirOk(fs: FileSystem, s: StatResult, dot: bool, anc: set<Id>, v: Node)
    requires StatOk(fs, s) && v.info == StatInfo(s, dot, anc) && v.id == IdOf(s)
    ensures DirOk(fs, anc, v)
  {
  }

  lemma ParentHolds(buf: seq<char>, dir: string, name: string)
    requires Holds(buf, ChildPath(dir, name))
    ensures Holds(buf, dir)
  {
    assert dir <= ChildPath(dir, name);
  }

  class Stream {
    const opt: Options
    const fs: FileSystem
    const top: Ent
    var cur: Ent?
    var path: array<char>
    var dev: nat
    ghost var ents: set<Ent>
    ghost var frames: seq<seq<Ent>>
    ghost var nodes: seq<seq<Node>>

    constructor (opt: Options, fs: FileSystem, top: Ent, path: array<char>)
      ensures this.opt == opt && this.fs == fs && this.top == top && this.path == path
      ensures cur == null && dev == 0 && ents == {} && frames == [] && nodes == []
    {
      this.opt, this.fs, this.top, this.path := opt, fs, top, path;
      cur, dev, ents, frames, nodes := null, 0, {}, [], [];
    }

    ghost predicate LevelOk(k: nat)
      requires |frames| == |nodes| && k < |frames|
      requires forall i :: 0 <= i < |frames| ==> frames[i] != [] && nodes[i] != []
      reads this`frames, this`nodes, frames[k]`full, frames[k]`info, frames[k]`id, frames[k]`nlink
      reads frames[k]`level, frames[k]`parent, frames[k]`link, frames[k]`pathlen, frames[k]`name
    {
      LevelOf(frames[k], nodes[k], k, ParentIn(frames, top, k), DirIn(nodes, k))
    }

    /** The lists are what the nodes say, wherever the path pointers lead. */
    ghost predicate Built()
      reads this`frames, this`nodes, this`cur, this`ents, top`level
      reads ents`full, ents`info, ents`id, ents`nlink, ents`level, ents`parent, ents`link, ents`pathlen, ents`name
    {
      && top !in ents && top.level == -1
      && |frames| == |nodes|
      && (forall i :: 0 <= i < |frames| ==> frames[i] != [] && nodes[i] != [])
      && (forall i, j :: 0 <= i < |frames| && 0 <= j < |frames[i]| ==> frames[i][j] in ents)
      && (forall k :: 0 <= k < |frames| ==> LevelOk(k))
      && cur == (if frames == [] then null else frames[|frames| - 1][0])
      && Closed(fs) && NamesOk(fs) && FtsMachine.Valid(fs, StackOf(nodes))
    }

    ghost predicate PointTo(buf: array<char>)
      reads this`frames, this`ents, ents`path
    {
      && (forall k :: 0 <= k < |frames| ==> forall j :: 0 <= j < |frames[k]| ==> frames[k][j] in ents)
      && forall k :: 0 <= k < |frames| ==> InBuffer(frames[k], buf)
    }

    ghost predicate AllFit(room: int)
      reads this`nodes
    {
      forall k :: 0 <= k < |nodes| ==> Fit(nodes[k], room)
    }

    ghost predicate Linked()
      reads this, ents, top
    {
      Built() && PointTo(path) && AllFit(path.Length)
    }

    /** The buffer holds the path of the directory we are in, and of the current node as
        long as it can still be entered. */
    ghost predicate Buffered()
      requires Linked()
      reads this, ents, top, path
    {
      && (|nodes| >= 2 ==> Holds(path[..], nodes[|nodes| - 2][0].path))
      && (|nodes| >= 1 && nodes[|nodes| - 1][0].info == D ==> Shows(path[..], nodes[|nodes| - 1][0].path))
    }

    ghost predicate Valid()
      reads this, ents, top, path
    {
      Linked() && Buffered()
    }

    ghost function State(): State
      reads this
    {
      FtsMachine.State.State(dev, StackOf(nodes))
    }

    /** An open directory, and the way up from it. */
    lemma OpenDir(k: nat)
      requires Built() && k < |frames|
      ensures |frames| == |nodes| && forall i :: 0 <= i < |nodes| ==> frames[i] != [] && nodes[i] != []
      ensures frames[k][0].level == k && frames[k][0].id == nodes[k][0].id
      ensures frames[k][0].parent == if k == 0 then top else frames[k - 1][0]
    {
      assert LevelOk(k);
      assert frames[k][0].Val() == nodes[k][0];
    }

    /** The search among the directories above for one with the same identity. */
    method Cycles(p: Ent, id: Id) returns (found: bool)
      requires Built() && p.parent == if cur == null then top else cur
      ensures found <==> id in Chain(StackOf(nodes))
    {
      hide *;
      BuiltFacts();
      IsCur();
      ChainIs(nodes, id);
      var t := p.parent;
      ghost var k := |frames| - 1;
      if k >= 0 {
        OpenDir(k);
      }
      while t.level >= 0
        invariant -1 <= k < |frames|
        invariant t == (if k < 0 then top else frames[k][0]) && t.level == k
        invariant forall i :: k < i < |frames| ==> nodes[i][0].id != id
        decreases k
      {
        OpenDir(k);
        if t.id == id {
          return true;
        }
        t := t.parent;
        k := k - 1;
        if k >= 0 {
          OpenDir(k);
        }
      }
      found := false;
    }

    lemma IsCur()
      requires Built()
      ensures if cur == null then frames == [] else frames != [] && cur == frames[|frames| - 1][0]
    {
      if frames != [] {
        assert frames[|frames| - 1] != [];
      }
    }

    /** `fts_stat`, with what the system reports for the file. */
    method Stat(p: Ent, sb: StatResult)
      requires Built() && p !in ents && p.parent == if cur == null then top else cur
      modifies p`info, p`id, p`nlink
      ensures p.info == StatInfo(sb, IsDot(p.name), Chain(StackOf(nodes)))
      ensures p.id == IdOf(sb) && p.nlink == LinksOf(sb)
    {
      hide Built, StackOf, FtsMachine.Chain;
      p.id := IdOf(sb);
      p.nlink := LinksOf(sb);
      match sb {
        case Failed => p.info := NS;
        case NoTarget => p.info := SLNONE;
        case IsLink => p.info := SL;
        case IsRegular => p.info := F;
        case IsOther => p.info := DEFAULT;
        case IsDir(id, _) =>
          if IsDot(p.name) {
            p.info := DOT;
            return;
          }
          var found := Cycles(p, id);
          p.info := if found then DC else D;
      }
    }

    /** `fts_palloc`: a bigger buffer, with what the old one held. */
    method Palloc(size: nat)
      requires size > path.Length
      modifies this`path
      ensures fresh(path) && path.Length == RoundUp(size, 1) >= size && path[..old(path.Length)] == old(path[..])
    {
      var n := RoundUp(size, 1);
      var old_path := path;
      path := new char[n](i requires i >= 0 reads old_path => if i < old_path.Length then old_path[i] else NUL);
    }

    /** The NAPPEND macro. */
    method NAppendOf(p: Ent, ghost dir: string) returns (n: nat)
      requires p.path == path && p.pathlen == |dir| > 0 && Holds(path[..], dir)
      ensures n == NAppend(dir)
    {
      assert path[..][p.pathlen - 1] == dir[p.pathlen - 1];
      n := if p.path[p.pathlen - 1] == '/' then p.pathlen - 1 else p.pathlen;
    }

    /** At the label `name`: the path of the file to be returned is completed. */
    method NameIt(p: Ent, ghost dir: string)
      requires p.parent != null && p.parent.path == path && p.parent.pathlen == |dir| > 0
      requires Holds(path[..], dir) && |ChildPath(dir, p.name)| < path.Length
      modifies path
      ensures Shows(path[..], ChildPath(dir, p.name)) && Holds(path[..], dir)
    {
      ghost var buf := path[..];
      var t := NAppendOf(p.parent, dir);
      path[t] := '/';
      assert path[..] == buf[..t] + ['/'] + buf[t + 1..];
      CopyName(path, t + 1, p.name);
      assert path[..] == (buf[..t] + ['/']) + p.name + [NUL] + buf[t + 1 + |p.name| + 1..];
      WriteChild(buf, dir, p.name, path[..]);
    }

    /** `fts_padjust`: every live file's path pointer follows the buffer. */
    method Padjust(head: Ent, ghost kids: seq<Ent>, ghost kvs: seq<Node>)
      requires Built() && cur != null
      requires Chained(kids, kvs, |frames|, cur) && kids != [] && head == kids[0]
      modifies ents`path, kids`path
      ensures Built() && PointTo(path) && InBuffer(kids, path)
    {
      hide Built, Chained, Members, Spine, LevelOk, StackOf;
      ghost var all := frames + [kids];
      IsSpine(kids, kvs);
      var p := head;
      ghost var k, j := |frames|, 0;
      assert all[|frames|] == kids && top.level == -1 by { TopLevel(); }
      while p.level >= 0
        invariant Built() && Spine(all, top) && top.level == -1
        invariant -1 <= k <= |frames| && 0 <= j && (k >= 0 ==> j < |all[k]|)
        invariant p == if k < 0 then top else all[k][j]
        invariant forall i :: k < i <= |frames| ==> InBuffer(all[i], path)
        invariant k >= 0 ==> InBuffer(all[k][..j], path)
        decreases k, if k < 0 then 0 else |all[k]| - j
      {
        SpineAt(all, top, k, j);
        InEnts(kids, k, j);
        p.path := path;
        if p.link != null {
          p := p.link;
          j := j + 1;
        } else {
          assert all[k][..j + 1] == all[k];
          p := p.parent;
          k := k - 1;
          j := 0;
        }
      }
      assert forall i :: 0 <= i < |frames| ==> all[i] == frames[i];
      TopLevel();
    }

    lemma TopLevel()
      requires Built()
      ensures top.level == -1
      ensures forall k :: 0 <= k < |frames| ==> forall j :: 0 <= j < |frames[k]| ==> frames[k][j] in ents
    {
    }

    lemma InEnts(kids: seq<Ent>, k: nat, j: nat)
      requires Built() && k < |frames + [kids]| && j < |(frames + [kids])[k]|
      ensures (frames + [kids])[k][j] in ents || (frames + [kids])[k][j] in kids
    {
    }

    lemma IsSpine(kids: seq<Ent>, kvs: seq<Node>)
      requires Built() && cur != null
      requires Chained(kids, kvs, |frames|, cur) && kids != []
      ensures Spine(frames + [kids], top)
    {
      var all: seq<seq<Ent>> := frames + [kids];
      forall i, m | 0 <= i < |all| && 0 <= m < |all[i]|
        ensures all[i][m].level == i
        ensures all[i][m].parent == (if i == 0 then top else all[i - 1][0])
        ensures all[i][m].link == Next(all[i], m)
      {
        var es, vs := all[i], if i < |frames| then nodes[i] else kvs;
        assert i < |frames| ==> es == frames[i] && LevelOk(i);
        assert Chained(es, vs, i, if i == 0 then top else all[i - 1][0]);
      }
    }

    /** The buffer starts with the directory's path and a separator, len characters. */
    ghost predicate Room(dir: string, len: int)
      reads this`path, path
    {
      RoomIn(path[..], dir, len)
    }

    /** The file for one entry is allocated, and the buffer grown if its path will not fit. */
    method AllocKid(name: string, len: nat, ghost dir: string) returns (p: Ent)
      requires Built() && cur != null && Room(dir, len) && cur.level == |frames| - 1
      modifies this`path
      ensures Built() && Room(dir, len)
      ensures path == old(path) || (fresh(path) && path.Length >= old(path.Length))
      ensures path != old(path) <==> Outgrows(dir, name, old(path.Length))
      ensures path.Length == RoomFor(dir, name, old(path.Length))
      ensures path != old(path) ==> path.Length < 2 * (|p.full| + 1)
      ensures fresh(p) && p.name == name && p.parent == cur && p.level == |frames| && p.link == null
      ensures p.path == old(path) && p.id == NO_ID && p.nlink == 0
      ensures p.full == ChildPath(dir, name) && p.pathlen == |p.full| == len + |name| < path.Length
    {
      hide *;
      ghost var was := path[..];
      RoomFacts(dir, len);
      KidLength(dir, name, len);
      Grown(dir, name, path.Length);
      p := new Ent(name, path);
      if |name| >= path.Length - len {
        Palloc(|name| + len + 1);
      }
      IsRoom(was, dir, len);
      p.level := cur.level + 1;
      p.pathlen := len + |name|;
      p.parent := cur;
      p.full := ChildPath(dir, name);
    }

    /** It is looked at, unless the entry's type or the count of links makes that needless.
        `elsewhere` is what a stat call reports through a pointer into a buffer that has been
        moved. */
    method LookAt(p: Ent, e: Entry, elsewhere: StatResult, len: nat, budget0: int, ghost pv: Node, ghost chain: set<Id>)
      returns (budget: int)
      requires Built() && cur != null && chain == FtsMachine.Chain(StackOf(nodes))
      requires Room(pv.path, len) && StatOk(fs, e.stat) && StatOk(fs, elsewhere)
      requires p !in ents && p.parent == cur && p.name == e.name && p.id == NO_ID && p.nlink == 0
      requires p.full == ChildPath(pv.path, e.name) && |p.full| == len + |e.name| < path.Length
      modifies path, p`info, p`id, p`nlink
      ensures Built() && Room(pv.path, len) && |p.Val().path| < path.Length
      ensures budget == NextBudget(budget0, p.Val().info)
      ensures p.Val() ==
        Kid(opt, pv, if p.path == path || Unlooked(opt, e, budget0) then e else e.(stat := elsewhere), chain, budget0)
      ensures DirOk(fs, chain, p.Val())
    {
      hide Built, Room, RoomIn, Kid, StatInfo, StackOf, NAppend, Holds, IsDot, StatOk, NameOk;
      budget := budget0;
      if budget == 0 || (opt.nostat && opt.physical && e.dtype == DtOther) {
        p.info := NSOK;
        KidIs(opt, pv, e, chain, budget0, p.Val());
      } else {
        ghost var was := path[..];
        RoomFacts(pv.path, len);
        CopyName(path, len, e.name);
        IsRoom(was, pv.path, len);
        var sb := if p.path == path then e.stat else elsewhere;
        Stat(p, sb);
        StatDirOk(fs, sb, IsDot(p.name), chain, p.Val());
        KidIs(opt, pv, e.(stat := sb), chain, budget0, p.Val());
        if budget > 0 && (p.info == D || p.info == DC || p.info == DOT) {
          budget := budget - 1;
        }
      }
    }

    lemma RoomFacts(dir: string, len: int)
      requires Room(dir, len)
      ensures dir != "" && len == NAppend(dir) + 1 && len <= path.Length && RoomIn(path[..], dir, len)
    {
    }

    lemma IsRoom(was: seq<char>, dir: string, len: int)
      requires RoomIn(was, dir, len) && 0 <= len <= path.Length && len <= |was| && path[..len] == was[..len]
      ensures Room(dir, len)
    {
      RoomStays(was, path[..], dir, len);
    }

    method MakeKid(e: Entry, elsewhere: StatResult, len: nat, budget0: int, ghost pv: Node, ghost chain: set<Id>)
      returns (p: Ent, budget: int)
      requires Built() && cur != null && chain == FtsMachine.Chain(StackOf(nodes))
      requires Room(pv.path, len) && cur.level == |frames| - 1 && StatOk(fs, e.stat) && StatOk(fs, elsewhere)
      modifies this`path, path
      ensures Built() && Room(pv.path, len)
      ensures path == old(path) || (fresh(path) && path.Length >= old(path.Length))
      ensures path != old(path) <==> Outgrows(pv.path, e.name, old(path.Length))
      ensures path.Length == RoomFor(pv.path, e.name, old(path.Length))
      ensures fresh(p) && p.name == e.name && p.parent == cur && p.level == |frames| && p.link == null
      ensures p.full == ChildPath(pv.path, e.name) && p.pathlen == |p.full| && |p.Val().path| < path.Length
      ensures p.path == old(path) && DirOk(fs, chain, p.Val())
      ensures budget == NextBudget(budget0, p.Val().info)
      ensures p.Val() == Kid(opt, pv, Glance(opt, pv.path, e, elsewhere, budget0, old(path.Length)), chain, budget0)
    {
      hide *;
      p := AllocKid(e.name, len, pv.path);
      budget := LookAt(p, e, elsewhere, len, budget0, pv, chain);
      GlanceIs(opt, pv.path, e, elsewhere, budget0, old(path.Length));
    }

    /** The files made so far for the entries of the current directory. */
    ghost predicate Building(kids: seq<Ent>, kvs: seq<Node>, dir: string, chain: set<Id>, head: Ent?, tail: Ent?)
      requires cur != null
      reads this`cur, this`frames, kids`full, kids`info, kids`id, kids`nlink
      reads kids`level, kids`parent, kids`link, kids`pathlen, kids`name
    {
      && Chained(kids, kvs, |frames|, cur) && KidPaths(kids, kvs, dir)
      && AllOk(fs, chain, kvs)
      && head == (if kids == [] then null else kids[0])
      && tail == (if kids == [] then null else kids[|kids| - 1])
    }

    /** The new file goes at the end of the list. */
    method LinkKid(p: Ent, head0: Ent?, tail0: Ent?, ghost was: array<char>, ghost kids: seq<Ent>, ghost kvs: seq<Node>,
                   ghost dir: string, ghost chain: set<Id>)
      returns (head: Ent, tail: Ent)
      requires cur != null && Building(kids, kvs, dir, chain, head0, tail0) && PointTo(was)
      requires p !in kids && p.link == null && p.parent == cur && p.level == |frames| && NameOk(p.name)
      requires p.full == ChildPath(dir, p.name) && p.pathlen == |p.full| && DirOk(fs, chain, p.Val())
      modifies kids`link
      ensures Building(kids + [p], kvs + [p.Val()], dir, chain, head, tail) && PointTo(was)
    {
      hide Chained, ChildPath, NameOk, DirOk, Members, InBuffer;
      head, tail := Append(p, head0, tail0, kids, kvs, |frames|, cur);
      assert p.Val().path == p.full;
    }

    /** Between two rounds of `fts_build`; `was` is the buffer it began with, and `moved`
        tells whether another has taken its place. */
    ghost predicate Reading(was: array<char>, len: int, kids: seq<Ent>, kvs: seq<Node>, pv: Node,
                            chain: set<Id>, head: Ent?, tail: Ent?, moved: bool)
      reads this, ents, top, path, kids
    {
      && Built() && cur != null && cur in ents && cur.Val() == pv && cur.level == |frames| - 1
      && chain == FtsMachine.Chain(StackOf(nodes)) && Room(pv.path, len)
      && PointTo(was) && AllFit(path.Length)
      && Building(kids, kvs, pv.path, chain, head, tail)
      && (forall k :: k in kids ==> k !in ents)
      && (moved <==> path != was)
      && (!moved ==> InBuffer(kids, path))
      && Fit(kvs, path.Length)
      && (kids == [] ==> !moved)
    }

    lemma ReadingFacts(was: array<char>, len: int, kids: seq<Ent>, kvs: seq<Node>, pv: Node,
                       chain: set<Id>, head: Ent?, tail: Ent?, moved: bool)
      requires Reading(was, len, kids, kvs, pv, chain, head, tail, moved)
      ensures cur != null && cur in ents && cur.Val() == pv && cur.level == |frames| - 1
      ensures chain == FtsMachine.Chain(StackOf(nodes))
      ensures Built() && Room(pv.path, len) && Building(kids, kvs, pv.path, chain, head, tail)
      ensures PointTo(was) && AllFit(path.Length) && (moved <==> path != was)
      ensures !moved ==> InBuffer(kids, path)
      ensures forall k :: k in kids ==> k !in ents
      ensures Fit(kvs, path.Length) && (kids == [] ==> !moved)
    {
    }

    lemma IsReading(was: array<char>, room: int, len: int, kids: seq<Ent>, p: Ent, kvs: seq<Node>,
                    v: Node, pv: Node, chain: set<Id>, head: Ent?, tail: Ent?, moved: bool)
      requires Built() && cur != null && cur in ents && cur.Val() == pv && cur.level == |frames| - 1
      requires chain == FtsMachine.Chain(StackOf(nodes)) && Room(pv.path, len) && PointTo(was)
      requires Building(kids + [p], kvs + [v], pv.path, chain, head, tail)
      requires moved <==> path != was
      requires !moved ==> InBuffer(kids, path) && p.path == path
      requires p !in ents && forall k :: k in kids ==> k !in ents
      requires AllFit(room) && Fit(kvs, room) && room <= path.Length && |v.path| < path.Length
      ensures Reading(was, len, kids + [p], kvs + [v], pv, chain, head, tail, moved)
    {
    }

    method Attach(p: Ent, head0: Ent?, tail0: Ent?, ghost was: array<char>, ghost room: int,
                  ghost len: int, ghost kids: seq<Ent>, ghost kvs: seq<Node>, ghost pv: Node, ghost chain: set<Id>,
                  ghost moved: bool)
      returns (head: Ent, tail: Ent)
      requires Built() && cur != null && cur in ents && cur.Val() == pv && cur.level == |frames| - 1
      requires chain == FtsMachine.Chain(StackOf(nodes)) && Room(pv.path, len) && PointTo(was)
      requires Building(kids, kvs, pv.path, chain, head0, tail0)
      requires p !in kids && p.link == null && p.parent == cur && p.level == |frames| && NameOk(p.name)
      requires p.full == ChildPath(pv.path, p.name) && p.pathlen == |p.full| && DirOk(fs, chain, p.Val())
      requires moved <==> path != was
      requires !moved ==> InBuffer(kids, path) && p.path == path
      requires p !in ents && forall k :: k in kids ==> k !in ents
      requires AllFit(room) && Fit(kvs, room) && room <= path.Length && |p.Val().path| < path.Length
      modifies kids`link
      ensures Reading(was, len, kids + [p], kvs + [p.Val()], pv, chain, head, tail, moved)
    {
      hide *;
      ghost var v := p.Val();
      head, tail := LinkKid(p, head0, tail0, was, kids, kvs, pv.path, chain);
      IsReading(was, room, len, kids, p, kvs, v, pv, chain, head, tail, moved);
    }

    method AddKid(e: Entry, elsewhere: StatResult, len: nat, budget0: int, head0: Ent?, tail0: Ent?, moved0: bool,
                  ghost was: array<char>, ghost kids: seq<Ent>, ghost kvs: seq<Node>,
                  ghost pv: Node, ghost chain: set<Id>)
      returns (p: Ent, budget: int, head: Ent, tail: Ent, moved: bool)
      requires Reading(was, len, kids, kvs, pv, chain, head0, tail0, moved0)
      requires NameOk(e.name) && StatOk(fs, e.stat) && StatOk(fs, elsewhere)
      modifies this`path, path, kids`link
      ensures fresh(p) && (path == old(path) || fresh(path))
      ensures path != old(path) <==> Outgrows(pv.path, e.name, old(path.Length))
      ensures path.Length == RoomFor(pv.path, e.name, old(path.Length))
      ensures Reading(was, len, kids + [p], kvs + [p.Val()], pv, chain, head, tail, moved)
      ensures budget == NextBudget(budget0, p.Val().info)
      ensures p.Val() == Kid(opt, pv, Glance(opt, pv.path, e, elsewhere, budget0, old(path.Length)), chain, budget0)
    {
      hide *;
      ReadingFacts(was, len, kids, kvs, pv, chain, head0, tail0, moved0);
      p, budget := MakeKid(e, elsewhere, len, budget0, pv, chain);
      moved := moved0 || p.path != path;
      head, tail := Attach(p, head0, tail0, was, old(path.Length), len, kids, kvs, pv, chain, moved);
    }

    lemma StartReading(len: int, pv: Node, chain: set<Id>)
      requires Built() && cur != null && cur in ents && cur.Val() == pv && cur.level == |frames| - 1
      requires chain == FtsMachine.Chain(StackOf(nodes)) && Room(pv.path, len) && PointTo(path) && AllFit(path.Length)
      ensures Reading(path, len, [], [], pv, chain, null, null, false)
    {
    }

    /** The loop over the directory's entries. */
    method ReadEntries(es: seq<Entry>, elsewhere: nat -> StatResult, len: nat, nlinks: int, ghost pv: Node,
                       ghost chain: set<Id>)
      returns (head: Ent?, moved: bool, ghost tail: Ent?, ghost kids: seq<Ent>, ghost kvs: seq<Node>)
      requires Built() && cur != null && cur in ents && cur.Val() == pv && cur.level == |frames| - 1
      requires chain == FtsMachine.Chain(StackOf(nodes)) && Room(pv.path, len) && PointTo(path) && AllFit(path.Length)
      requires forall i :: 0 <= i < |es| ==> NameOk(es[i].name) && StatOk(fs, es[i].stat)
      requires forall i :: StatOk(fs, elsewhere(i))
      modifies this`path, path
      ensures fresh(kids) && (path == old(path) || fresh(path))
      ensures Reading(old(path), len, kids, kvs, pv, chain, head, tail, moved)
      ensures kvs == Kids(opt, pv, Seen(opt, pv, es, elsewhere, chain, nlinks, old(path.Length), 0), chain, nlinks)
      ensures kids == [] <==> forall i :: 0 <= i < |es| ==> !Listed(opt, es[i])
      ensures path != old(path) <==> TooLong(opt, pv.path, es, old(path.Length))
      ensures path.Length == RoomAfter(opt, pv.path, es, old(path.Length))
    {
      hide *;
      var budget := nlinks;
      var last: Ent? := null;
      head, tail, kids, kvs, moved := null, null, [], [], false;
      ghost var rest := Seen(opt, pv, es, elsewhere, chain, nlinks, path.Length, 0);
      ghost var all := Kids(opt, pv, rest, chain, nlinks);
      StartReading(len, pv, chain);
      NoneTooLong(opt, pv.path, old(path.Length));
      assert es[0..] == es && es[..0] == [] && [] + all == all;
      for i := 0 to |es|
        invariant fresh(kids) && (path == old(path) || fresh(path))
        invariant tail == last
        invariant path != old(path) <==> TooLong(opt, pv.path, es[..i], old(path.Length))
        invariant path == old(path) ==> path.Length == old(path.Length)
        invariant RoomAfter(opt, pv.path, es[i..], path.Length) == RoomAfter(opt, pv.path, es, old(path.Length))
        invariant Reading(old(path), len, kids, kvs, pv, chain, head, last, moved)
        invariant kids == [] <==> forall j :: 0 <= j < i ==> !Listed(opt, es[j])
        invariant rest == Seen(opt, pv, es[i..], elsewhere, chain, budget, path.Length, i)
        invariant kvs + Kids(opt, pv, rest, chain, budget) == all
      {
        SeenNext(opt, pv, es[i..], elsewhere, chain, budget, path.Length, i);
        OneRoom(opt, pv.path, es[i..], path.Length);
        OneEntry(pv, rest, rest[0], chain, budget);
        assert es[i..][1..] == es[i + 1..] && es[i..][0] == es[i];
        OneTooLong(opt, es[..i], es[i], pv.path, old(path.Length));
        assert es[..i] + [es[i]] == es[..i + 1];
        if Listed(opt, es[i]) {
          var p;
          p, budget, head, last, moved := AddKid(es[i], elsewhere(i), len, budget, head, last, moved,
                                                 old(path), kids, kvs, pv, chain);
          ghost var more := Kids(opt, pv, rest[1..], chain, budget);
          assert kvs + [p.Val()] + more == kvs + ([p.Val()] + more);
          tail, kids, kvs := last, kids + [p], kvs + [p.Val()];
        }
        rest := rest[1..];
      }
      NoEntries(pv, chain, budget);
      NoneTooLong(opt, pv.path, path.Length);
      assert es[|es|..] == [] && es[..|es|] == es && rest == [] && kvs + [] == kvs;
    }

    lemma NoEntries(pv: Node, chain: set<Id>, budget: int)
      ensures Kids(opt, pv, [], chain, budget) == []
    {
    }

    lemma OneEntry(pv: Node, es: seq<Entry>, e: Entry, chain: set<Id>, budget: int)
      requires es != [] && e == es[0]
      ensures Kids(opt, pv, es, chain, budget) ==
              if Listed(opt, e) then
                [Kid(opt, pv, e, chain, budget)] +
                Kids(opt, pv, es[1..], chain, NextBudget(budget, Kid(opt, pv, e, chain, budget).info))
              else Kids(opt, pv, es[1..], chain, budget)
    {
    }

    lemma CurFacts()
      requires Built() && cur != null
      ensures nodes != [] && |frames| == |nodes| && nodes[|nodes| - 1] != [] && frames[|nodes| - 1] != []
      ensures cur in ents && cur.level == |frames| - 1 && cur == frames[|nodes| - 1][0]
      ensures cur.Val() == nodes[|nodes| - 1][0] && cur.pathlen == |cur.full|
      ensures StackOf(nodes) ==
              Frame(nodes[|nodes| - 1][0], nodes[|nodes| - 1][1..], StackOf(nodes[..|nodes| - 1]))
    {
      assert LevelOk(|frames| - 1);
    }

    lemma DirFacts()
      requires Built() && cur != null && cur.info == D
      ensures cur.full != "" && cur.id in fs
      ensures fs[cur.id].Listing? ==> forall i :: 0 <= i < |fs[cur.id].entries| ==>
        NameOk(fs[cur.id].entries[i].name) && StatOk(fs, fs[cur.id].entries[i].stat)
    {
      CurFacts();
      assert LevelOk(|frames| - 1);
    }

    lemma Apart(k: nat)
      requires Built() && k + 1 < |frames|
      ensures cur !in frames[k] && LevelOk(k)
    {
      assert LevelOk(k) && LevelOk(|frames| - 1);
    }

    lemma IsBuilt()
      requires top !in ents && top.level == -1 && |frames| == |nodes|
      requires forall i :: 0 <= i < |frames| ==> frames[i] != [] && nodes[i] != []
      requires forall i, j :: 0 <= i < |frames| && 0 <= j < |frames[i]| ==> frames[i][j] in ents
      requires forall k :: 0 <= k < |frames| ==>
        LevelOf(frames[k], nodes[k], k, ParentIn(frames, top, k), DirIn(nodes, k))
      requires cur == (if frames == [] then null else frames[|frames| - 1][0])
      requires Closed(fs) && NamesOk(fs) && FtsMachine.Valid(fs, StackOf(nodes))
      ensures Built()
    {
      hide LevelOf, StackOf, FtsMachine.Valid, NamesOk, Closed;
    }

    /** The lists are as before, up to a last one. */
    lemma Pushed(fr: seq<seq<Ent>>, nd: seq<seq<Node>>, es: set<Ent>, kids: seq<Ent>, kvs: seq<Node>)
      requires |fr| == |nd| && frames == fr + [kids] && nodes == nd + [kvs] && kids != [] && kvs != []
      requires forall i :: 0 <= i < |fr| ==> fr[i] != [] && nd[i] != []
      requires forall i, j :: 0 <= i < |fr| && 0 <= j < |fr[i]| ==> fr[i][j] in es
      requires es <= ents && (forall j :: 0 <= j < |kids| ==> kids[j] in ents)
      requires top !in ents && top.level == -1 && cur == kids[0]
      requires forall k :: 0 <= k < |fr| ==> LevelOf(fr[k], nd[k], k, ParentIn(fr, top, k), DirIn(nd, k))
      requires LevelOf(kids, kvs, |fr|, ParentIn(fr, top, |fr|), DirIn(nd, |fr|))
      requires Closed(fs) && NamesOk(fs) && FtsMachine.Valid(fs, StackOf(nodes))
      ensures Built()
    {
      hide *;
      MoreLevels(fr, nd, kids, kvs, top);
      MoreMembers(fr, kids, ents);
      IsBuilt();
    }

    /** The last list has become another. */
    lemma Relaid(fr: seq<seq<Ent>>, nd: seq<seq<Node>>, es: seq<Ent>, vs: seq<Node>)
      requires fr != [] && |fr| == |nd| && frames == fr[..|fr| - 1] + [es] && nodes == nd[..|fr| - 1] + [vs]
      requires es != [] && vs != [] && forall i :: 0 <= i < |fr| ==> fr[i] != [] && nd[i] != []
      requires forall i, j :: 0 <= i < |fr| - 1 && 0 <= j < |fr[i]| ==> fr[i][j] in ents
      requires forall j :: 0 <= j < |es| ==> es[j] in ents
      requires top !in ents && top.level == -1 && cur == es[0]
      requires forall k :: 0 <= k < |fr| - 1 ==> LevelOf(fr[k], nd[k], k, ParentIn(fr, top, k), DirIn(nd, k))
      requires LevelOf(es, vs, |fr| - 1, ParentIn(fr, top, |fr| - 1), DirIn(nd, |fr| - 1))
      requires Closed(fs) && NamesOk(fs) && FtsMachine.Valid(fs, StackOf(nodes))
      ensures Built()
    {
      hide *;
      var n := |fr| - 1;
      Below(fr, nd, n, ents);
      forall k | 0 <= k < n ensures LevelOf(fr[..n][k], nd[..n][k], k, ParentIn(fr[..n], top, k), DirIn(nd[..n], k)) {
        assert LevelOf(fr[k], nd[k], k, ParentIn(fr, top, k), DirIn(nd, k));
      }
      Pushed(fr[..n], nd[..n], ents, es, vs);
    }

    lemma MarkedStack(nd: seq<seq<Node>>, info: Info)
      requires nd != [] && nd[|nd| - 1] != [] && FtsMachine.Valid(fs, StackOf(nd)) && info != D
      ensures var n := |nd| - 1;
        var s := StackOf(nd[..n] + [[nd[n][0].(info := info)] + nd[n][1..]]);
        FtsMachine.Valid(fs, s) && (FtsMachine.State.State(dev, s), Some(nd[n][0].(info := info))) ==
                                   FtsMachine.Mark(dev, StackOf(nd), info)
    {
      var n := |nd| - 1;
      var nd' := nd[..n] + [[nd[n][0].(info := info)] + nd[n][1..]];
      assert nd'[..n] == nd[..n] && nd'[n][1..] == nd[n][1..];
    }

    lemma MarkedFits(nd: seq<seq<Node>>, vs: seq<Node>, info: Info, room: int)
      requires nd != [] && nd[|nd| - 1] != [] && nodes == nd[..|nd| - 1] + [vs]
      requires vs == [nd[|nd| - 1][0].(info := info)] + nd[|nd| - 1][1..]
      requires forall k :: 0 <= k < |nd| ==> Fit(nd[k], room)
      ensures AllFit(room)
    {
      assert Fit(nd[|nd| - 1], room);
      forall k | 0 <= k < |nodes| ensures Fit(nodes[k], room) {
        assert k < |nd| - 1 ==> nodes[k] == nd[k];
      }
    }

    lemma BuiltFacts()
      requires Built()
      ensures top !in ents && top.level == -1 && |frames| == |nodes|
      ensures forall i :: 0 <= i < |frames| ==> frames[i] != [] && nodes[i] != []
      ensures forall i, j :: 0 <= i < |frames| && 0 <= j < |frames[i]| ==> frames[i][j] in ents
      ensures forall k :: 0 <= k < |frames| ==>
        LevelOf(frames[k], nodes[k], k, ParentIn(frames, top, k), DirIn(nodes, k))
      ensures Closed(fs) && NamesOk(fs) && FtsMachine.Valid(fs, StackOf(nodes))
    {
      forall k | 0 <= k < |frames|
        ensures LevelOf(frames[k], nodes[k], k, ParentIn(frames, top, k), DirIn(nodes, k))
      {
        assert LevelOk(k);
      }
    }

    /** The current node is to be returned again, as done with. */
    method Mark(info: Info)
      requires Built() && AllFit(path.Length) && cur != null && cur.info == D && info != D && info != INIT
      modifies cur`info, this`nodes
      ensures Built() && cur.Val() == old(cur.Val()).(info := info)
      ensures (State(), Some(cur.Val())) == FtsMachine.Mark(dev, old(StackOf(nodes)), info)
      ensures |nodes| == old(|nodes|) && nodes[..|nodes| - 1] == old(nodes[..|nodes| - 1])
      ensures AllFit(path.Length)
    {
      hide *;
      CurFacts();
      BuiltFacts();
      FitFacts();
      DirNode(cur.Val());
      ghost var n := |nodes| - 1;
      ghost var fr: seq<seq<Ent>>, nd: seq<seq<Node>> := frames, nodes;
      ghost var vs: seq<Node> := [nd[n][0].(info := info)] + nd[n][1..];
      forall k | 0 <= k < n ensures cur !in fr[k] { Apart(k); }
      MarkedStack(nd, info);
      Settle(cur, info, fr[n], nd[n], n, ParentIn(fr, top, n), DirIn(nd, n));
      nodes := nd[..n] + [vs];
      assert fr == fr[..n] + [fr[n]];
      Relaid(fr, nd, fr[n], vs);
      MarkedFits(nd, vs, info, path.Length);
      IsState();
    }

    lemma FitFacts()
      requires AllFit(path.Length)
      ensures forall k :: 0 <= k < |nodes| ==> Fit(nodes[k], path.Length)
    {
    }

    /** A separator goes behind the directory's path. */
    method Slash(p: Ent, ghost dir: string) returns (len: nat)
      requires p.path == path && p.pathlen == |dir| > 0 && Holds(path[..], dir) && |dir| < path.Length
      modifies path
      ensures Room(dir, len) && path[..] == old(path[..])[NAppend(dir) := '/']
    {
      len := NAppendOf(p, dir);
      path[len] := '/';
      len := len + 1;
      assert path[..len] == dir[..NAppend(dir)] + "/";
    }

    /** The buffer is put back: to the directory's path if nothing was found in it. */
    method PutBack(len: nat, empty: bool, ghost dir: string)
      requires Room(dir, len) && (empty || len < path.Length)
      modifies path
      ensures empty ==> Shows(path[..], dir[..NAppend(dir)])
      ensures !empty ==> Holds(path[..], dir)
    {
      var cp := if len == path.Length || empty then len - 1 else len;
      path[cp] := NUL;
      assert empty ==> path[..cp + 1] == dir[..NAppend(dir)] + [NUL];
      assert !empty ==> path[..len] == old(path[..len]);
    }

    lemma CanSlash(dir: string)
      requires Valid() && cur != null && cur.info == D && dir == cur.Val().path
      ensures cur.path == path && cur.pathlen == |dir| > 0
      ensures Holds(path[..], dir) && |dir| < path.Length
    {
      CurFacts();
      DirFacts();
      var n := |nodes| - 1;
      assert InBuffer(frames[n], path) && Fit(nodes[n], path.Length);
    }

    lemma SomeKidFits(kids: seq<Ent>, kvs: seq<Node>, dir: string, len: int, room: int)
      requires KidPaths(kids, kvs, dir) && kids != [] && Fit(kvs, room) && len == NAppend(dir) + 1
      ensures len < room
    {
      assert |ChildPath(dir, kids[0].name)| < room;
    }

    /** What `fts_build` leaves: the files of the current directory, with the buffer put back. */
    ghost predicate Found(head: Ent?, tail: Ent?, kids: seq<Ent>, kvs: seq<Node>, dir: string, chain: set<Id>)
      requires cur != null
      reads this, path, kids
    {
      && Building(kids, kvs, dir, chain, head, tail) && InBuffer(kids, path) && Fit(kvs, path.Length)
      && (forall k :: k in kids ==> k !in ents)
      && (kids != [] ==> Holds(path[..], dir))
      && (kids == [] ==> Shows(path[..], dir[..NAppend(dir)]))
    }

    lemma IsFound(head: Ent?, tail: Ent?, kids: seq<Ent>, kvs: seq<Node>, dir: string, chain: set<Id>)
      requires cur != null && Building(kids, kvs, dir, chain, head, tail)
      requires InBuffer(kids, path) && Fit(kvs, path.Length)
      requires forall k :: k in kids ==> k !in ents
      requires kids != [] ==> Holds(path[..], dir)
      requires kids == [] ==> Shows(path[..], dir[..NAppend(dir)])
      ensures Found(head, tail, kids, kvs, dir, chain)
    {
    }

    lemma BuildingFacts(kids: seq<Ent>, kvs: seq<Node>, dir: string, chain: set<Id>, head: Ent?, tail: Ent?)
      requires cur != null && Building(kids, kvs, dir, chain, head, tail)
      ensures Chained(kids, kvs, |frames|, cur) && KidPaths(kids, kvs, dir) && AllOk(fs, chain, kvs)
      ensures head == (if kids == [] then null else kids[0]) && |kids| == |kvs|
    {
    }

    lemma ValidFacts()
      requires Valid()
      ensures Built() && PointTo(path) && AllFit(path.Length) && Buffered()
    {
    }

    /** The pointers follow the buffer if that was moved, and the path is put back. */
    method Tidy(head: Ent?, moved: bool, len: nat, ghost was: array<char>, ghost tail: Ent?, ghost kids: seq<Ent>,
                ghost kvs: seq<Node>, ghost pv: Node, ghost chain: set<Id>)
      requires Reading(was, len, kids, kvs, pv, chain, head, tail, moved)
      modifies path, ents`path, kids`path
      ensures Built() && PointTo(path) && AllFit(path.Length)
      ensures cur != null && cur.Val() == pv && Found(head, tail, kids, kvs, pv.path, chain)
    {
      hide *;
      ReadingFacts(was, len, kids, kvs, pv, chain, head, tail, moved);
      BuildingFacts(kids, kvs, pv.path, chain, head, tail);
      if moved {
        Padjust(head, kids, kvs);
      }
      if head != null {
        RoomFacts(pv.path, len);
        SomeKidFits(kids, kvs, pv.path, len, path.Length);
      }
      PutBack(len, head == null, pv.path);
      IsFound(head, tail, kids, kvs, pv.path, chain);
    }

    /** `fts_build` once the directory is open: reads it and puts the path back. */
    method ReadDir(es: seq<Entry>, elsewhere: nat -> StatResult, ghost pv: Node, ghost chain: set<Id>)
      returns (head: Ent?, ghost tail: Ent?, ghost kids: seq<Ent>, ghost kvs: seq<Node>)
      requires Valid() && cur != null && cur.info == D && pv == cur.Val() && chain == FtsMachine.Chain(StackOf(nodes))
      requires forall i :: 0 <= i < |es| ==> NameOk(es[i].name) && StatOk(fs, es[i].stat)
      requires forall i :: StatOk(fs, elsewhere(i))
      modifies this`path, path, ents`path
      ensures Built() && PointTo(path) && AllFit(path.Length) && fresh(kids)
      ensures path == old(path) || fresh(path)
      ensures cur.Val() == pv && Found(head, tail, kids, kvs, pv.path, chain)
      ensures kvs == Kids(opt, pv, Seen(opt, pv, es, elsewhere, chain, LinkBudget(opt, pv), old(path.Length), 0), chain,
                          LinkBudget(opt, pv))
      ensures kids == [] <==> forall i :: 0 <= i < |es| ==> !Listed(opt, es[i])
      ensures path != old(path) <==> TooLong(opt, pv.path, es, old(path.Length))
      ensures path.Length == RoomAfter(opt, pv.path, es, old(path.Length))
    {
      hide *;
      ValidFacts();
      CurFacts();
      CanSlash(pv.path);
      var moved;
      var nlinks := LinksAllowed();
      var len := Slash(cur, pv.path);
      head, moved, tail, kids, kvs := ReadEntries(es, elsewhere, len, nlinks, pv, chain);
      Tidy(head, moved, len, old(path), tail, kids, kvs, pv, chain);
    }

    /** How many directories there can be at most, or -1 if every entry is to be looked at. */
    method LinksAllowed() returns (nlinks: int)
      requires cur != null
      ensures nlinks == LinkBudget(opt, cur.Val())
    {
      nlinks := if opt.nostat && opt.physical then cur.nlink - (if opt.seedot then 0 else 2) else -1;
    }

    lemma PushedStack(nd: seq<seq<Node>>, kvs: seq<Node>)
      requires nd != [] && nd[|nd| - 1] != [] && nd[|nd| - 1][0].info == D && kvs != []
      requires FtsMachine.Valid(fs, StackOf(nd)) && AllOk(fs, FtsMachine.Chain(StackOf(nd)), kvs)
      ensures StackOf(nd + [kvs]) == Frame(kvs[0], kvs[1..], StackOf(nd))
      ensures FtsMachine.Valid(fs, StackOf(nd + [kvs]))
    {
      assert (nd + [kvs])[..|nd|] == nd;
    }

    lemma IsValid()
      requires Built() && PointTo(path) && AllFit(path.Length) && cur != null
      requires |nodes| >= 2 && nodes[|nodes| - 2] != [] ==> Holds(path[..], nodes[|nodes| - 2][0].path)
      requires cur.info == D ==> Shows(path[..], cur.Val().path)
      ensures Valid()
    {
      CurFacts();
    }

    lemma FoundFacts(head: Ent, tail: Ent?, kids: seq<Ent>, kvs: seq<Node>, dir: string, chain: set<Id>)
      requires Built() && cur != null && cur.Val().path == dir && Found(head, tail, kids, kvs, dir, chain)
      ensures kids != [] && kvs != [] && head == kids[0] && |frames| == |nodes|
      ensures forall i :: 0 <= i < |frames| ==> frames[i] != [] && nodes[i] != []
      ensures LevelOf(kids, kvs, |frames|, ParentIn(frames, top, |frames|), DirIn(nodes, |frames|))
      ensures head.parent == cur && head.full == ChildPath(dir, head.name) == kvs[0].path && head.Val() == kvs[0]
      ensures |head.full| < path.Length && Holds(path[..], dir) && AllOk(fs, chain, kvs)
      ensures InBuffer(kids, path) && Fit(kvs, path.Length) && top !in kids
    {
      hide NameOk, ChildPath, Closed, NamesOk, FtsMachine.Valid, StackOf, Holds, Shows, RootPaths;
      assert LevelOk(|frames| - 1);
    }

    lemma ParentFacts(pv: Node)
      requires Built() && PointTo(path) && cur != null && cur.Val() == pv && cur.info == D
      ensures cur.path == path && cur.pathlen == |pv.path| > 0 && pv.info == D
    {
      CurFacts();
      DirFacts();
      assert InBuffer(frames[|frames| - 1], path);
    }

    lemma PushedRoom(fr: seq<seq<Ent>>, nd: seq<seq<Node>>, es: set<Ent>, kids: seq<Ent>, kvs: seq<Node>)
      requires frames == fr + [kids] && nodes == nd + [kvs] && es <= ents
      requires forall i :: 0 <= i < |fr| ==> forall j :: 0 <= j < |fr[i]| ==> fr[i][j] in es
      requires forall k :: 0 <= k < |fr| ==> InBuffer(fr[k], path)
      requires forall k :: 0 <= k < |nd| ==> Fit(nd[k], path.Length)
      requires (forall j :: 0 <= j < |kids| ==> kids[j] in ents) && InBuffer(kids, path) && Fit(kvs, path.Length)
      ensures PointTo(path) && AllFit(path.Length)
    {
      hide InBuffer, Fit;
      forall k | 0 <= k < |frames|
        ensures InBuffer(frames[k], path) && forall j :: 0 <= j < |frames[k]| ==> frames[k][j] in ents
      {
        assert k < |fr| ==> frames[k] == fr[k];
      }
      assert forall k :: 0 <= k < |nd| ==> nodes[k] == nd[k];
    }

    lemma PointFacts()
      requires PointTo(path) && AllFit(path.Length)
      ensures forall i :: 0 <= i < |frames| ==> forall j :: 0 <= j < |frames[i]| ==> frames[i][j] in ents
      ensures forall k :: 0 <= k < |frames| ==> InBuffer(frames[k], path)
      ensures forall k :: 0 <= k < |nodes| ==> Fit(nodes[k], path.Length)
    {
    }

    /** The walk goes down to the first of the directory's files. */
    method Enter(head: Ent, ghost tail: Ent?, ghost kids: seq<Ent>, ghost kvs: seq<Node>, ghost pv: Node,
                 ghost chain: set<Id>)
      requires Built() && PointTo(path) && AllFit(path.Length) && cur != null && cur.Val() == pv && cur.info == D
      requires chain == FtsMachine.Chain(StackOf(nodes)) && Found(head, tail, kids, kvs, pv.path, chain)
      modifies this`cur, this`ents, this`frames, this`nodes, path
      ensures Valid() && cur == head && |kvs| > 0 && cur.Val() == kvs[0] && Shows(path[..], cur.Val().path)
      ensures ents == old(ents) + set k | k in kids
      ensures StackOf(nodes) == Frame(kvs[0], kvs[1..], old(StackOf(nodes)))
    {
      hide *;
      BuiltFacts();
      CurFacts();
      PointFacts();
      ParentFacts(pv);
      FoundFacts(head, tail, kids, kvs, pv.path, chain);
      PushedStack(nodes, kvs);
      NameIt(head, pv.path);
      Push(head, kids, kvs, pv);
    }

    /** Its list is now the innermost. */
    method Push(head: Ent, ghost kids: seq<Ent>, ghost kvs: seq<Node>, ghost pv: Node)
      requires Built() && PointTo(path) && AllFit(path.Length) && cur != null && cur.Val() == pv
      requires kids != [] && kvs != [] && head == kids[0] && head.Val() == kvs[0] && top !in kids
      requires |frames| == |nodes| > 0 && forall i :: 0 <= i < |frames| ==> frames[i] != [] && nodes[i] != []
      requires nodes[|nodes| - 1][0] == pv
      requires LevelOf(kids, kvs, |frames|, ParentIn(frames, top, |frames|), DirIn(nodes, |frames|))
      requires InBuffer(kids, path) && Fit(kvs, path.Length)
      requires Shows(path[..], kvs[0].path) && Holds(path[..], pv.path)
      requires StackOf(nodes + [kvs]) == Frame(kvs[0], kvs[1..], StackOf(nodes))
      requires FtsMachine.Valid(fs, StackOf(nodes + [kvs]))
      modifies this`cur, this`ents, this`frames, this`nodes
      ensures Valid() && cur == head && cur.Val() == kvs[0]
      ensures ents == old(ents) + set k | k in kids
      ensures StackOf(nodes) == Frame(kvs[0], kvs[1..], old(StackOf(nodes)))
    {
      hide *;
      BuiltFacts();
      PointFacts();
      ghost var fr: seq<seq<Ent>>, nd: seq<seq<Node>>, es := frames, nodes, ents;
      cur := head;
      frames, nodes, ents := fr + [kids], nd + [kvs], es + set k | k in kids;
      Pushed(fr, nd, es, kids, kvs);
      PushedRoom(fr, nd, es, kids, kvs);
      IsValid();
    }

    lemma StepOut(s: Stack, skip: bool, info: Info)
      requires s.Frame? && s.head.info == D && s.head.id in fs
      requires if skip || Crossed(opt, dev, s.head) then info == DP else fs[s.head.id].Unreadable? && info == DNR
      ensures Step(fs, opt, FtsMachine.State.State(dev, s), skip) == FtsMachine.Mark(dev, s, info)
    {
    }

    /** A step into a directory, as it is seen. */
    lemma StepIn(s: Stack, seen: FileSystem, es: seq<Entry>, kvs: seq<Node>)
      requires s.Frame? && s.head.info == D && !Crossed(opt, dev, s.head) && seen == fs[s.head.id := Listing(es)]
      requires kvs == Kids(opt, s.head, es, FtsMachine.Chain(s), LinkBudget(opt, s.head))
      ensures kvs == [] ==> Step(seen, opt, FtsMachine.State.State(dev, s), false) == FtsMachine.Mark(dev, s, DP)
      ensures kvs != [] ==> Step(seen, opt, FtsMachine.State.State(dev, s), false) ==
                            (FtsMachine.State.State(dev, Frame(kvs[0], kvs[1..], s)), Some(kvs[0]))
    {
    }

    lemma AboveHolds()
      requires Built() && |nodes| >= 2 && nodes[|nodes| - 1] != [] && nodes[|nodes| - 2] != []
      requires Holds(path[..], nodes[|nodes| - 1][0].path[..NAppend(nodes[|nodes| - 1][0].path)])
      ensures Holds(path[..], nodes[|nodes| - 2][0].path)
    {
      assert LevelOk(|nodes| - 1);
      var dir, kid := nodes[|nodes| - 2][0].path, frames[|nodes| - 1][0];
      assert nodes[|nodes| - 1][0].path == ChildPath(dir, kid.name) && NameOk(kid.name);
      ParentHolds(path[..], dir, kid.name);
    }

    /** A directory that is done with is returned again. */
    method Leave(info: Info)
      requires Built() && PointTo(path) && AllFit(path.Length) && cur != null && cur.info == D
      requires info != D && info != INIT
      requires |nodes| >= 2 && nodes[|nodes| - 2] != [] ==> Holds(path[..], nodes[|nodes| - 2][0].path)
      modifies cur`info, this`nodes
      ensures Valid() && cur.Val() == old(cur.Val()).(info := info)
      ensures (State(), Some(cur.Val())) == FtsMachine.Mark(dev, old(StackOf(nodes)), info)
    {
      hide LevelOf, Built, PointTo, AllFit, StackOf, Valid, FtsMachine.Mark, Holds;
      ghost var nd: seq<seq<Node>> := nodes;
      Mark(info);
      assert |nodes| >= 2 ==> nodes[|nodes| - 2] == nd[..|nd| - 1][|nd| - 2];
      IsValid();
    }

    /** Nothing in the directory is to be returned. */
    ghost predicate Bare(es: seq<Entry>) {
      forall i :: 0 <= i < |es| ==> !Listed(opt, es[i])
    }

    /** The path without a separator at its end. */
    ghost function Clip(path: string): string { path[..NAppend(path)] }

    /** Clipping hides the path exactly if that ends in a separator. */
    lemma ClipShows(buf: seq<char>, path: string)
      requires Shows(buf, Clip(path))
      ensures Shows(buf, path) <==> path == "" || path[|path| - 1] != '/'
    {
      if path != "" && path[|path| - 1] == '/' {
        assert buf[..|path|] == Clip(path) + [NUL];
        assert buf[|path| - 1] == NUL;
      } else {
        assert Clip(path) == path;
      }
    }

    /** So only roots can be clipped. */
    lemma KidNotClipped(dir: string, name: string)
      requires NameOk(name)
      ensures Clip(ChildPath(dir, name)) == ChildPath(dir, name)
    {
    }

    lemma NothingFound(head: Ent?, tail: Ent?, kids: seq<Ent>, kvs: seq<Node>, pv: Node, chain: set<Id>)
      requires Built() && cur != null && cur.Val() == pv && Found(head, tail, kids, kvs, pv.path, chain)
      ensures head == null <==> kids == []
      ensures |kids| == |kvs|
      ensures kids == [] ==> Shows(path[..], Clip(pv.path))
      ensures kids == [] && |nodes| >= 2 && nodes[|nodes| - 2] != [] ==> Holds(path[..], nodes[|nodes| - 2][0].path)
    {
      CurFacts();
      if kids == [] && |nodes| >= 2 {
        AboveHolds();
      }
    }

    lemma DirNode(pv: Node)
      requires Built() && cur != null && cur.info == D && pv == cur.Val()
      ensures StackOf(nodes).Frame? && StackOf(nodes).head == pv && pv.info == D && pv.id in fs && pv.id == cur.id
      ensures fs[cur.id].Listing? ==> forall i :: 0 <= i < |fs[cur.id].entries| ==>
        NameOk(fs[cur.id].entries[i].name) && StatOk(fs, fs[cur.id].entries[i].stat)
    {
      CurFacts();
      DirFacts();
    }

    /** The file system as a read sees it, when it looks through a moved buffer. */
    ghost function SeenBy(skip: bool, elsewhere: nat -> StatResult): FileSystem
      reads this
    {
      if skip then fs else SeenAt(fs, opt, State(), elsewhere, path.Length)
    }

    /** The next read will look at some entry through a moved buffer. */
    ghost predicate Misled(skip: bool)
      reads this
    {
      !skip && StraysAt(fs, opt, State(), path.Length)
    }

    /** A directory about to be read has nothing in it to return. */
    ghost predicate Emptied(skip: bool)
      reads this
    {
      !skip && Opens(fs, opt, State()) && Bare(fs[State().stack.head.id].entries)
    }

    /** A directory about to be read has a file whose path is too long for the buffer. */
    ghost predicate Outgrown(skip: bool)
      reads this
    {
      !skip && OutgrownAt(fs, opt, State(), path.Length)
    }

    /** How long the buffer will be then. */
    ghost function RoomNext(skip: bool): nat
      reads this
    {
      if skip then path.Length else RoomAt(fs, opt, State(), path.Length)
    }

    /** If it will not, it sees the file system as it is; and if every entry is looked at, it will
        exactly if the path of one does not fit in the buffer. */
    lemma MisledIs(skip: bool, elsewhere: nat -> StatResult)
      ensures !Misled(skip) ==> SeenBy(skip, elsewhere) == fs
      ensures Misled(skip) ==> Outgrown(skip)
      ensures !(opt.nostat && opt.physical) ==> (Misled(skip) <==> Outgrown(skip))
    {
      NotAstray(fs, opt, State(), elsewhere, path.Length);
    }

    /** It is right, whatever the look through the buffer reports, exactly if it will not. */
    lemma RightUnlessMisled(skip: bool)
      requires Valid() && cur != null
      ensures State().stack.Frame? && Closed(fs) && FtsMachine.Valid(fs, State().stack)
      ensures !Misled(skip) <==>
        forall elsewhere: nat -> StatResult :: (forall i :: StatOk(fs, elsewhere(i))) ==>
          Step(SeenBy(skip, elsewhere), opt, State(), skip) == Step(fs, opt, State(), skip)
    {
      CurFacts();
      if !skip {
        ReadRight(fs, opt, State(), path.Length);
        assert forall e: nat -> StatResult :: SeenBy(skip, e) == SeenAt(fs, opt, State(), e, path.Length);
      }
    }

    /** Into a directory that can be read. */
    method GoIn(es: seq<Entry>, elsewhere: nat -> StatResult)
      requires Valid() && cur != null && cur in ents && cur.info == D && cur.id in fs && fs[cur.id] == Listing(es)
      requires !Crossed(opt, dev, cur.Val()) && forall i :: StatOk(fs, elsewhere(i))
      modifies this`cur, this`path, this`ents, this`frames, this`nodes, path, ents
      ensures Valid() && cur != null && fresh(ents - old(ents)) && (path == old(path) || fresh(path))
      ensures Shows(path[..], if Bare(es) then Clip(cur.Val().path) else cur.Val().path)
      ensures var seen := old(SeenBy(false, elsewhere));
        old(StackOf(nodes)).Frame? && old(StackOf(nodes)).head.id in seen &&
        (State(), Some(cur.Val())) == Step(seen, opt, FtsMachine.State.State(dev, old(StackOf(nodes))), false)
      ensures path != old(path) <==> old(Outgrown(false))
      ensures path.Length == old(RoomNext(false))
    {
      hide *;
      ghost var pv, chain, s := cur.Val(), FtsMachine.Chain(StackOf(nodes)), StackOf(nodes);
      ghost var seen, room := SeenBy(false, elsewhere), path.Length;
      ValidFacts();
      DirNode(pv);
      SeenListing(es, elsewhere);
      var head;
      ghost var tail, kids, kvs;
      head, tail, kids, kvs := ReadDir(es, elsewhere, pv, chain);
      NothingFound(head, tail, kids, kvs, pv, chain);
      IsBare(es);
      StepIn(s, seen, Seen(opt, pv, es, elsewhere, chain, LinkBudget(opt, pv), room, 0), kvs);
      if head == null {
        Leave(DP);
      } else {
        Enter(head, tail, kids, kvs, pv, chain);
      }
      IsState();
    }

    /** What a directory about to be read comes to. */
    lemma SeenListing(es: seq<Entry>, elsewhere: nat -> StatResult)
      requires Built() && cur != null && cur.info == D && !Crossed(opt, dev, cur.Val())
      requires cur.id in fs && fs[cur.id] == Listing(es)
      ensures var v, chain := cur.Val(), FtsMachine.Chain(StackOf(nodes));
        SeenBy(false, elsewhere) ==
        fs[v.id := Listing(Seen(opt, v, es, elsewhere, chain, LinkBudget(opt, v), path.Length, 0))]
      ensures Outgrown(false) <==> TooLong(opt, cur.Val().path, es, path.Length)
      ensures RoomNext(false) == RoomAfter(opt, cur.Val().path, es, path.Length)
      ensures Emptied(false) <==> Bare(es)
    {
      CurFacts();
    }

    lemma IsBare(es: seq<Entry>)
      ensures Bare(es) <==> forall i :: 0 <= i < |es| ==> !Listed(opt, es[i])
    {
    }

    lemma IsState()
      ensures State() == FtsMachine.State.State(dev, StackOf(nodes))
    {
    }

    /** A directory that is skipped, or not to be read, or cannot be. */
    lemma NotOpened(skip: bool, elsewhere: nat -> StatResult)
      requires Built() && cur != null && cur.info == D && cur.id in fs
      requires skip || Crossed(opt, dev, cur.Val()) || fs[cur.id].Unreadable?
      ensures !Emptied(skip) && !Outgrown(skip) && SeenBy(skip, elsewhere) == fs && RoomNext(skip) == path.Length
    {
      CurFacts();
    }

    lemma Unskipped(skip: bool, elsewhere: nat -> StatResult)
      requires !skip
      ensures SeenBy(skip, elsewhere) == SeenBy(false, elsewhere) && RoomNext(skip) == RoomNext(false)
      ensures (Emptied(skip) <==> Emptied(false)) && (Outgrown(skip) <==> Outgrown(false))
    {
    }

    /** `fts_read` on a directory just returned: into it or past it. */
    method Descend(skip: bool, elsewhere: nat -> StatResult)
      requires Valid() && cur != null && cur in ents && cur.info == D && forall i :: StatOk(fs, elsewhere(i))
      modifies this`cur, this`path, this`ents, this`frames, this`nodes, path, ents
      ensures Valid() && cur != null && fresh(ents - old(ents)) && (path == old(path) || fresh(path))
      ensures Shows(path[..], if old(Emptied(skip)) then Clip(cur.Val().path) else cur.Val().path)
      ensures var seen := old(SeenBy(skip, elsewhere));
        old(StackOf(nodes)).Frame? && old(StackOf(nodes)).head.id in seen &&
        (State(), Some(cur.Val())) == Step(seen, opt, FtsMachine.State.State(dev, old(StackOf(nodes))), skip)
      ensures path != old(path) <==> old(Outgrown(skip))
      ensures path.Length == old(RoomNext(skip))
    {
      hide *;
      ValidFacts();
      DirNode(cur.Val());
      BufferFacts();
      SameDevice();
      if skip || Crossed(opt, dev, Node("", D, cur.id, cur.nlink)) {
        NotOpened(skip, elsewhere);
        StepOut(StackOf(nodes), skip, DP);
        Leave(DP);
      } else {
        match fs[cur.id]
        case Unreadable =>
          NotOpened(skip, elsewhere);
          StepOut(StackOf(nodes), skip, DNR);
          Leave(DNR);
        case Listing(es) =>
          Unskipped(skip, elsewhere);
          SeenListing(es, elsewhere);
          GoIn(es, elsewhere);
      }
    }

    lemma BufferFacts()
      requires Valid() && cur != null
      ensures |nodes| >= 2 && nodes[|nodes| - 2] != [] ==> Holds(path[..], nodes[|nodes| - 2][0].path)
      ensures cur.info == D ==> Shows(path[..], cur.Val().path)
    {
      CurFacts();
    }

    lemma SameDevice()
      requires cur != null
      ensures Crossed(opt, dev, cur.Val()) == Crossed(opt, dev, Node("", D, cur.id, cur.nlink))
    {
    }

    lemma LinkFacts()
      requires Built() && cur != null
      ensures |frames| == |nodes| > 0 && |frames[|nodes| - 1]| == |nodes[|nodes| - 1]| > 0
      ensures cur.link == null <==> |nodes[|nodes| - 1]| == 1
      ensures cur.link != null ==>
        && |nodes[|nodes| - 1]| >= 2 && cur.link == frames[|nodes| - 1][1] && cur.link in ents
        && cur == frames[|nodes| - 1][0] != cur.link
        && cur.link.level == |nodes| - 1 && cur.link.Val() == nodes[|nodes| - 1][1]
        && (|nodes| == 1 ==> cur.link.name == nodes[0][1].path)
    {
      assert LevelOk(|frames| - 1);
    }

    lemma NextStack(nd: seq<seq<Node>>, dev': nat, skip: bool)
      requires nd != [] && (forall i :: 0 <= i < |nd| ==> nd[i] != []) && |nd[|nd| - 1]| >= 2
      requires FtsMachine.Valid(fs, StackOf(nd)) && nd[|nd| - 1][0].info != D
      requires dev' == if |nd| == 1 then nd[0][1].id.dev else dev
      ensures var n := |nd| - 1;
        var s := StackOf(nd[..n] + [nd[n][1..]]);
        && FtsMachine.Valid(fs, s)
        && Step(fs, opt, FtsMachine.State.State(dev, StackOf(nd)), skip) ==
                          (FtsMachine.State.State(dev', s), Some(nd[n][1]))
    {
      var n := |nd| - 1;
      var nd' := nd[..n] + [nd[n][1..]];
      assert nd'[..n] == nd[..n] && nd'[n] == nd[n][1..] && nd[n][1..][1..] == nd[n][2..];
    }

    lemma RelaidRoom(fr: seq<seq<Ent>>, nd: seq<seq<Node>>, es: seq<Ent>, vs: seq<Node>)
      requires fr != [] && |fr| == |nd| && frames == fr[..|fr| - 1] + [es] && nodes == nd[..|fr| - 1] + [vs]
      requires forall i, j :: 0 <= i < |fr| - 1 && 0 <= j < |fr[i]| ==> fr[i][j] in ents
      requires forall j :: 0 <= j < |es| ==> es[j] in ents
      requires forall k :: 0 <= k < |fr| - 1 ==> InBuffer(fr[k], path)
      requires forall k :: 0 <= k < |nd| - 1 ==> Fit(nd[k], path.Length)
      requires InBuffer(es, path) && Fit(vs, path.Length)
      ensures PointTo(path) && AllFit(path.Length)
    {
      hide InBuffer, Fit;
      var n := |fr| - 1;
      forall k | 0 <= k < |frames|
        ensures InBuffer(frames[k], path) && forall j :: 0 <= j < |frames[k]| ==> frames[k][j] in ents
      {
        assert k < n ==> frames[k] == fr[k];
      }
      assert forall k :: 0 <= k < n ==> nodes[k] == nd[k];
    }

    lemma RestRoom(es: seq<Ent>, vs: seq<Node>)
      requires InBuffer(es, path) && Fit(vs, path.Length) && es != [] && vs != []
      ensures InBuffer(es[1..], path) && Fit(vs[1..], path.Length)
    {
    }

    /** The list moves on to its next file, whose path is in the buffer. */
    method MoveOn(p: Ent)
      requires Built() && PointTo(path) && AllFit(path.Length) && cur != null && cur.link == p && cur.info != D
      requires |nodes| == 1 ==> |nodes[0]| >= 2 && p.pathlen == |nodes[0][1].path|
      requires |nodes| >= 2 && nodes[|nodes| - 2] != [] ==> Holds(path[..], nodes[|nodes| - 2][0].path)
      requires Shows(path[..], p.Val().path)
      modifies this`cur, this`ents, this`frames, this`nodes
      ensures Valid() && cur == p && ents <= old(ents) && cur.Val() == old(p.Val())
      ensures old(nodes) != [] && var n := |old(nodes)| - 1;
        nodes == old(nodes)[..n] + [if old(nodes)[n] == [] then [] else old(nodes)[n][1..]]
    {
      hide *;
      CurFacts();
      LinkFacts();
      BuiltFacts();
      PointFacts();
      ghost var n, es := |nodes| - 1, ents - {cur};
      ghost var fr: seq<seq<Ent>>, nd: seq<seq<Node>> := frames, nodes;
      forall k | 0 <= k < n ensures cur !in fr[k] { Apart(k); }
      RestLevel(fr[n], nd[n], n, ParentIn(fr, top, n), DirIn(nd, n));
      RestRoom(fr[n], nd[n]);
      NotDir(cur.Val());
      NextStack(nd, if n == 0 then nd[0][1].id.dev else dev, false);
      cur := p;
      frames, nodes, ents := fr[..n] + [fr[n][1..]], nd[..n] + [nd[n][1..]], es;
      Relaid(fr, nd, fr[n][1..], nd[n][1..]);
      RelaidRoom(fr, nd, fr[n][1..], nd[n][1..]);
      IsValid();
    }

    lemma NotDir(v: Node)
      requires cur != null && v == cur.Val()
      ensures v.info == cur.info
    {
    }

    /** `fts_load`: the walk goes on from another root. */
    method Load(p: Ent)
      requires Built() && PointTo(path) && AllFit(path.Length) && cur != null && cur.link == p && |nodes| == 1
      modifies path, p`pathlen, p`path, this`dev
      ensures Built() && PointTo(path)
      ensures |nodes[0]| >= 2 && p.pathlen == |nodes[0][1].path| && dev == nodes[0][1].id.dev
      ensures p.Val() == old(p.Val()) && Shows(path[..], p.Val().path)
    {
      hide *;
      LinkFacts();
      CurFacts();
      BuiltFacts();
      RootFacts(p);
      SetLength(p, frames[0], nodes[0], top);
      CopyName(path, 0, p.name);
      p.path := path;
      dev := p.id.dev;
      StartsWith(path[..], p.name);
      NoneAbove();
      IsBuilt();
    }

    lemma RootFacts(p: Ent)
      requires Built() && PointTo(path) && AllFit(path.Length) && cur != null && cur.link == p && |nodes| == 1
      ensures p.path == path && p.name == p.Val().path && |p.name| < path.Length && p.id == p.Val().id
      ensures LevelOf(frames[0], nodes[0], 0, top, "")
    {
      LinkFacts();
      assert LevelOk(0) && InBuffer(frames[0], path) && Fit(nodes[0], path.Length);
    }

    lemma StartsWith(buf: seq<char>, name: string)
      requires |name| < |buf| && buf[..|name| + 1] == name + [NUL]
      ensures Shows(buf, name)
    {
    }

    lemma NoneAbove()
      requires forall i :: 0 <= i < |frames| ==> frames[i] != []
      requires forall i :: 0 <= i < |nodes| ==> nodes[i] != []
      ensures ParentIn(frames, top, 0) == top && DirIn(nodes, 0) == ""
    {
    }

    lemma AtRoot()
      requires Valid() && cur != null && cur.level == 0
      ensures |nodes| == 1
    {
      CurFacts();
    }

    /** The rest of `fts_load`: of the name only the last part is kept, from the separator that
        `strrchr` finds on. */
    method CutName(p: Ent)
      requires Valid() && cur == p && |nodes| == 1
      modifies p`name
      ensures Valid() && p.name == LastPart(old(p.name))
    {
      hide *;
      ghost var name := p.name;
      var i := |p.name|;
      while i > 0 && p.name[i - 1] != '/'
        invariant 0 <= i <= |p.name| && p.name == name && '/' !in name[i..]
      {
        i := i - 1;
      }
      BehindIs(name, i);
      CutAt(name, i);
      ValidFacts();
      BuiltFacts();
      BufferFacts();
      CurFacts();
      NoneAbove();
      if i > 0 && (i > 1 || |p.name| > 1) {
        Rename(p, p.name[i..], frames[0], nodes[0], top);
        IsBuilt();
        IsValid();
      }
    }

    lemma CutAt(name: string, i: nat)
      requires i <= |name| && (i == 0 || name[i - 1] == '/') && Behind(name) == name[i..]
      ensures LastPart(name) == if i > 0 && (i > 1 || |name| > 1) then name[i..] else name
    {
      if i == 0 {
        assert name[0..] == name;
      }
    }

    lemma SiblingFacts(p: Ent, dir: string)
      requires Valid() && cur != null && cur.link == p && |nodes| >= 2 && nodes[|nodes| - 2] != []
      requires dir == nodes[|nodes| - 2][0].path
      ensures p.parent != null && p.parent.path == path && p.parent.pathlen == |dir| > 0
      ensures Holds(path[..], dir) && |ChildPath(dir, p.name)| < path.Length && p.Val().path == ChildPath(dir, p.name)
    {
      hide NameOk, ChildPath, StackOf;
      var n := |nodes| - 1;
      LinkFacts();
      assert LevelOk(n) && LevelOk(n - 1) && InBuffer(frames[n - 1], path) && Fit(nodes[n], path.Length);
      OpenBelow();
      assert n - 1 == 0 ==> RootPaths(frames[0], nodes[0]);
    }

    /** The directory above the current file has been announced. */
    lemma OpenBelow()
      requires Built() && |nodes| >= 2
      ensures StackOf(nodes[..|nodes| - 1]).Frame? && nodes[|nodes| - 2][0].info == D
      ensures nodes[|nodes| - 2][0].path != ""
    {
      CurFacts();
      var n, front := |nodes| - 2, nodes[..|nodes| - 1];
      assert front[n] == nodes[n] && StackOf(front).head == nodes[n][0];
      assert LevelOk(n);
    }

    /** To the next file in the list. */
    method GoNext(p: Ent, ghost skip: bool)
      requires Valid() && cur != null && cur.info != D && cur.link == p
      modifies this`cur, this`dev, this`ents, this`frames, this`nodes, path, p`pathlen, p`path, p`name
      ensures Valid() && cur == p && ents <= old(ents) && Shows(path[..], cur.Val().path)
      ensures p.name == if p.level == 0 then LastPart(old(p.name)) else old(p.name)
      ensures (State(), Some(cur.Val())) ==
                             Step(fs, opt, FtsMachine.State.State(old(dev), old(StackOf(nodes))), skip)
    {
      hide *;
      ValidFacts();
      BuiltFacts();
      BufferFacts();
      LinkFacts();
      CurFacts();
      NotDir(cur.Val());
      NextStack(nodes, if |nodes| == 1 then nodes[0][1].id.dev else dev, skip);
      if p.level == 0 {
        Load(p);
      } else {
        ghost var dir := nodes[|nodes| - 2][0].path;
        SiblingFacts(p, dir);
        NameIt(p, dir);
      }
      MoveOn(p);
      IsState();
      if p.level == 0 {
        AtRoot();
        CutName(p);
      }
    }

    lemma UpStack(nd: seq<seq<Node>>, skip: bool)
      requires nd != [] && (forall i :: 0 <= i < |nd| ==> nd[i] != []) && |nd[|nd| - 1]| == 1
      requires FtsMachine.Valid(fs, StackOf(nd)) && nd[|nd| - 1][0].info != D
      ensures var n := |nd| - 1;
        var s := StackOf(nd[..n]);
        && FtsMachine.Valid(fs, s) && (n > 0 ==> nd[n - 1][0].info == D && s.Frame?)
        && Step(fs, opt, FtsMachine.State.State(dev, StackOf(nd)), skip) ==
             if n == 0 then (FtsMachine.State.State(dev, StackOf([])), None) else FtsMachine.Mark(dev, s, DP)
    {
      var n := |nd| - 1;
      assert n == 0 ==> nd[..n] == [];
      if n > 0 {
        assert nd[..n][n - 1] == nd[n - 1];
        assert StackOf(nd[..n]).head == nd[n - 1][0];
      }
    }

    lemma FewerRoom(fr: seq<seq<Ent>>, nd: seq<seq<Node>>, n: nat)
      requires n <= |fr| == |nd| && frames == fr[..n] && nodes == nd[..n]
      requires forall i, j :: 0 <= i < n && 0 <= j < |fr[i]| ==> fr[i][j] in ents
      requires forall k :: 0 <= k < n ==> InBuffer(fr[k], path) && Fit(nd[k], path.Length)
      ensures PointTo(path) && AllFit(path.Length)
    {
      hide InBuffer, Fit;
    }

    /** The list is done with; the directory it belongs to is current again. */
    method Pop(p: Ent?)
      requires Built() && PointTo(path) && AllFit(path.Length) && cur != null && cur.info != D && cur.link == null
      requires |frames| == |nodes| > 0 && (|nodes| >= 2 ==> frames[|nodes| - 2] != [])
      requires p == if |nodes| == 1 then null else frames[|nodes| - 2][0]
      modifies this`cur, this`ents, this`frames, this`nodes
      ensures Built() && PointTo(path) && AllFit(path.Length) && cur == p && ents <= old(ents)
      ensures nodes == old(nodes[..|nodes| - 1])
    {
      hide *;
      CurFacts();
      LinkFacts();
      BuiltFacts();
      PointFacts();
      NotDir(cur.Val());
      ghost var n, es := |nodes| - 1, ents - {cur};
      ghost var fr: seq<seq<Ent>>, nd: seq<seq<Node>> := frames, nodes;
      forall k | 0 <= k < n ensures cur !in fr[k] { Apart(k); }
      UpStack(nd, false);
      Below(fr, nd, n, es);
      cur := p;
      frames, nodes, ents := fr[..n], nd[..n], es;
      IsBuilt();
      FewerRoom(fr, nd, n);
    }

    lemma UpFacts()
      requires Valid() && cur != null && cur.link == null
      ensures |frames| == |nodes| > 0 && (|nodes| >= 2 ==> frames[|nodes| - 2] != [] && nodes[|nodes| - 2] != [])
      ensures cur.parent != null && (cur.parent.level == -1 <==> |nodes| == 1)
      ensures |nodes| >= 2 ==>
        && cur.parent == frames[|nodes| - 2][0] && cur.parent in ents && cur.parent.info == D
        && cur.parent.Val() == nodes[|nodes| - 2][0] && cur.parent.pathlen == |cur.parent.Val().path| < path.Length
        && Holds(path[..], cur.parent.Val().path)
    {
      var n := |nodes| - 1;
      LinkFacts();
      BufferFacts();
      assert LevelOk(n);
      if n >= 1 {
        OpenBelow();
        assert LevelOk(n - 1) && Fit(nodes[n - 1], path.Length);
      }
    }

    lemma ParentStays(was: seq<char>, dir: string, len: int)
      requires Built() && cur != null && nodes != [] && cur.Val().path == dir
      requires Holds(was, dir) && len == |dir| < |was| && path[..] == was[len := NUL]
      ensures Shows(path[..], dir)
      ensures |nodes| >= 2 && nodes[|nodes| - 2] != [] ==> Holds(path[..], nodes[|nodes| - 2][0].path)
    {
      CurFacts();
      assert path[..][..len + 1] == dir + [NUL];
      if |nodes| >= 2 && nodes[|nodes| - 2] != [] {
        assert dir[..NAppend(dir)] <= dir;
        AboveHolds();
      }
    }

    /** Up to the directory the list belongs to, or to the end. */
    method GoUp(ghost skip: bool)
      requires Valid() && cur != null && cur.info != D && cur.link == null
      modifies this`cur, this`ents, this`frames, this`nodes, path, ents`info
      ensures Valid() && ents <= old(ents) && (cur != null ==> Shows(path[..], cur.Val().path))
      ensures (State(), if cur == null then None else Some(cur.Val())) ==
                             Step(fs, opt, FtsMachine.State.State(dev, old(StackOf(nodes))), skip)
    {
      hide *;
      ValidFacts();
      CurFacts();
      LinkFacts();
      BuiltFacts();
      UpFacts();
      NotDir(cur.Val());
      UpStack(nodes, skip);
      ghost var nd: seq<seq<Node>> := nodes;
      var p := cur.parent;
      if p.level == -1 {
        Pop(null);
        NoneValid();
      } else {
        Pop(p);
        ghost var was, dir := path[..], cur.Val().path;
        path[p.pathlen] := NUL;
        ParentStays(was, dir, p.pathlen);
        Leave(DP);
      }
      IsState();
    }

    lemma NoneValid()
      requires Built() && PointTo(path) && AllFit(path.Length) && cur == null
      ensures Valid()
    {
    }

    /** `fts_read`: the next file, or null at the end. Nothing is left of the order in which
        fields are set, but all of what a caller may see: the state is the one the machine
        steps to in the file system as it is seen, and the buffer shows the path of the file
        returned. */
    method Read(skip: bool, elsewhere: nat -> StatResult) returns (r: Ent?)
      requires Valid() && forall i :: StatOk(fs, elsewhere(i))
      modifies this`cur, this`path, this`dev, this`ents, this`frames, this`nodes, path, ents
      ensures Valid() && r == cur && fresh(ents - old(ents)) && (path == old(path) || fresh(path))
      ensures old(cur) == null ==> r == null && State() == old(State())
      ensures old(cur) != null ==>
        && CanStep(old(SeenBy(skip, elsewhere)), old(State()))
        && (State(), if r == null then None else Some(r.Val())) ==
           Step(old(SeenBy(skip, elsewhere)), opt, old(State()), skip)
      ensures r != null ==> Shows(path[..], if old(Emptied(skip)) then Clip(r.Val().path) else r.Val().path)
      ensures path != old(path) <==> old(Outgrown(skip))
      ensures path.Length == old(RoomNext(skip))
    {
      hide *;
      ValidFacts();
      if cur == null {
        NotDue(skip, elsewhere);
        return null;
      }
      IsState();
      CurFacts();
      StepsSo(SeenBy(skip, elsewhere));
      if cur.info == D {
        Descend(skip, elsewhere);
      } else {
        NotDue(skip, elsewhere);
        if cur.link != null {
          LinkFacts();
          GoNext(cur.link, skip);
        } else {
          GoUp(skip);
        }
      }
      r := cur;
    }

    lemma StepsSo(seen: FileSystem)
      requires Built() && cur != null
      ensures CanStep(seen, State()) <==>
        StackOf(nodes).Frame? && (cur.info == D ==> StackOf(nodes).head.id in seen)
    {
      CurFacts();
    }

    /** The path of every directory we are in starts the paths of all files below it. */
    lemma {:induction false} AbovePrefixes(i: nat, k: nat, j: nat)
      requires Built() && i < k < |nodes| && j < |nodes[k]|
      ensures nodes[i] != [] && nodes[i][0].path <= nodes[k][j].path
      decreases k
    {
      assert LevelOk(k);
      var dir, p := nodes[k - 1][0].path, nodes[k][j].path;
      assert p == ChildPath(dir, frames[k][j].name) && dir <= p;
      if i < k - 1 {
        AbovePrefixes(i, k - 1, 0);
      }
    }

    lemma NotDue(skip: bool, elsewhere: nat -> StatResult)
      requires Built() && (cur == null || cur.info != D)
      ensures !Emptied(skip) && !Outgrown(skip) && !Misled(skip) && SeenBy(skip, elsewhere) == fs
      ensures RoomNext(skip) == path.Length
    {
      if cur != null {
        CurFacts();
      }
    }
  }

  /** A root: "." and ".." among them are real directories. */
  function RootNode(arg: string, s: StatResult): Node {
    var info := StatInfo(s, IsDot(arg), {});
    Node(arg, if info == DOT then D else info, IdOf(s), LinksOf(s))
  }

  function Roots(args: seq<string>, stats: seq<StatResult>): (ns: seq<Node>)
    requires |args| == |stats|
    ensures |ns| == |args| && forall i :: 0 <= i < |ns| ==> ns[i] == RootNode(args[i], stats[i])
  {
    seq(|args|, i requires 0 <= i < |args| => RootNode(args[i], stats[i]))
  }

  /** The length of the longest argument, with its end mark. */
  function Longest(args: seq<string>): (n: nat)
    ensures n >= 1 && forall i :: 0 <= i < |args| ==> |args[i]| < n
  {
    if args == [] then 1
    else
      var k := |args| - 1;
      var n := Longest(args[..k]);
      if |args[k]| + 1 > n then |args[k]| + 1 else n
  }

  /** A root is a directory exactly if it is reported as one, whatever its name. */
  lemma RootIs(arg: string, s: StatResult)
    ensures var n := RootNode(arg, s);
      n.path == arg && (n.info == D <==> s.IsDir?) && (s.IsDir? ==> n.id == s.id && n.nlink == s.nlink)
  {
  }

  lemma {:induction false} LongestIs(args: seq<string>)
    ensures Longest(args) == 1 || exists i :: 0 <= i < |args| && |args[i]| + 1 == Longest(args)
    decreases |args|
  {
    if args != [] {
      var k := |args| - 1;
      LongestIs(args[..k]);
      if Longest(args) == Longest(args[..k]) && Longest(args) != 1 {
        var i :| 0 <= i < k && |args[..k][i]| + 1 == Longest(args[..k]);
        assert |args[i]| + 1 == Longest(args);
      }
    }
  }

  /** `fts_maxarglen` */
  method MaxArgLen(args: seq<string>) returns (n: nat)
    ensures n == Longest(args)
  {
    var max := 0;
    assert args[..0] == [];
    for i := 0 to |args|
      invariant max + 1 == Longest(args[..i])
    {
      assert args[..i + 1][..i] == args[..i];
      if |args[i]| > max {
        max := |args[i]|;
      }
    }
    assert args[..|args|] == args;
    n := max + 1;
  }

  /** As long as the longest argument and the system's longest path need. */
  function FirstRoom(args: seq<string>, maxPathLen: nat): nat {
    RoundUp(if Longest(args) > maxPathLen then Longest(args) else maxPathLen, 1)
  }

  lemma FirstRoomIs(args: seq<string>, maxPathLen: nat)
    ensures var n := if Longest(args) > maxPathLen then Longest(args) else maxPathLen;
      FirstRoom(args, maxPathLen) == RoundUp(n, 1) >= maxPathLen
    ensures forall i :: 0 <= i < |args| ==> |args[i]| < FirstRoom(args, maxPathLen)
  {
  }

  /** Nothing is being walked yet. */
  method NewStream(opt: Options, fs: FileSystem, size: nat) returns (sp: Stream)
    requires size > 0 && Closed(fs) && NamesOk(fs)
    ensures fresh(sp) && fresh(sp.path) && fresh(sp.top) && sp.ents == {} && sp.frames == [] && sp.nodes == []
    ensures sp.opt == opt && sp.fs == fs && sp.path.Length == RoundUp(size, 1) && sp.dev == 0
    ensures sp.cur == null && sp.Built()
  {
    var path := new char[RoundUp(size, 1)](_ => NUL);
    var parent := new Ent("", path);
    parent.level := -1;
    sp := new Stream(opt, fs, parent, path);
  }

  method NewRoot(sp: Stream, arg: string, s: StatResult) returns (p: Ent)
    requires sp.Built() && sp.frames == [] && sp.nodes == []
    ensures fresh(p) && p.Val() == RootNode(arg, s) && p.name == arg && p.path == sp.path
    ensures p.level == 0 && p.parent == sp.top && p.link == null
  {
    p := new Ent(arg, sp.path);
    p.level := 0;
    p.parent := sp.top;
    p.full := arg;
    sp.Stat(p, s);
    if p.info == DOT {
      p.info := D;
    }
  }

  lemma RootsMore(args: seq<string>, stats: seq<StatResult>, i: nat)
    requires i < |args| == |stats|
    ensures Roots(args[..i + 1], stats[..i + 1]) == Roots(args[..i], stats[..i]) + [RootNode(args[i], stats[i])]
  {
  }

  /** The list of roots, or nothing if one of them has no name. */
  method MakeRoots(sp: Stream, args: seq<string>, stats: seq<StatResult>) returns (root: Ent?, ghost rs: seq<Ent>)
    requires sp.Built() && sp.frames == [] && sp.nodes == [] && args != [] && |args| == |stats|
    ensures fresh(rs)
    ensures root == null <==> exists i :: 0 <= i < |args| && args[i] == ""
    ensures root != null ==>
      && Chained(rs, Roots(args, stats), 0, sp.top) && root == rs[0] && InBuffer(rs, sp.path)
      && |rs| == |args| && forall i :: 0 <= i < |args| ==> rs[i].name == args[i]
  {
    hide *;
    root, rs := null, [];
    var tail: Ent? := null;
    NoRoots(sp.top, sp.path);
    assert args[..0] == [] && stats[..0] == [];
    for i := 0 to |args|
      invariant fresh(rs) && |rs| == i && (forall j :: 0 <= j < i ==> args[j] != "" && rs[j].name == args[j])
      invariant Chained(rs, Roots(args[..i], stats[..i]), 0, sp.top) && InBuffer(rs, sp.path)
      invariant root == (if i == 0 then null else rs[0]) && tail == (if i == 0 then null else rs[i - 1])
    {
      if args[i] == "" {
        return null, [];
      }
      var p := NewRoot(sp, args[i], stats[i]);
      RootsMore(args, stats, i);
      root, tail := Append(p, root, tail, rs, Roots(args[..i], stats[..i]), 0, sp.top);
      OneMore(rs, p, sp.path);
      rs := rs + [p];
    }
    assert args[..|args|] == args && stats[..|args|] == stats;
  }

  lemma NoRoots(top: Ent, path: array<char>)
    ensures Chained([], Roots([], []), 0, top) && InBuffer([], path)
  {
  }

  lemma OneMore(es: seq<Ent>, p: Ent, path: array<char>)
    requires InBuffer(es, path) && p.path == path
    ensures InBuffer(es + [p], path)
  {
  }

  /** The spent file before the roots heads their list. */
  lemma WithDummy(d: Ent, rs: seq<Ent>, vs: seq<Node>, top: Ent)
    requires Chained(rs, vs, 0, top) && rs != [] && d !in rs && d.link == rs[0] && d.level == 0 && d.parent == top
    ensures Chained([d] + rs, [d.Val()] + vs, 0, top)
    ensures forall j :: 0 <= j < |rs| ==> rs[j].level == 0
  {
    var es, all := [d] + rs, [d.Val()] + vs;
    forall j | 0 <= j < |es|
      ensures es[j].Val() == all[j] && es[j].level == 0 && es[j].parent == top && es[j].link == Next(es, j)
    {
      if j > 0 {
        assert es[j] == rs[j - 1] && all[j] == vs[j - 1] && Next(rs, j - 1) == Next(es, j);
      }
    }
  }

  lemma RootsPaths(d: Ent, rs: seq<Ent>, args: seq<string>, stats: seq<StatResult>, v: Node, path: array<char>)
    requires |args| == |stats| == |rs| && v == Node("", INIT, NO_ID, 0)
    requires forall i :: 0 <= i < |args| ==> rs[i].name == args[i] != "" && |args[i]| < path.Length
    requires d.pathlen == 0 && d.path == path && InBuffer(rs, path) && path.Length > 0
    ensures RootPaths([d] + rs, [v] + Roots(args, stats))
    ensures InBuffer([d] + rs, path) && Fit([v] + Roots(args, stats), path.Length)
  {
  }

  lemma RootsOk(fs: FileSystem, args: seq<string>, stats: seq<StatResult>)
    requires |args| == |stats| && forall i :: 0 <= i < |stats| ==> StatOk(fs, stats[i])
    ensures AllOk(fs, {}, Roots(args, stats))
  {
  }

  /** `fts_open` without a comparison function: null if an argument has no name. Roots are
      followed or not as the caller of the model's stat results decides. Without any argument
      there is a stream as well, but its one file, which is spent, is in no list: it has no
      parent to go up to, so that such a stream is not to be read. */
  method Open(args: seq<string>, stats: seq<StatResult>, opt: Options, fs: FileSystem, maxPathLen: nat)
    returns (sp: Stream?)
    requires |args| == |stats| && Closed(fs) && NamesOk(fs)
    requires forall i :: 0 <= i < |stats| ==> StatOk(fs, stats[i])
    ensures sp == null <==> exists i :: 0 <= i < |args| && args[i] == ""
    ensures sp != null ==>
      && fresh(sp) && fresh(sp.path) && fresh(sp.ents) && sp.opt == opt && sp.fs == fs
      && sp.path.Length == FirstRoom(args, maxPathLen)
    ensures sp != null && args != [] ==> sp.Valid() && sp.State() == Opened(Roots(args, stats))
    ensures args == [] ==>
      && sp != null && sp.cur != null && fresh(sp.cur) && sp.cur.Val() == Node("", INIT, NO_ID, 0)
      && sp.cur.link == null && sp.cur.parent == null
  {
    hide *;
    var longest := MaxArgLen(args);
    var size := if longest > maxPathLen then longest else maxPathLen;
    FirstRoomIs(args, maxPathLen);
    var s := NewStream(opt, fs, size);
    if args == [] {
      s.cur := new Ent("", s.path);
      return s;
    }
    ghost var rs;
    var root;
    root, rs := MakeRoots(s, args, stats);
    if root == null {
      return null;
    }
    var d := NewDummy(s, root);
    Start(s, d, rs, args, stats);
    sp := s;
  }

  /** The spent file before the first root. */
  method NewDummy(s: Stream, root: Ent) returns (d: Ent)
    ensures fresh(d) && d.Val() == Node("", INIT, NO_ID, 0) && d.pathlen == 0 && d.path == s.path
    ensures d.level == 0 && d.parent == s.top && d.link == root
  {
    d := new Ent("", s.path);
    d.level, d.parent, d.link := 0, s.top, root;
  }

  method Start(s: Stream, d: Ent, ghost rs: seq<Ent>, ghost args: seq<string>, ghost stats: seq<StatResult>)
    requires s.Built() && s.frames == [] && s.nodes == [] && s.dev == 0
    requires |args| == |stats| == |rs| && Chained(rs, Roots(args, stats), 0, s.top) && rs != [] && d !in rs
    requires d.link == rs[0] && d.level == 0 && d.parent == s.top
    requires forall i :: 0 <= i < |args| ==> rs[i].name == args[i] != "" && |args[i]| < s.path.Length
    requires d.Val() == Node("", INIT, NO_ID, 0) && d.pathlen == 0 && d.path == s.path && InBuffer(rs, s.path)
    requires forall i :: 0 <= i < |stats| ==> StatOk(s.fs, stats[i])
    requires s.path.Length > 0
    modifies s`cur, s`ents, s`frames, s`nodes
    ensures s.Valid() && s.State() == Opened(Roots(args, stats)) && s.ents == {d} + set r | r in rs
  {
    hide *;
    ghost var vs := Roots(args, stats);
    WithDummy(d, rs, vs, s.top);
    RootsPaths(d, rs, args, stats, d.Val(), s.path);
    OpenedStack(s.fs, s.top, [d] + rs, d.Val(), args, stats);
    s.BuiltFacts();
    ghost var fr: seq<seq<Ent>>, nd: seq<seq<Node>> := [[d] + rs], [[d.Val()] + vs];
    s.cur := d;
    s.ents, s.frames, s.nodes := {d} + (set r | r in rs), fr, nd;
    s.FewerRoom(fr, nd, 1);
    s.IsBuilt();
    s.NotDir(d.Val());
    s.IsValid();
    s.IsState();
  }

  lemma OpenedStack(fs: FileSystem, top: Ent, es: seq<Ent>, v: Node, args: seq<string>, stats: seq<StatResult>)
    requires |args| == |stats| && (forall i :: 0 <= i < |stats| ==> StatOk(fs, stats[i]))
    requires v == Node("", INIT, NO_ID, 0) && es != []
    requires Chained(es, [v] + Roots(args, stats), 0, top) && RootPaths(es, [v] + Roots(args, stats))
    ensures var nd := [[v] + Roots(args, stats)];
      && FtsMachine.State.State(0, StackOf(nd)) == Opened(Roots(args, stats)) && FtsMachine.Valid(fs, StackOf(nd))
      && LevelOf(es, nd[0], 0, ParentIn([es], top, 0), DirIn(nd, 0))
  {
    hide Chained, RootPaths;
    var nd := [[v] + Roots(args, stats)];
    RootsOk(fs, args, stats);
    assert nd[..0] == [];
  }
}
