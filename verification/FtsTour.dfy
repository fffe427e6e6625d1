/** What the tour is: properly nested, free of cycles, and complete where link counts are right. */
module FtsTour {
  import opened FtsMachine
  import opened Wrappers

  // ----- nesting

  ghost predicate Fresh(n: Node) { n.info != DP && n.info != DNR }

  ghost predicate AllFresh(ns: seq<Node>) { forall i :: 0 <= i < |ns| ==> Fresh(ns[i]) }

  function Ids(open: seq<Node>): set<Id> {
    if open == [] then {} else Ids(open[..|open| - 1]) + {open[|open| - 1].id}
  }

  /** Read a tour with the directories now open. A directory opens when announced, and must
      not have the identity of one that is open; a closing node must be the innermost one. */
  function Scan(open: seq<Node>, tour: seq<Node>): Option<seq<Node>>
    decreases |tour|
  {
    if tour == [] then Some(open)
    else
      var n := tour[0];
      if n.info == D then
        if n.id in Ids(open) then None else Scan(open + [n], tour[1..])
      else if n.info == DP || n.info == DNR then
        if open != [] && open[|open| - 1] == n.(info := D) then Scan(open[..|open| - 1], tour[1..]) else None
      else Scan(open, tour[1..])
  }

  lemma {:induction false} KidsFresh(opt: Options, p: Node, es: seq<Entry>, anc: set<Id>, budget: int)
    ensures AllFresh(Kids(opt, p, es, anc, budget))
    decreases |es|
  {
    if es != [] {
      var n := Kid(opt, p, es[0], anc, budget);
      KidsFresh(opt, p, es[1..], anc, if Listed(opt, es[0]) then NextBudget(budget, n.info) else budget);
    }
  }

  lemma ScanCloses(open: seq<Node>, p: Node, end: Node, u: seq<Node>)
    requires p.info == D && (end == p.(info := DP) || end == p.(info := DNR))
    ensures Scan(open + [p], [end] + u) == Scan(open, u)
  {
    assert (open + [p])[..|open + [p]| - 1] == open;
    assert ([end] + u)[1..] == u;
  }

  /** An announced directory, finished, leaves the open directories as they were before it. */
  lemma {:induction false} FinishNests(fs: FileSystem, opt: Options, dev: nat, open: seq<Node>, p: Node, u: seq<Node>)
    requires Closed(fs) && p.id in fs && p.id !in Ids(open) && p.info == D
    ensures Scan(open + [p], Finish(fs, opt, dev, Ids(open), p) + u) == Scan(open, u)
    decreases |fs.Keys - Ids(open)|, 0
  {
    var anc := Ids(open);
    if Crossed(opt, dev, p) {
      ScanCloses(open, p, p.(info := DP), u);
    } else if fs[p.id].Unreadable? {
      ScanCloses(open, p, p.(info := DNR), u);
    } else {
      var es, end := fs[p.id].entries, p.(info := DP);
      var kids := Kids(opt, p, es, anc + {p.id}, LinkBudget(opt, p));
      KidsOk(fs, opt, p, es, anc + {p.id}, LinkBudget(opt, p));
      KidsFresh(opt, p, es, anc + {p.id}, LinkBudget(opt, p));
      FewerFree(fs, anc, p.id);
      assert (open + [p])[..|open + [p]| - 1] == open;
      ToursNest(fs, opt, dev, open + [p], kids, [end] + u);
      var inner := Tours(fs, opt, dev, anc + {p.id}, kids);
      assert Finish(fs, opt, dev, anc, p) + u == inner + ([end] + u);
      ScanCloses(open, p, end, u);
    }
  }

  /** So do the tours of any list of siblings. */
  lemma {:induction false} ToursNest(fs: FileSystem, opt: Options, dev: nat, open: seq<Node>, ns: seq<Node>,
                                     u: seq<Node>)
    requires Closed(fs) && AllOk(fs, Ids(open), ns) && AllFresh(ns)
    ensures Scan(open, Tours(fs, opt, dev, Ids(open), ns) + u) == Scan(open, u)
    decreases |fs.Keys - Ids(open)|, 2, |ns|
  {
    if ns == [] {
      assert [] + u == u;
    } else {
      var more := Tours(fs, opt, dev, Ids(open), ns[1..]) + u;
      assert Tours(fs, opt, dev, Ids(open), ns) + u == Tour(fs, opt, dev, Ids(open), ns[0]) + more;
      TourNests(fs, opt, dev, open, ns[0], more);
      ToursNest(fs, opt, dev, open, ns[1..], u);
    }
  }

  lemma {:induction false} TourNests(fs: FileSystem, opt: Options, dev: nat, open: seq<Node>, n: Node, u: seq<Node>)
    requires Closed(fs) && DirOk(fs, Ids(open), n) && Fresh(n)
    ensures Scan(open, Tour(fs, opt, dev, Ids(open), n) + u) == Scan(open, u)
    decreases |fs.Keys - Ids(open)|, 1
  {
    var t := Tour(fs, opt, dev, Ids(open), n) + u;
    if n.info == D {
      assert t[1..] == Finish(fs, opt, dev, Ids(open), n) + u;
      FinishNests(fs, opt, dev, open, n, u);
    } else {
      assert t[1..] == u;
    }
  }

  /** A whole run opens and closes directories like brackets, never one inside itself. */
  lemma {:induction false} RunNests(fs: FileSystem, opt: Options, roots: seq<Node>)
    requires Closed(fs) && AllOk(fs, {}, roots) && AllFresh(roots)
    ensures Scan([], Run(fs, opt, Opened(roots))) == Some([])
  {
    RunIsTour(fs, opt, roots);
    RootsNest(fs, opt, roots);
  }

  lemma {:induction false} RootsNest(fs: FileSystem, opt: Options, roots: seq<Node>)
    requires Closed(fs) && AllOk(fs, {}, roots) && AllFresh(roots)
    ensures Scan([], RootTours(fs, opt, roots)) == Some([])
    decreases |roots|
  {
    if roots != [] {
      TourNests(fs, opt, roots[0].id.dev, [], roots[0], RootTours(fs, opt, roots[1..]));
      RootsNest(fs, opt, roots[1..]);
    }
  }

  // ----- nothing is left out

  function ListedOnly(opt: Options, es: seq<Entry>): seq<Entry> {
    if es == [] then []
    else (if Listed(opt, es[0]) then [es[0]] else []) + ListedOnly(opt, es[1..])
  }

  /** One node for every listed entry, in order, under its directory's path. */
  lemma {:induction false} KidsComplete(opt: Options, p: Node, es: seq<Entry>, anc: set<Id>, budget: int)
    ensures var kids, ls := Kids(opt, p, es, anc, budget), ListedOnly(opt, es);
      |kids| == |ls| && forall i :: 0 <= i < |ls| ==> kids[i].path == ChildPath(p.path, ls[i].name)
    decreases |es|
  {
    if es != [] {
      var n := Kid(opt, p, es[0], anc, budget);
      KidsComplete(opt, p, es[1..], anc, if Listed(opt, es[0]) then NextBudget(budget, n.info) else budget);
    }
  }

  function DirCount(opt: Options, es: seq<Entry>): nat {
    if es == [] then 0
    else (if Listed(opt, es[0]) && es[0].stat.IsDir? then 1 else 0) + DirCount(opt, es[1..])
  }

  /** Every listed directory is recognised as one, or as a cycle. */
  predicate DirsSeen(opt: Options, p: Node, es: seq<Entry>, anc: set<Id>, budget: int) {
    es != [] ==>
      if !Listed(opt, es[0]) then DirsSeen(opt, p, es[1..], anc, budget)
      else
        var n := Kid(opt, p, es[0], anc, budget);
        && (es[0].stat.IsDir? ==> n.info == StatInfo(es[0].stat, IsDot(es[0].name), anc))
        && DirsSeen(opt, p, es[1..], anc, NextBudget(budget, n.info))
  }

  /** The link-count shortcut misses no directory exactly when the budget is negative, or
      at least the number of directories listed. */
  lemma {:induction false} ShortcutIsSound(opt: Options, p: Node, es: seq<Entry>, anc: set<Id>, budget: int)
    requires forall i :: 0 <= i < |es| && es[i].stat.IsDir? ==> es[i].dtype != DtOther
    ensures DirsSeen(opt, p, es, anc, budget) <==> budget < 0 || DirCount(opt, es) <= budget
    decreases |es|
  {
    if es != [] {
      var e := es[0];
      var b := if Listed(opt, e) then NextBudget(budget, Kid(opt, p, e, anc, budget).info) else budget;
      ShortcutIsSound(opt, p, es[1..], anc, b);
    }
  }

  /** The link count of a directory, which counts its own name and "." as well as the ".." of each
      directory in it, allows for all that are listed. It only matters if links are counted at all;
      then entries must not carry another type than that of a directory if they are one. */
  predicate CountRight(opt: Options, nlink: nat, es: seq<Entry>) {
    opt.nostat && opt.physical ==>
      && (forall i :: 0 <= i < |es| && es[i].stat.IsDir? ==> es[i].dtype != DtOther)
      && if opt.seedot then DirCount(opt, es) <= nlink else nlink < 2 || DirCount(opt, es) + 2 <= nlink
  }

  /** With the budget a directory gets, the shortcut misses none of its directories exactly when the
      link count is less than 2, or by 2 at least the number of directories listed; by nothing if
      "." and ".." are listed too. Without the shortcut none is missed. */
  lemma LinksAreRight(opt: Options, p: Node, es: seq<Entry>, anc: set<Id>)
    requires opt.nostat && opt.physical ==> forall i :: 0 <= i < |es| && es[i].stat.IsDir? ==> es[i].dtype != DtOther
    ensures DirsSeen(opt, p, es, anc, LinkBudget(opt, p)) <==>
      if !(opt.nostat && opt.physical) then true
      else if opt.seedot then DirCount(opt, es) <= p.nlink
      else p.nlink < 2 || DirCount(opt, es) + 2 <= p.nlink
  {
    if opt.nostat && opt.physical {
      ShortcutIsSound(opt, p, es, anc, LinkBudget(opt, p));
    } else {
      AllSeen(opt, p, es, anc);
    }
  }

  /** One is missed if it is not counted: its node says nothing of what it is, and it is not entered. */
  lemma MissedUncounted(opt: Options, p: Node, name: string, id: Id, nlink: nat, anc: set<Id>)
    requires opt.nostat && opt.physical && p.nlink == (if opt.seedot then 0 else 2) && name != "." && name != ".."
    ensures Kids(opt, p, [Entry(name, IsDir(id, nlink), DtDir)], anc, LinkBudget(opt, p)) ==
            [Node(ChildPath(p.path, name), NSOK, NO_ID, 0)]
  {
    assert [Entry(name, IsDir(id, nlink), DtDir)][1..] == [];
  }

  lemma {:induction false} AllSeen(opt: Options, p: Node, es: seq<Entry>, anc: set<Id>)
    requires !(opt.nostat && opt.physical)
    ensures DirsSeen(opt, p, es, anc, -1)
    decreases |es|
  {
    if es != [] {
      AllSeen(opt, p, es[1..], anc);
    }
  }

  // ----- which files are in the tour

  /** A directory's path with a name behind it, and one separator between them. */
  lemma ChildPathIs(path: string, name: string)
    ensures ChildPath(path, name) ==
            if path != "" && path[|path| - 1] == '/' then path + name else path + "/" + name
  {
    if path != "" && path[|path| - 1] == '/' {
      assert path == path[..|path| - 1] + "/";
    }
  }

  /** What a file is, from what the system reports: one that cannot be looked at, a link to nothing,
      a directory, a link, a regular file, or another. */
  lemma KindIs(s: StatResult, name: string, anc: set<Id>)
    ensures var info := StatInfo(s, IsDot(name), anc);
      && (info == NS <==> s.Failed?) && (info == SLNONE <==> s.NoTarget?) && (info == SL <==> s.IsLink?)
      && (info == F <==> s.IsRegular?) && (info == DEFAULT <==> s.IsOther?)
      && (info == DOT <==> s.IsDir? && (name == "." || name == ".."))
      && (info == DC <==> s.IsDir? && name != "." && name != ".." && s.id in anc)
      && (info == D <==> s.IsDir? && name != "." && name != ".." && s.id !in anc)
  {
  }

  /** When it is not looked at: no directory is expected any more, or its entry carries another type. */
  lemma LookedAtIs(opt: Options, p: Node, e: Entry, anc: set<Id>, budget: int)
    ensures Kid(opt, p, e, anc, budget).info == NSOK <==>
      budget == 0 || (opt.nostat && opt.physical && e.dtype == DtOther)
  {
  }

  lemma ListedIs(opt: Options, e: Entry)
    ensures Listed(opt, e) <==> opt.seedot || (e.name != "." && e.name != "..")
  {
  }

  /** The node of a directory in a directory. */
  function Below(p: Node, e: Entry): Node
    requires e.stat.IsDir?
  {
    Node(ChildPath(p.path, e.name), D, e.stat.id, e.stat.nlink)
  }

  /** A way down from directory p through listed directories, none with the identity of one above
      it, on the device of the root if it is to be kept to, and with the right link counts. */
  predicate LeadsDown(fs: FileSystem, opt: Options, dev: nat, anc: set<Id>, p: Node, steps: seq<Entry>)
    decreases |steps|
  {
    steps != [] ==>
      var e := steps[0];
      && p.id in fs && fs[p.id].Listing? && e in fs[p.id].entries && !(opt.xdev && p.id.dev != dev)
      && CountRight(opt, p.nlink, fs[p.id].entries)
      && e.stat.IsDir? && e.name != "." && e.name != ".." && e.stat.id !in anc + {p.id}
      && LeadsDown(fs, opt, dev, anc + {p.id}, Below(p, e), steps[1..])
  }

  function Bottom(p: Node, steps: seq<Entry>): Node
    requires forall i :: 0 <= i < |steps| ==> steps[i].stat.IsDir?
    decreases |steps|
  {
    if steps == [] then p else Bottom(Below(p, steps[0]), steps[1..])
  }

  lemma {:induction false} AreDirs(fs: FileSystem, opt: Options, dev: nat, anc: set<Id>, p: Node, steps: seq<Entry>)
    requires LeadsDown(fs, opt, dev, anc, p, steps)
    ensures forall i :: 0 <= i < |steps| ==> steps[i].stat.IsDir?
    decreases |steps|
  {
    if steps != [] {
      AreDirs(fs, opt, dev, anc + {p.id}, Below(p, steps[0]), steps[1..]);
      assert forall i :: 0 < i < |steps| ==> steps[i] == steps[1..][i - 1];
    }
  }

  lemma {:induction false} KidDir(opt: Options, p: Node, es: seq<Entry>, anc: set<Id>, budget: int, e: Entry)
    requires e in es && e.stat.IsDir? && e.name != "." && e.name != ".." && e.stat.id !in anc
    requires DirsSeen(opt, p, es, anc, budget)
    ensures Below(p, e) in Kids(opt, p, es, anc, budget)
    decreases |es|
  {
    if e != es[0] {
      assert e in es[1..];
      var n := Kid(opt, p, es[0], anc, budget);
      KidDir(opt, p, es[1..], anc, if Listed(opt, es[0]) then NextBudget(budget, n.info) else budget, e);
    } else {
      assert Kids(opt, p, es, anc, budget)[0] == Below(p, e);
    }
  }

  lemma {:induction false} KidTour(fs: FileSystem, opt: Options, dev: nat, anc: set<Id>, ns: seq<Node>, n: Node,
                                   m: Node)
    requires Closed(fs) && AllOk(fs, anc, ns) && n in ns
    ensures DirOk(fs, anc, n) && (m in Tour(fs, opt, dev, anc, n) ==> m in Tours(fs, opt, dev, anc, ns))
    decreases |ns|
  {
    if n != ns[0] {
      assert n in ns[1..];
      KidTour(fs, opt, dev, anc, ns[1..], n, m);
    }
  }

  /** The directory at the end of every such way is in the tour. */
  lemma {:induction false} Reaches(fs: FileSystem, opt: Options, dev: nat, anc: set<Id>, p: Node, steps: seq<Entry>)
    requires Closed(fs) && p.info == D && DirOk(fs, anc, p) && LeadsDown(fs, opt, dev, anc, p, steps)
    ensures forall i :: 0 <= i < |steps| ==> steps[i].stat.IsDir?
    ensures Bottom(p, steps) in Tour(fs, opt, dev, anc, p)
    decreases |steps|
  {
    hide DirsSeen, Kids, CountRight;
    AreDirs(fs, opt, dev, anc, p, steps);
    if steps != [] {
      var es, e, inner, budget := fs[p.id].entries, steps[0], anc + {p.id}, LinkBudget(opt, p);
      var q, kids := Below(p, e), Kids(opt, p, es, inner, budget);
      RightIsSeen(opt, p, es, inner);
      KidDir(opt, p, es, inner, budget, e);
      KidsOk(fs, opt, p, es, inner, budget);
      KidTour(fs, opt, dev, inner, kids, q, Bottom(p, steps));
      Reaches(fs, opt, dev, inner, q, steps[1..]);
      assert Finish(fs, opt, dev, anc, p) == Tours(fs, opt, dev, inner, kids) + [p.(info := DP)];
    }
  }

  lemma RightIsSeen(opt: Options, p: Node, es: seq<Entry>, anc: set<Id>)
    requires CountRight(opt, p.nlink, es)
    ensures DirsSeen(opt, p, es, anc, LinkBudget(opt, p))
  {
    LinksAreRight(opt, p, es, anc);
  }

  /** So a whole run leaves out no directory, however deep, that can be reached from a root without
      coming to a directory again, past a device that is to be kept to, or through a wrong count. */
  lemma {:induction false} NothingLeftOut(fs: FileSystem, opt: Options, roots: seq<Node>, i: nat, steps: seq<Entry>)
    requires Closed(fs) && AllOk(fs, {}, roots) && i < |roots| && roots[i].info == D
    requires LeadsDown(fs, opt, roots[i].id.dev, {}, roots[i], steps)
    ensures forall k :: 0 <= k < |steps| ==> steps[k].stat.IsDir?
    ensures Bottom(roots[i], steps) in Run(fs, opt, Opened(roots))
  {
    hide LeadsDown;
    RunIsTour(fs, opt, roots);
    Reaches(fs, opt, roots[i].id.dev, {}, roots[i], steps);
    RootTour(fs, opt, roots, i, Bottom(roots[i], steps));
  }

  lemma {:induction false} RootTour(fs: FileSystem, opt: Options, roots: seq<Node>, i: nat, m: Node)
    requires Closed(fs) && AllOk(fs, {}, roots) && i < |roots|
    ensures m in Tour(fs, opt, roots[i].id.dev, {}, roots[i]) ==> m in RootTours(fs, opt, roots)
    decreases |roots|
  {
    if i > 0 {
      RootTour(fs, opt, roots[1..], i - 1, m);
    }
  }

  // ----- and that no others are

  /** m stands for a file listed in directory p, which may be entered: it can be read, and is on the
      device of the root if that is to be kept to. */
  ghost predicate FoundIn(fs: FileSystem, opt: Options, dev: nat, p: Node, m: Node) {
    && p.info == D && p.id in fs && fs[p.id].Listing? && !(opt.xdev && p.id.dev != dev)
    && exists e :: e in fs[p.id].entries && (opt.seedot || (e.name != "." && e.name != "..")) &&
                   m.path == ChildPath(p.path, e.name)
  }

  lemma {:induction false} KidFound(opt: Options, p: Node, es: seq<Entry>, anc: set<Id>, budget: int, m: Node)
    requires m in Kids(opt, p, es, anc, budget)
    ensures exists e :: e in es && (opt.seedot || (e.name != "." && e.name != "..")) &&
                        m.path == ChildPath(p.path, e.name)
    decreases |es|
  {
    var listed, n := Listed(opt, es[0]), Kid(opt, p, es[0], anc, budget);
    if !listed || m != n {
      KidFound(opt, p, es[1..], anc, if listed then NextBudget(budget, n.info) else budget, m);
      var e :| e in es[1..] && (opt.seedot || (e.name != "." && e.name != "..")) && m.path == ChildPath(p.path, e.name);
      assert e in es;
    } else {
      assert es[0] in es;
    }
  }

  lemma {:induction false} ToursFound(fs: FileSystem, opt: Options, dev: nat, anc: set<Id>, ns: seq<Node>, m: Node)
    requires Closed(fs) && AllOk(fs, anc, ns) && m in Tours(fs, opt, dev, anc, ns) && m.info != DP && m.info != DNR
    ensures m in ns || exists p :: p in Tours(fs, opt, dev, anc, ns) && FoundIn(fs, opt, dev, p, m)
    decreases |fs.Keys - anc|, 2, |ns|
  {
    hide FoundIn;
    var t, rest := Tour(fs, opt, dev, anc, ns[0]), Tours(fs, opt, dev, anc, ns[1..]);
    if m in t {
      TourFound(fs, opt, dev, anc, ns[0], m);
      if m != ns[0] {
        var p :| p in t && FoundIn(fs, opt, dev, p, m);
        assert p in t + rest;
      }
    } else {
      ToursFound(fs, opt, dev, anc, ns[1..], m);
      if m !in ns[1..] {
        var p :| p in rest && FoundIn(fs, opt, dev, p, m);
        assert p in t + rest;
      }
    }
  }

  /** Every node of a tour is its first, the end of a directory, or a file found in a directory that
      was announced before. */
  lemma {:induction false} TourFound(fs: FileSystem, opt: Options, dev: nat, anc: set<Id>, n: Node, m: Node)
    requires Closed(fs) && DirOk(fs, anc, n) && m in Tour(fs, opt, dev, anc, n) && m.info != DP && m.info != DNR
    ensures m == n || exists p :: p in Tour(fs, opt, dev, anc, n) && FoundIn(fs, opt, dev, p, m)
    decreases |fs.Keys - anc|, 1
  {
    hide FoundIn, Kids;
    if m != n {
      var es, inner, budget := fs[n.id].entries, anc + {n.id}, LinkBudget(opt, n);
      var kids := Kids(opt, n, es, inner, budget);
      KidsOk(fs, opt, n, es, inner, budget);
      FewerFree(fs, anc, n.id);
      var inside := Tours(fs, opt, dev, inner, kids);
      assert Finish(fs, opt, dev, anc, n) == inside + [n.(info := DP)];
      ToursFound(fs, opt, dev, inner, kids, m);
      if m in kids {
        KidFound(opt, n, es, inner, budget, m);
        IsFoundIn(fs, opt, dev, n, m);
      } else {
        var p :| p in inside && FoundIn(fs, opt, dev, p, m);
        assert p in Tour(fs, opt, dev, anc, n);
      }
    }
  }

  lemma IsFoundIn(fs: FileSystem, opt: Options, dev: nat, p: Node, m: Node)
    requires p.info == D && p.id in fs && fs[p.id].Listing? && !Crossed(opt, dev, p)
    requires exists e :: e in fs[p.id].entries && (opt.seedot || (e.name != "." && e.name != "..")) &&
                         m.path == ChildPath(p.path, e.name)
    ensures FoundIn(fs, opt, dev, p, m)
  {
  }

  /** So a whole run returns the roots, what is found in the directories it announces, and their ends. */
  lemma {:induction false} NothingElse(fs: FileSystem, opt: Options, roots: seq<Node>, m: Node)
    requires Closed(fs) && AllOk(fs, {}, roots)
    requires m in RootTours(fs, opt, roots) && m.info != DP && m.info != DNR
    ensures m in roots || exists i, p :: (0 <= i < |roots| && p in RootTours(fs, opt, roots) &&
                                          FoundIn(fs, opt, roots[i].id.dev, p, m))
    decreases |roots|
  {
    hide FoundIn;
    var t, rest := Tour(fs, opt, roots[0].id.dev, {}, roots[0]), RootTours(fs, opt, roots[1..]);
    if m in t {
      TourFound(fs, opt, roots[0].id.dev, {}, roots[0], m);
      if m != roots[0] {
        var p :| p in t && FoundIn(fs, opt, roots[0].id.dev, p, m);
        assert p in t + rest && FoundIn(fs, opt, roots[0].id.dev, p, m);
      }
    } else {
      NothingElse(fs, opt, roots[1..], m);
      if m !in roots[1..] {
        var i, p :| 0 <= i < |roots[1..]| && p in rest && FoundIn(fs, opt, roots[1..][i].id.dev, p, m);
        assert p in t + rest && FoundIn(fs, opt, roots[i + 1].id.dev, p, m);
      }
    }
  }

  /** What ends a directory: that it could not be read, if it was tried, and that it is done if not. */
  lemma EndIs(fs: FileSystem, opt: Options, dev: nat, anc: set<Id>, p: Node)
    requires Closed(fs) && p.info == D && DirOk(fs, anc, p)
    ensures var t := Tour(fs, opt, dev, anc, p);
      && |t| >= 2 && t[0] == p
      && t[|t| - 1] ==
         p.(info := if fs[p.id].Unreadable? && !(opt.xdev && p.id.dev != dev) then DNR else DP)
      && (fs[p.id].Unreadable? || (opt.xdev && p.id.dev != dev) ==> |t| == 2)
  {
  }
}
