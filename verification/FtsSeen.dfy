/** What `fts_build` sees of a directory. When an entry's path outgrows the buffer, the entry is
    looked at through the pointer taken before the buffer was moved; `elsewhere` gives what the
    system reports for whatever that leads to, for each entry. */
module FtsSeen {
  import opened FtsMachine
  import opened Wrappers

  /** `fts_pow2` on numbers: double until large enough. */
  function RoundUp(x: nat, p: nat): (r: nat)
    requires p > 0
    ensures r >= x && r >= p && (r == p || r < 2 * x)
    decreases x - p
  {
    if x <= p then p else RoundUp(x, 2 * p)
  }

  /** The entry's path does not fit in the buffer. */
  predicate Outgrows(dir: string, name: string, room: nat) { |ChildPath(dir, name)| >= room }

  /** How long the buffer is once it does. */
  function RoomFor(dir: string, name: string, room: nat): nat {
    if Outgrows(dir, name, room) then RoundUp(|ChildPath(dir, name)| + 1, 1) else room
  }

  /** And how long it is after all the entries. */
  function RoomAfter(opt: Options, dir: string, es: seq<Entry>, room: nat): nat
    decreases |es|
  {
    if es == [] then room
    else RoomAfter(opt, dir, es[1..], if Listed(opt, es[0]) then RoomFor(dir, es[0].name, room) else room)
  }

  /** The entry is looked at where it is not. */
  predicate Strays(opt: Options, dir: string, e: Entry, budget: int, room: nat) {
    Outgrows(dir, e.name, room) && !Unlooked(opt, e, budget)
  }

  function Glance(opt: Options, dir: string, e: Entry, elsewhere: StatResult, budget: int, room: nat): Entry {
    if Strays(opt, dir, e, budget, room) then e.(stat := elsewhere) else e
  }

  /** The entries of directory p as they are seen, with a buffer of that length. */
  function Seen(opt: Options, p: Node, es: seq<Entry>, elsewhere: nat -> StatResult, anc: set<Id>, budget: int,
                room: nat, i: nat): (seen: seq<Entry>)
    ensures |seen| == |es|
    decreases |es|
  {
    if es == [] then []
    else if !Listed(opt, es[0]) then [es[0]] + Seen(opt, p, es[1..], elsewhere, anc, budget, room, i + 1)
    else
      var e := Glance(opt, p.path, es[0], elsewhere(i), budget, room);
      [e] + Seen(opt, p, es[1..], elsewhere, anc, NextBudget(budget, Kid(opt, p, e, anc, budget).info),
                 RoomFor(p.path, es[0].name, room), i + 1)
  }

  lemma SeenNext(opt: Options, p: Node, es: seq<Entry>, elsewhere: nat -> StatResult, anc: set<Id>, budget: int,
                 room: nat, i: nat)
    requires es != []
    ensures var seen := Seen(opt, p, es, elsewhere, anc, budget, room, i);
      var e := if Listed(opt, es[0]) then Glance(opt, p.path, es[0], elsewhere(i), budget, room) else es[0];
      && |seen| == |es| && seen[0] == e && (Listed(opt, e) <==> Listed(opt, es[0]))
      && seen[1..] ==
         if Listed(opt, e) then
           Seen(opt, p, es[1..], elsewhere, anc, NextBudget(budget, Kid(opt, p, e, anc, budget).info),
                RoomFor(p.path, es[0].name, room), i + 1)
         else Seen(opt, p, es[1..], elsewhere, anc, budget, room, i + 1)
  {
  }

  /** Some entry is looked at where it is not: one whose path outgrows the buffer, as that is by
      then, and that neither its type nor the count of links makes it needless to look at. */
  predicate Astray(opt: Options, p: Node, es: seq<Entry>, anc: set<Id>, budget: int, room: nat)
    decreases |es|
  {
    && es != []
    && if !Listed(opt, es[0]) then Astray(opt, p, es[1..], anc, budget, room)
       else
         || Strays(opt, p.path, es[0], budget, room)
         || Astray(opt, p, es[1..], anc, NextBudget(budget, Kid(opt, p, es[0], anc, budget).info),
                   RoomFor(p.path, es[0].name, room))
  }

  /** If none is, the directory is seen as it is. */
  lemma {:induction false} SeenAsIs(opt: Options, p: Node, es: seq<Entry>, elsewhere: nat -> StatResult, anc: set<Id>,
                                    budget: int, room: nat, i: nat)
    requires !Astray(opt, p, es, anc, budget, room)
    ensures Seen(opt, p, es, elsewhere, anc, budget, room, i) == es
    decreases |es|
  {
    if es != [] {
      if !Listed(opt, es[0]) {
        SeenAsIs(opt, p, es[1..], elsewhere, anc, budget, room, i + 1);
      } else {
        SeenAsIs(opt, p, es[1..], elsewhere, anc, NextBudget(budget, Kid(opt, p, es[0], anc, budget).info),
                 RoomFor(p.path, es[0].name, room), i + 1);
      }
      assert es == [es[0]] + es[1..];
    }
  }

  /** Some listed entry's path does not fit in a buffer of that length. */
  ghost predicate TooLong(opt: Options, dir: string, es: seq<Entry>, room: nat) {
    exists i :: 0 <= i < |es| && Listed(opt, es[i]) && Outgrows(dir, es[i].name, room)
  }

  /** If every entry is looked at, one strays exactly if some path does not fit. */
  lemma {:induction false} AstrayIs(opt: Options, p: Node, es: seq<Entry>, anc: set<Id>, budget: int, room: nat)
    ensures Astray(opt, p, es, anc, budget, room) ==> TooLong(opt, p.path, es, room)
    ensures budget < 0 && !(opt.nostat && opt.physical) && TooLong(opt, p.path, es, room) ==>
            Astray(opt, p, es, anc, budget, room)
    decreases |es|
  {
    if es != [] {
      var e := es[0];
      if Listed(opt, e) && Outgrows(p.path, e.name, room) {
        assert TooLong(opt, p.path, es, room);
      } else {
        var b := if Listed(opt, e) then NextBudget(budget, Kid(opt, p, e, anc, budget).info) else budget;
        AstrayIs(opt, p, es[1..], anc, b, room);
        if TooLong(opt, p.path, es[1..], room) {
          var i :| 0 <= i < |es[1..]| && Listed(opt, es[1..][i]) && Outgrows(p.path, es[1..][i].name, room);
          assert es[i + 1] == es[1..][i];
        }
        if TooLong(opt, p.path, es, room) {
          var i :| 0 <= i < |es| && Listed(opt, es[i]) && Outgrows(p.path, es[i].name, room);
          assert es[1..][i - 1] == es[i];
        }
      }
    }
  }

  /** What is seen is a directory like any other. */
  lemma {:induction false} SeenOk(fs: FileSystem, opt: Options, p: Node, es: seq<Entry>, elsewhere: nat -> StatResult,
                                  anc: set<Id>, budget: int, room: nat, i: nat)
    requires forall k :: 0 <= k < |es| ==> StatOk(fs, es[k].stat)
    requires forall k :: StatOk(fs, elsewhere(k))
    ensures var seen := Seen(opt, p, es, elsewhere, anc, budget, room, i);
      forall k :: 0 <= k < |es| ==> StatOk(fs, seen[k].stat) && seen[k].name == es[k].name
    decreases |es|
  {
    if es != [] {
      if !Listed(opt, es[0]) {
        SeenOk(fs, opt, p, es[1..], elsewhere, anc, budget, room, i + 1);
      } else {
        var e := Glance(opt, p.path, es[0], elsewhere(i), budget, room);
        SeenOk(fs, opt, p, es[1..], elsewhere, anc, NextBudget(budget, Kid(opt, p, e, anc, budget).info),
               RoomFor(p.path, es[0].name, room), i + 1);
      }
    }
  }

  // ----- that a walk ends, whatever it sees

  function Times(n: nat, c: nat): nat { if n == 0 then 0 else c + Times(n - 1, c) }

  /** The most reads a file can take with so many directories not yet open above it and no
      directory of more than `most` entries. */
  function Cost(free: nat, most: nat): nat { if free == 0 then 1 else 2 + Times(most, Cost(free - 1, most)) }

  ghost function Free(fs: FileSystem, s: Stack): nat { |fs.Keys - Chain(s)| }

  /** The reads still to come for the directories that are open. */
  ghost function Above(fs: FileSystem, most: nat, s: Stack): nat {
    if s.Nil? then 0 else 1 + Times(|s.rest|, Cost(Free(fs, s.below), most)) + Above(fs, most, s.below)
  }

  /** No walk from here takes more reads. */
  ghost function Most(fs: FileSystem, most: nat, s: Stack): nat {
    if s.Nil? then 0
    else (if s.head.info == D then Times(most, Cost(Free(fs, s), most)) + 1 else 0) + Above(fs, most, s)
  }

  lemma {:induction false} TimesMore(m: nat, n: nat, c: nat)
    requires m <= n
    ensures Times(m, c) <= Times(n, c)
    ensures m < n ==> Times(m, c) + c <= Times(n, c)
    decreases n
  {
    if m < n {
      TimesMore(m, n - 1, c);
    }
  }

  /** A file at the head of the list below s takes less than its cost. */
  lemma HeadCost(fs: FileSystem, most: nat, n: Node, rest: seq<Node>, s: Stack)
    requires DirOk(fs, Chain(s), n)
    ensures Most(fs, most, Frame(n, rest, s)) <=
            Cost(Free(fs, s), most) + Times(|rest|, Cost(Free(fs, s), most)) + Above(fs, most, s)
  {
    hide Times, Cost;
    var f := Frame(n, rest, s);
    CostIs(Free(fs, f), Free(fs, s), most);
    if n.info == D {
      assert fs.Keys - Chain(s) == (fs.Keys - Chain(f)) + {n.id};
    }
  }

  lemma CostIs(inner: nat, outer: nat, most: nat)
    ensures Cost(outer, most) >= 1
    ensures outer == inner + 1 ==> Cost(outer, most) == 2 + Times(most, Cost(inner, most))
  {
  }

  predicate NotMore(fs: FileSystem, most: nat) {
    forall d :: d in fs && fs[d].Listing? ==> |fs[d].entries| <= most
  }

  lemma {:induction false} KidsAtMost(opt: Options, p: Node, es: seq<Entry>, anc: set<Id>, budget: int)
    ensures |Kids(opt, p, es, anc, budget)| <= |es|
    decreases |es|
  {
    if es != [] {
      var n := Kid(opt, p, es[0], anc, budget);
      KidsAtMost(opt, p, es[1..], anc, if Listed(opt, es[0]) then NextBudget(budget, n.info) else budget);
    }
  }

  /** Each step leaves fewer reads to come. */
  lemma StepShrinks(fs: FileSystem, opt: Options, st: State, most: nat)
    requires Closed(fs) && NotMore(fs, most) && Valid(fs, st.stack) && st.stack.Frame?
    ensures Most(fs, most, Step(fs, opt, st, false).0.stack) < Most(fs, most, st.stack)
  {
    hide Times, Cost;
    var s, p := st.stack, st.stack.head;
    if p.info == D {
      if !Crossed(opt, st.dev, p) && fs[p.id].Listing? {
        Descends(fs, opt, st, fs[p.id].entries, most);
      } else {
        SameAbove(fs, most, s, p.(info := DP));
        SameAbove(fs, most, s, p.(info := DNR));
      }
    } else if s.rest != [] {
      HeadCost(fs, most, s.rest[0], s.rest[1..], s.below);
      OneTime(|s.rest|, Cost(Free(fs, s.below), most));
    } else if s.below.Frame? {
      SameAbove(fs, most, s.below, s.below.head.(info := DP));
      NoTimes(Cost(Free(fs, s.below), most));
    }
  }

  lemma OneTime(n: nat, c: nat)
    requires n > 0
    ensures Times(n, c) == c + Times(n - 1, c)
  {
  }

  lemma NoTimes(c: nat)
    ensures Times(0, c) == 0
  {
  }

  lemma SameAbove(fs: FileSystem, most: nat, s: Stack, n: Node)
    requires s.Frame? && n.info != D
    ensures Most(fs, most, s.(head := n)) == Above(fs, most, s) <= Most(fs, most, s)
    ensures s.head.info == D ==> Above(fs, most, s) < Most(fs, most, s)
  {
  }

  lemma Descends(fs: FileSystem, opt: Options, st: State, es: seq<Entry>, most: nat)
    requires Closed(fs) && |es| <= most && Valid(fs, st.stack) && st.stack.Frame? && st.stack.head.info == D
    requires !Crossed(opt, st.dev, st.stack.head) && fs[st.stack.head.id] == Listing(es)
    ensures Most(fs, most, Step(fs, opt, st, false).0.stack) < Most(fs, most, st.stack)
  {
    hide Times, Cost;
    var s, p := st.stack, st.stack.head;
    var kids := Kids(opt, p, es, Chain(s), LinkBudget(opt, p));
    KidsAtMost(opt, p, es, Chain(s), LinkBudget(opt, p));
    KidsOk(fs, opt, p, es, Chain(s), LinkBudget(opt, p));
    if kids == [] {
      SameAbove(fs, most, s, p.(info := DP));
    } else {
      HeadCost(fs, most, kids[0], kids[1..], s);
      TimesMore(|kids| - 1, most, Cost(Free(fs, s), most));
    }
  }
}
