/** Whole walks in which some entries are looked at where they are not. */
module FtsStray {
  import opened FtsMachine
  import opened FtsSeen
  import opened Wrappers

  // ----- one read

  /** The read is of a directory's entries. */
  predicate Opens(fs: FileSystem, opt: Options, st: State) {
    && st.stack.Frame? && st.stack.head.info == D && !Crossed(opt, st.dev, st.stack.head)
    && st.stack.head.id in fs && fs[st.stack.head.id].Listing?
  }

  /** The file system as that read sees it. */
  function SeenAt(fs: FileSystem, opt: Options, st: State, elsewhere: nat -> StatResult, room: nat): FileSystem {
    if Opens(fs, opt, st) then
      var p := st.stack.head;
      var seen := Seen(opt, p, fs[p.id].entries, elsewhere, Chain(st.stack), LinkBudget(opt, p), room, 0);
      fs[p.id := Listing(seen)]
    else fs
  }

  /** It looks at some entry where that is not. */
  predicate StraysAt(fs: FileSystem, opt: Options, st: State, room: nat) {
    && Opens(fs, opt, st)
    && Astray(opt, st.stack.head, fs[st.stack.head.id].entries, Chain(st.stack), LinkBudget(opt, st.stack.head), room)
  }

  /** Some entry's path is too long for the buffer. */
  ghost predicate OutgrownAt(fs: FileSystem, opt: Options, st: State, room: nat) {
    Opens(fs, opt, st) && TooLong(opt, st.stack.head.path, fs[st.stack.head.id].entries, room)
  }

  /** The length of the buffer after the read. */
  function RoomAt(fs: FileSystem, opt: Options, st: State, room: nat): nat {
    if Opens(fs, opt, st) then RoomAfter(opt, st.stack.head.path, fs[st.stack.head.id].entries, room) else room
  }

  lemma NotAstray(fs: FileSystem, opt: Options, st: State, elsewhere: nat -> StatResult, room: nat)
    ensures !StraysAt(fs, opt, st, room) ==> SeenAt(fs, opt, st, elsewhere, room) == fs
    ensures StraysAt(fs, opt, st, room) ==> OutgrownAt(fs, opt, st, room)
    ensures !(opt.nostat && opt.physical) ==> (StraysAt(fs, opt, st, room) <==> OutgrownAt(fs, opt, st, room))
  {
    if Opens(fs, opt, st) {
      var p, es := st.stack.head, fs[st.stack.head.id].entries;
      AstrayIs(opt, p, es, Chain(st.stack), LinkBudget(opt, p), room);
      if !StraysAt(fs, opt, st, room) {
        SeenAsIs(opt, p, es, elsewhere, Chain(st.stack), LinkBudget(opt, p), room, 0);
      }
    }
  }

  // ----- what a stray look can make of a directory

  /** A report that makes the first entry that is not looked at in its place another one. */
  function WrongAt(opt: Options, p: Node, es: seq<Entry>, anc: set<Id>, budget: int, room: nat): StatResult
    decreases |es|
  {
    if es == [] then Failed
    else if !Listed(opt, es[0]) then WrongAt(opt, p, es[1..], anc, budget, room)
    else if Strays(opt, p.path, es[0], budget, room) then (if es[0].stat == Failed then IsRegular else Failed)
    else WrongAt(opt, p, es[1..], anc, NextBudget(budget, Kid(opt, p, es[0], anc, budget).info),
                 RoomFor(p.path, es[0].name, room))
  }

  lemma {:induction false} WrongDiffers(opt: Options, p: Node, es: seq<Entry>, elsewhere: nat -> StatResult,
                                        anc: set<Id>, budget: int, room: nat, i: nat)
    requires Astray(opt, p, es, anc, budget, room)
    requires forall k :: elsewhere(k) == WrongAt(opt, p, es, anc, budget, room)
    ensures !WrongAt(opt, p, es, anc, budget, room).IsDir?
    ensures Kids(opt, p, Seen(opt, p, es, elsewhere, anc, budget, room, i), anc, budget) !=
            Kids(opt, p, es, anc, budget)
    decreases |es|
  {
    var seen := Seen(opt, p, es, elsewhere, anc, budget, room, i);
    if !Listed(opt, es[0]) {
      WrongDiffers(opt, p, es[1..], elsewhere, anc, budget, room, i + 1);
      assert seen[1..] == Seen(opt, p, es[1..], elsewhere, anc, budget, room, i + 1);
    } else if Strays(opt, p.path, es[0], budget, room) {
      assert seen[0] == es[0].(stat := elsewhere(i));
      assert Kids(opt, p, seen, anc, budget)[0] != Kids(opt, p, es, anc, budget)[0];
    } else {
      var b, r := NextBudget(budget, Kid(opt, p, es[0], anc, budget).info), RoomFor(p.path, es[0].name, room);
      WrongDiffers(opt, p, es[1..], elsewhere, anc, b, r, i + 1);
      assert seen[0] == es[0] && seen[1..] == Seen(opt, p, es[1..], elsewhere, anc, b, r, i + 1);
      assert Kids(opt, p, seen, anc, budget)[1..] != Kids(opt, p, es, anc, budget)[1..];
    }
  }

  lemma {:induction false} AsMany(opt: Options, p: Node, es: seq<Entry>, other: seq<Entry>, anc: set<Id>,
                                  b: int, c: int)
    requires |es| == |other| && forall i :: 0 <= i < |es| ==> es[i].name == other[i].name
    ensures |Kids(opt, p, es, anc, b)| == |Kids(opt, p, other, anc, c)|
    decreases |es|
  {
    if es != [] {
      var listed := Listed(opt, es[0]);
      AsMany(opt, p, es[1..], other[1..], anc, if listed then NextBudget(b, Kid(opt, p, es[0], anc, b).info) else b,
             if listed then NextBudget(c, Kid(opt, p, other[0], anc, c).info) else c);
    }
  }

  // ----- as it is seen, again a file system

  lemma {:induction false} SameKeys(fs: FileSystem, seen: FileSystem, s: Stack, most: nat)
    requires fs.Keys == seen.Keys
    ensures FtsMachine.Valid(fs, s) <==> FtsMachine.Valid(seen, s)
    ensures Above(fs, most, s) == Above(seen, most, s) && Most(fs, most, s) == Most(seen, most, s)
    decreases s
  {
    if s.Frame? {
      SameKeys(fs, seen, s.below, most);
    }
  }

  lemma SeenAtOk(fs: FileSystem, opt: Options, st: State, elsewhere: nat -> StatResult, room: nat, most: nat)
    requires Closed(fs) && Valid(fs, st.stack) && NotMore(fs, most) && forall i :: StatOk(fs, elsewhere(i))
    ensures var seen := SeenAt(fs, opt, st, elsewhere, room);
      seen.Keys == fs.Keys && Closed(seen) && NotMore(seen, most) && Valid(seen, st.stack)
  {
    hide Seen, Valid, Closed, NotMore;
    if Opens(fs, opt, st) {
      var p := st.stack.head;
      var es := fs[p.id].entries;
      IsListing(fs, p.id, es, most);
      var found := Found(fs, opt, p, es, elsewhere, Chain(st.stack), LinkBudget(opt, p), room);
      Relisted(fs, p.id, found, most);
    }
    SameKeys(fs, SeenAt(fs, opt, st, elsewhere, room), st.stack, most);
  }

  lemma Found(fs: FileSystem, opt: Options, p: Node, es: seq<Entry>, elsewhere: nat -> StatResult, anc: set<Id>,
              budget: int, room: nat) returns (found: seq<Entry>)
    requires forall k :: 0 <= k < |es| ==> StatOk(fs, es[k].stat)
    requires forall k :: StatOk(fs, elsewhere(k))
    ensures found == Seen(opt, p, es, elsewhere, anc, budget, room, 0) && |found| == |es|
    ensures forall k :: 0 <= k < |found| ==> StatOk(fs, found[k].stat)
  {
    hide *;
    found := Seen(opt, p, es, elsewhere, anc, budget, room, 0);
    SeenOk(fs, opt, p, es, elsewhere, anc, budget, room, 0);
    forall k | 0 <= k < |found| ensures StatOk(fs, found[k].stat) {
      assert found[k].name == es[k].name;
    }
  }

  lemma IsListing(fs: FileSystem, d: Id, es: seq<Entry>, most: nat)
    requires Closed(fs) && NotMore(fs, most) && d in fs && fs[d] == Listing(es)
    ensures |es| <= most && forall k :: 0 <= k < |es| ==> StatOk(fs, es[k].stat)
  {
  }

  lemma Relisted(fs: FileSystem, d: Id, es: seq<Entry>, most: nat)
    requires Closed(fs) && NotMore(fs, most) && d in fs && |es| <= most
    requires forall k :: 0 <= k < |es| ==> StatOk(fs, es[k].stat)
    ensures var seen := fs[d := Listing(es)];
      seen.Keys == fs.Keys && Closed(seen) && NotMore(seen, most)
  {
  }

  /** The most entries any of the directories has. */
  ghost function Largest(fs: FileSystem, ds: set<Id>): (most: nat)
    requires ds <= fs.Keys
    ensures forall d :: d in ds && fs[d].Listing? ==> |fs[d].entries| <= most
    decreases |ds|
  {
    if ds == {} then 0
    else
      var d :| d in ds;
      var most := Largest(fs, ds - {d});
      if fs[d].Listing? && |fs[d].entries| > most then |fs[d].entries| else most
  }

  /** No walk from here takes more reads. */
  ghost function Reads(fs: FileSystem, st: State): nat { Most(fs, Largest(fs, fs.Keys), st.stack) }

  lemma SeenStep(fs: FileSystem, opt: Options, st: State, elsewhere: nat -> StatResult, room: nat)
    requires Closed(fs) && Valid(fs, st.stack) && st.stack.Frame? && forall i :: StatOk(fs, elsewhere(i))
    ensures CanStep(SeenAt(fs, opt, st, elsewhere, room), st)
    ensures var (st', r) := Step(SeenAt(fs, opt, st, elsewhere, room), opt, st, false);
      Valid(fs, st'.stack) && (r == None <==> st'.stack.Nil?) && Reads(fs, st') < Reads(fs, st)
  {
    hide *;
    var seen, most := SeenAt(fs, opt, st, elsewhere, room), Largest(fs, fs.Keys);
    IsNotMore(fs, most);
    SeenAtOk(fs, opt, st, elsewhere, room, most);
    Ready(seen, st);
    var (st', r) := Step(seen, opt, st, false);
    StepFollowsTour(seen, opt, st);
    StepShrinks(seen, opt, st, most);
    SameKeys(fs, seen, st.stack, most);
    SameKeys(fs, seen, st'.stack, most);
    IsReads(fs, st);
    IsReads(fs, st');
  }

  lemma IsNotMore(fs: FileSystem, most: nat)
    requires forall d :: d in fs.Keys && fs[d].Listing? ==> |fs[d].entries| <= most
    ensures NotMore(fs, most)
  {
  }

  lemma Ready(fs: FileSystem, st: State)
    ensures CanStep(fs, st) <==> st.stack.Frame? && (st.stack.head.info == D ==> st.stack.head.id in fs)
    ensures Valid(fs, st.stack) && st.stack.Frame? ==> CanStep(fs, st)
  {
  }

  lemma IsReads(fs: FileSystem, st: State)
    ensures Reads(fs, st) == Most(fs, Largest(fs, fs.Keys), st.stack)
  {
  }

  lemma TrueStep(fs: FileSystem, opt: Options, st: State)
    requires Closed(fs) && Valid(fs, st.stack) && st.stack.Frame?
    ensures CanStep(fs, st)
    ensures var (st', r) := Step(fs, opt, st, false);
      && Valid(fs, st'.stack) && (r == None <==> st'.stack.Nil?) && Reads(fs, st') < Reads(fs, st)
      && Rest(fs, opt, st) == (if r == None then [] else [r.value] + Rest(fs, opt, st'))
  {
    hide *;
    IsNotMore(fs, Largest(fs, fs.Keys));
    Ready(fs, st);
    StepFollowsTour(fs, opt, st);
    StepShrinks(fs, opt, st, Largest(fs, fs.Keys));
    IsReads(fs, st);
    IsReads(fs, Step(fs, opt, st, false).0);
  }

  // ----- whole walks

  ghost predicate AllStatsOk(fs: FileSystem, elsewhere: nat -> nat -> StatResult) {
    forall n, i :: StatOk(fs, elsewhere(n)(i))
  }

  /** What the reads return, read n seeing elsewhere(n) where it goes astray. */
  ghost function SeenRun(fs: FileSystem, opt: Options, st: State, room: nat, elsewhere: nat -> nat -> StatResult,
                         n: nat): seq<Node>
    requires Closed(fs) && Valid(fs, st.stack) && AllStatsOk(fs, elsewhere)
    decreases Reads(fs, st)
  {
    if st.stack.Nil? then []
    else
      SeenStep(fs, opt, st, elsewhere(n), room);
      var (st', r) := Step(SeenAt(fs, opt, st, elsewhere(n), room), opt, st, false);
      if r == None then [] else [r.value] + SeenRun(fs, opt, st', RoomAt(fs, opt, st, room), elsewhere, n + 1)
  }

  /** Some read goes astray, in a walk in which none has so far. */
  ghost predicate StraysFrom(fs: FileSystem, opt: Options, st: State, room: nat)
    requires Closed(fs) && Valid(fs, st.stack)
    decreases Reads(fs, st)
  {
    && st.stack.Frame?
    && (StraysAt(fs, opt, st, room) ||
        (TrueStep(fs, opt, st); StraysFrom(fs, opt, Step(fs, opt, st, false).0, RoomAt(fs, opt, st, room))))
  }

  /** If none does, the walk returns what it should, whatever is elsewhere. */
  lemma {:induction false} RightWalk(fs: FileSystem, opt: Options, st: State, room: nat,
                                     elsewhere: nat -> nat -> StatResult, n: nat)
    requires Closed(fs) && Valid(fs, st.stack) && AllStatsOk(fs, elsewhere) && !StraysFrom(fs, opt, st, room)
    ensures SeenRun(fs, opt, st, room, elsewhere, n) == Rest(fs, opt, st)
    decreases Reads(fs, st)
  {
    hide Reads, StraysAt, SeenAt, RoomAt, Step;
    if st.stack.Frame? {
      NotAstray(fs, opt, st, elsewhere(n), room);
      TrueStep(fs, opt, st);
      RightWalk(fs, opt, Step(fs, opt, st, false).0, RoomAt(fs, opt, st, room), elsewhere, n + 1);
    }
  }

  // ----- that one may not, if some read does

  /** Reports of each entry as it is, for the read k from here. */
  ghost function Truth(fs: FileSystem, opt: Options, st: State, k: nat): nat -> StatResult
    requires Closed(fs) && Valid(fs, st.stack)
    decreases k
  {
    if st.stack.Nil? then (i: nat) => Failed
    else if k == 0 then
      var es := if Opens(fs, opt, st) then fs[st.stack.head.id].entries else [];
      (i: nat) => if i < |es| then es[i].stat else Failed
    else
      TrueStep(fs, opt, st);
      Truth(fs, opt, Step(fs, opt, st, false).0, k - 1)
  }

  lemma {:induction false} TruthOk(fs: FileSystem, opt: Options, st: State, k: nat, i: nat)
    requires Closed(fs) && Valid(fs, st.stack)
    ensures StatOk(fs, Truth(fs, opt, st, k)(i))
    decreases k
  {
    if st.stack.Frame? && k > 0 {
      TrueStep(fs, opt, st);
      TruthOk(fs, opt, Step(fs, opt, st, false).0, k - 1, i);
    }
  }

  lemma {:induction false} SeenTruth(opt: Options, p: Node, es: seq<Entry>, elsewhere: nat -> StatResult, anc: set<Id>,
                                     budget: int, room: nat, i: nat)
    requires forall j :: 0 <= j < |es| ==> elsewhere(i + j) == es[j].stat
    ensures Seen(opt, p, es, elsewhere, anc, budget, room, i) == es
    decreases |es|
  {
    hide Seen, Kid, NextBudget, RoomFor, Listed, Strays;
    var seen := Seen(opt, p, es, elsewhere, anc, budget, room, i);
    if es != [] {
      SeenNext(opt, p, es, elsewhere, anc, budget, room, i);
      assert elsewhere(i + 0) == es[0].stat && seen[0] == es[0];
      forall j | 0 <= j < |es[1..]| ensures elsewhere(i + 1 + j) == es[1..][j].stat {
        assert elsewhere(i + (j + 1)) == es[j + 1].stat;
      }
      if Listed(opt, es[0]) {
        SeenTruth(opt, p, es[1..], elsewhere, anc, NextBudget(budget, Kid(opt, p, es[0], anc, budget).info),
                  RoomFor(p.path, es[0].name, room), i + 1);
      } else {
        SeenTruth(opt, p, es[1..], elsewhere, anc, budget, room, i + 1);
      }
      assert seen == [seen[0]] + seen[1..] && es == [es[0]] + es[1..];
    }
  }

  lemma TrueLook(fs: FileSystem, opt: Options, st: State, room: nat)
    requires Closed(fs) && Valid(fs, st.stack)
    ensures SeenAt(fs, opt, st, Truth(fs, opt, st, 0), room) == fs
  {
    hide Seen, Closed, Valid;
    if Opens(fs, opt, st) {
      var p := st.stack.head;
      SeenTruth(opt, p, fs[p.id].entries, Truth(fs, opt, st, 0), Chain(st.stack), LinkBudget(opt, p), room, 0);
    }
  }

  /** With these, a walk goes on rightly. */
  lemma {:induction false} TrueWalk(fs: FileSystem, opt: Options, st: State, room: nat,
                                    elsewhere: nat -> nat -> StatResult, n: nat)
    requires Closed(fs) && Valid(fs, st.stack) && AllStatsOk(fs, elsewhere)
    requires forall k: nat :: elsewhere(n + k) == Truth(fs, opt, st, k)
    ensures SeenRun(fs, opt, st, room, elsewhere, n) == Rest(fs, opt, st)
    decreases Reads(fs, st)
  {
    hide Reads, RoomAt, Step, SeenAt, Opens;
    if st.stack.Frame? {
      TrueStep(fs, opt, st);
      var st' := Step(fs, opt, st, false).0;
      assert elsewhere(n + 0) == Truth(fs, opt, st, 0);
      TrueLook(fs, opt, st, room);
      forall k: nat ensures elsewhere(n + 1 + k) == Truth(fs, opt, st', k) {
        assert elsewhere(n + (k + 1)) == Truth(fs, opt, st, k + 1);
      }
      TrueWalk(fs, opt, st', RoomAt(fs, opt, st, room), elsewhere, n + 1);
    }
  }

  /** Tours of different files are different, whatever follows them. */
  lemma {:induction false} ToursDiffer(fs: FileSystem, opt: Options, dev: nat, anc: set<Id>, a: seq<Node>, b: seq<Node>,
                                       end: seq<Node>)
    requires Closed(fs) && AllOk(fs, anc, a) && AllOk(fs, anc, b)
    requires Tours(fs, opt, dev, anc, a) + end == Tours(fs, opt, dev, anc, b) + end
    ensures a == b
    decreases |a|
  {
    hide Tour, AllOk;
    ToursStart(fs, opt, dev, anc, a, end);
    ToursStart(fs, opt, dev, anc, b, end);
    if a != [] {
      assert b != [];
      var t := Tour(fs, opt, dev, anc, a[0]);
      assert a[0] == b[0];
      var x, y := Tours(fs, opt, dev, anc, a[1..]) + end, Tours(fs, opt, dev, anc, b[1..]) + end;
      assert x == (t + x)[|t|..] == (t + y)[|t|..] == y;
      ToursDiffer(fs, opt, dev, anc, a[1..], b[1..], end);
      assert a == [a[0]] + a[1..] && b == [b[0]] + b[1..];
    }
  }

  lemma ToursStart(fs: FileSystem, opt: Options, dev: nat, anc: set<Id>, a: seq<Node>, end: seq<Node>)
    requires Closed(fs) && AllOk(fs, anc, a)
    ensures a == [] ==> Tours(fs, opt, dev, anc, a) == []
    ensures a != [] ==>
      && DirOk(fs, anc, a[0]) && AllOk(fs, anc, a[1..])
      && Tours(fs, opt, dev, anc, a) + end ==
         Tour(fs, opt, dev, anc, a[0]) + (Tours(fs, opt, dev, anc, a[1..]) + end)
      && (Tours(fs, opt, dev, anc, a) + end)[0] == a[0] && |Tours(fs, opt, dev, anc, a)| > 0
  {
  }

  /** One stray look can leave the walk with other files to return. */
  lemma Misstep(fs: FileSystem, opt: Options, st: State, elsewhere: nat -> StatResult, room: nat)
    requires Closed(fs) && Valid(fs, st.stack) && StraysAt(fs, opt, st, room)
    requires var p := st.stack.head;
      forall k :: elsewhere(k) ==
                  WrongAt(opt, p, fs[p.id].entries, Chain(st.stack), LinkBudget(opt, p), room)
    ensures forall k :: StatOk(fs, elsewhere(k))
    ensures CanStep(SeenAt(fs, opt, st, elsewhere, room), st)
    ensures var (st', r) := Step(SeenAt(fs, opt, st, elsewhere, room), opt, st, false);
      && (st', r) != Step(fs, opt, st, false)
      && r.Some? && Valid(fs, st'.stack) && [r.value] + Rest(fs, opt, st') != Rest(fs, opt, st)
  {
    hide Seen, Astray, WrongAt, Kids, Tours, Rest;
    var s, p := st.stack, st.stack.head;
    var es, b := fs[p.id].entries, LinkBudget(opt, p);
    var seen := Seen(opt, p, es, elsewhere, Chain(s), b, room, 0);
    WrongDiffers(opt, p, es, elsewhere, Chain(s), b, room, 0);
    SeenOk(fs, opt, p, es, elsewhere, Chain(s), b, room, 0);
    var kids, other := Kids(opt, p, es, Chain(s), b), Kids(opt, p, seen, Chain(s), b);
    AsMany(opt, p, seen, es, Chain(s), b, b);
    KidsOk(fs, opt, p, es, Chain(s), b);
    KidsOk(fs, opt, p, seen, Chain(s), b);
    Inside(fs, opt, st, kids);
    Inside(fs, opt, st, other);
    EnterFollowsTour(fs, opt, st, es, kids);
    assert [kids[0]] + kids[1..] == kids && [other[0]] + other[1..] == other;
    if [other[0]] + Rest(fs, opt, State(st.dev, Frame(other[0], other[1..], s))) == Rest(fs, opt, st) {
      ToursDiffer(fs, opt, st.dev, Chain(s), kids, other, [p.(info := DP)] + After(fs, opt, st.dev, s));
    }
  }

  /** A read is right, whatever is elsewhere, exactly if it does not go astray. */
  lemma ReadRight(fs: FileSystem, opt: Options, st: State, room: nat)
    requires Closed(fs) && Valid(fs, st.stack) && st.stack.Frame?
    ensures !StraysAt(fs, opt, st, room) <==>
      forall elsewhere: nat -> StatResult :: (forall i :: StatOk(fs, elsewhere(i))) ==>
        Step(SeenAt(fs, opt, st, elsewhere, room), opt, st, false) == Step(fs, opt, st, false)
  {
    hide Step, Rest, WrongAt;
    if StraysAt(fs, opt, st, room) {
      var p := st.stack.head;
      var w := WrongAt(opt, p, fs[p.id].entries, Chain(st.stack), LinkBudget(opt, p), room);
      var elsewhere: nat -> StatResult := _ => w;
      Misstep(fs, opt, st, elsewhere, room);
    } else {
      forall elsewhere: nat -> StatResult
        ensures Step(SeenAt(fs, opt, st, elsewhere, room), opt, st, false) == Step(fs, opt, st, false)
      {
        NotAstray(fs, opt, st, elsewhere, room);
      }
    }
  }

  /** If some read goes astray, there are reports that make the walk return something else. */
  lemma {:induction false} WrongWalk(fs: FileSystem, opt: Options, st: State, room: nat, n: nat)
    returns (elsewhere: nat -> nat -> StatResult)
    requires Closed(fs) && Valid(fs, st.stack) && StraysFrom(fs, opt, st, room)
    ensures AllStatsOk(fs, elsewhere) && SeenRun(fs, opt, st, room, elsewhere, n) != Rest(fs, opt, st)
    decreases Reads(fs, st)
  {
    hide Reads, StraysAt, SeenAt, RoomAt, Step, WrongAt;
    TrueStep(fs, opt, st);
    if StraysAt(fs, opt, st, room) {
      elsewhere := WrongHere(fs, opt, st, room, n);
    } else {
      var (st', r) := Step(fs, opt, st, false);
      elsewhere := WrongWalk(fs, opt, st', RoomAt(fs, opt, st, room), n + 1);
      NotAstray(fs, opt, st, elsewhere(n), room);
      var rest, seen := Rest(fs, opt, st'), SeenRun(fs, opt, st', RoomAt(fs, opt, st, room), elsewhere, n + 1);
      assert ([r.value] + rest)[1..] == rest && ([r.value] + seen)[1..] == seen;
    }
  }

  lemma WrongHere(fs: FileSystem, opt: Options, st: State, room: nat, n: nat)
    returns (elsewhere: nat -> nat -> StatResult)
    requires Closed(fs) && Valid(fs, st.stack) && StraysAt(fs, opt, st, room)
    ensures AllStatsOk(fs, elsewhere) && SeenRun(fs, opt, st, room, elsewhere, n) != Rest(fs, opt, st)
  {
    hide SeenAt, RoomAt, Step, WrongAt, Reads, Truth, Rest;
    var p := st.stack.head;
    var w := WrongAt(opt, p, fs[p.id].entries, Chain(st.stack), LinkBudget(opt, p), room);
    var wrong: nat -> StatResult := _ => w;
    Misstep(fs, opt, st, wrong, room);
    var st' := Step(SeenAt(fs, opt, st, wrong, room), opt, st, false).0;
    var truth: nat -> nat -> StatResult := (k: nat) => Truth(fs, opt, st', k);
    elsewhere := (m: nat) => if m <= n then wrong else truth(m - n - 1);
    forall m: nat, i: nat ensures StatOk(fs, elsewhere(m)(i)) {
      if m > n {
        TruthOk(fs, opt, st', m - n - 1, i);
      }
    }
    assert elsewhere(n) == wrong;
    forall k: nat ensures elsewhere(n + 1 + k) == Truth(fs, opt, st', k) {
    }
    TrueWalk(fs, opt, st', RoomAt(fs, opt, st, room), elsewhere, n + 1);
  }

  /** A walk returns the tours of its roots, whatever is elsewhere, exactly if no read goes astray. */
  lemma WalkRight(fs: FileSystem, opt: Options, roots: seq<Node>, room: nat)
    requires Closed(fs) && AllOk(fs, {}, roots)
    ensures Valid(fs, Opened(roots).stack)
    ensures !StraysFrom(fs, opt, Opened(roots), room) <==>
      forall elsewhere: nat -> nat -> StatResult :: AllStatsOk(fs, elsewhere) ==>
        SeenRun(fs, opt, Opened(roots), room, elsewhere, 0) == RootTours(fs, opt, roots)
  {
    hide SeenRun, StraysFrom;
    var st := Opened(roots);
    assert Rest(fs, opt, st) == RootTours(fs, opt, roots);
    if StraysFrom(fs, opt, st, room) {
      var elsewhere := WrongWalk(fs, opt, st, room, 0);
    } else {
      forall elsewhere: nat -> nat -> StatResult | AllStatsOk(fs, elsewhere)
        ensures SeenRun(fs, opt, st, room, elsewhere, 0) == RootTours(fs, opt, roots)
      {
        RightWalk(fs, opt, st, room, elsewhere, 0);
      }
    }
  }

  // ----- when every entry is looked at

  lemma {:induction false} KidListed(opt: Options, p: Node, es: seq<Entry>, anc: set<Id>, budget: int, i: nat)
    requires i < |es| && Listed(opt, es[i])
    ensures exists k: nat :: (k < |Kids(opt, p, es, anc, budget)| &&
                              Kids(opt, p, es, anc, budget)[k].path == ChildPath(p.path, es[i].name))
    decreases |es|
  {
    var n := Kid(opt, p, es[0], anc, budget);
    var all := Kids(opt, p, es, anc, budget);
    if i == 0 {
      assert all[0].path == ChildPath(p.path, es[i].name);
    } else {
      var first, next := Listed(opt, es[0]), NextBudget(budget, n.info);
      KidListed(opt, p, es[1..], anc, if first then next else budget, i - 1);
      var rest := Kids(opt, p, es[1..], anc, if first then next else budget);
      var k: nat :| k < |rest| && rest[k].path == ChildPath(p.path, es[1..][i - 1].name);
      assert all[if first then k + 1 else k] == rest[k];
    }
  }

  lemma {:induction false} KidToured(fs: FileSystem, opt: Options, dev: nat, anc: set<Id>, ns: seq<Node>, k: nat)
    requires Closed(fs) && AllOk(fs, anc, ns) && k < |ns|
    ensures ns[k] in Tours(fs, opt, dev, anc, ns)
    decreases |ns|
  {
    if k > 0 {
      KidToured(fs, opt, dev, anc, ns[1..], k - 1);
    }
  }

  ghost predicate Short(ns: seq<Node>, room: int) { forall i :: 0 <= i < |ns| ==> |ns[i].path| < room }

  /** While every path still to be returned fits, the files of a directory do. */
  lemma KidsFit(fs: FileSystem, opt: Options, st: State, es: seq<Entry>, room: int, i: nat)
    requires Closed(fs) && Valid(fs, st.stack) && Short(Rest(fs, opt, st), room)
    requires st.stack.Frame? && st.stack.head.info == D && !Crossed(opt, st.dev, st.stack.head)
    requires fs[st.stack.head.id] == Listing(es) && i < |es| && Listed(opt, es[i])
    ensures |ChildPath(st.stack.head.path, es[i].name)| < room
  {
    var s, p := st.stack, st.stack.head;
    var kids := Kids(opt, p, es, Chain(s), LinkBudget(opt, p));
    KidListed(opt, p, es, Chain(s), LinkBudget(opt, p), i);
    var k: nat :| k < |kids| && kids[k].path == ChildPath(p.path, es[i].name);
    KidsOk(fs, opt, p, es, Chain(s), LinkBudget(opt, p));
    KidToured(fs, opt, st.dev, Chain(s), kids, k);
    var inside := Finish(fs, opt, st.dev, Chain(s.below), p);
    assert inside == Tours(fs, opt, st.dev, Chain(s), kids) + [p.(info := DP)];
    assert kids[k] in inside;
    var m :| 0 <= m < |inside| && inside[m] == kids[k];
    assert Rest(fs, opt, st)[m] == kids[k];
  }

  /** The paths of all files on the stack fit. */
  ghost predicate Fits(s: Stack, room: int) {
    s.Frame? ==> |s.head.path| < room && Short(s.rest, room) && Fits(s.below, room)
  }

  lemma {:induction false} KidsShort(opt: Options, p: Node, es: seq<Entry>, anc: set<Id>, budget: int, room: nat)
    requires !TooLong(opt, p.path, es, room)
    ensures Short(Kids(opt, p, es, anc, budget), room) && RoomAfter(opt, p.path, es, room) == room
    decreases |es|
  {
    if es != [] {
      var n := Kid(opt, p, es[0], anc, budget);
      assert forall i :: 0 <= i < |es[1..]| ==> es[1..][i] == es[i + 1];
      KidsShort(opt, p, es[1..], anc, if Listed(opt, es[0]) then NextBudget(budget, n.info) else budget, room);
    }
  }

  /** A read whose entries fit leaves a buffer of that length, in which all files fit. */
  lemma StepFits(fs: FileSystem, opt: Options, st: State, room: nat)
    requires CanStep(fs, st) && Fits(st.stack, room) && !OutgrownAt(fs, opt, st, room)
    ensures RoomAt(fs, opt, st, room) == room
    ensures var (st', r) := Step(fs, opt, st, false);
      Fits(st'.stack, room) && (r.Some? ==> |r.value.path| < room)
  {
    if Opens(fs, opt, st) {
      var p := st.stack.head;
      KidsShort(opt, p, fs[p.id].entries, Chain(st.stack), LinkBudget(opt, p), room);
    }
  }

  /** Then no read goes astray exactly if all paths still to be returned fit. */
  lemma {:induction false} StraysIs(fs: FileSystem, opt: Options, st: State, room: nat)
    requires Closed(fs) && Valid(fs, st.stack) && Fits(st.stack, room) && !(opt.nostat && opt.physical)
    ensures StraysFrom(fs, opt, st, room) <==> !Short(Rest(fs, opt, st), room)
    decreases Reads(fs, st)
  {
    hide Reads, StraysAt, RoomAt, Step, OutgrownAt, Fits, Rest;
    if st.stack.Frame? {
      NotAstray(fs, opt, st, (i: nat) => Failed, room);
      TrueStep(fs, opt, st);
      var (st', r) := Step(fs, opt, st, false);
      if OutgrownAt(fs, opt, st, room) {
        NotShort(fs, opt, st, room);
      } else {
        StepFits(fs, opt, st, room);
        StraysIs(fs, opt, st', room);
        if r.Some? {
          ShortMore(r.value, Rest(fs, opt, st'), room);
        } else {
          NoneLeft(fs, opt, st');
        }
      }
    } else {
      NoneLeft(fs, opt, st);
    }
  }

  lemma ShortMore(n: Node, rest: seq<Node>, room: int)
    ensures Short([n] + rest, room) <==> |n.path| < room && Short(rest, room)
  {
    var all := [n] + rest;
    assert all[0] == n && forall i :: 0 <= i < |rest| ==> all[i + 1] == rest[i];
  }

  lemma NotShort(fs: FileSystem, opt: Options, st: State, room: nat)
    requires Closed(fs) && Valid(fs, st.stack) && OutgrownAt(fs, opt, st, room)
    ensures !Short(Rest(fs, opt, st), room)
  {
    hide Rest, Short;
    var p, es := st.stack.head, fs[st.stack.head.id].entries;
    var i :| 0 <= i < |es| && Listed(opt, es[i]) && Outgrows(p.path, es[i].name, room);
    if Short(Rest(fs, opt, st), room) {
      KidsFit(fs, opt, st, es, room, i);
    }
  }

  lemma NoneLeft(fs: FileSystem, opt: Options, st: State)
    requires Closed(fs) && Valid(fs, st.stack) && st.stack.Nil?
    ensures Rest(fs, opt, st) == []
  {
  }

  /** So a walk none of whose entries may be passed over is right exactly if the path of every
      file fits in the buffer it starts with. */
  lemma WalkShort(fs: FileSystem, opt: Options, roots: seq<Node>, room: nat)
    requires Closed(fs) && AllOk(fs, {}, roots) && !(opt.nostat && opt.physical) && room > 0 && Short(roots, room)
    ensures Valid(fs, Opened(roots).stack)
    ensures StraysFrom(fs, opt, Opened(roots), room) <==> !Short(RootTours(fs, opt, roots), room)
  {
    hide StraysFrom;
    StraysIs(fs, opt, Opened(roots), room);
    assert Rest(fs, opt, Opened(roots)) == RootTours(fs, opt, roots);
  }
}
