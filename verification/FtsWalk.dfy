/** A whole walk: `while (fts_read())` from `fts_open` on. */
module FtsWalk {
  import opened FtsMachine
  import opened Fts
  import opened FtsSeen
  import opened FtsStray
  import opened Wrappers

  lemma Due(sp: Stream)
    requires sp.Valid()
    ensures Closed(sp.fs) && FtsMachine.Valid(sp.fs, sp.State().stack)
    ensures sp.State().stack.Frame? <==> sp.cur != null
  {
    if sp.cur != null {
      sp.CurFacts();
    }
  }

  /** What a read is, on values. */
  lemma ReadIs(sp: Stream, elsewhere: nat -> StatResult)
    ensures sp.SeenBy(false, elsewhere) == SeenAt(sp.fs, sp.opt, sp.State(), elsewhere, sp.path.Length)
    ensures sp.Misled(false) <==> StraysAt(sp.fs, sp.opt, sp.State(), sp.path.Length)
    ensures sp.RoomNext(false) == RoomAt(sp.fs, sp.opt, sp.State(), sp.path.Length)
  {
  }

  /** A walk and what is left of it after the next read. */
  lemma RunOn(fs: FileSystem, opt: Options, st: FtsMachine.State, room: nat, elsewhere: nat -> nat -> StatResult,
              n: nat)
    requires Closed(fs) && FtsMachine.Valid(fs, st.stack) && AllStatsOk(fs, elsewhere) && st.stack.Frame?
    ensures CanStep(SeenAt(fs, opt, st, elsewhere(n), room), st)
    ensures var (st', r) := Step(SeenAt(fs, opt, st, elsewhere(n), room), opt, st, false);
      var more := RoomAt(fs, opt, st, room);
      && FtsMachine.Valid(fs, st'.stack) && Reads(fs, st') < Reads(fs, st)
      && SeenRun(fs, opt, st, room, elsewhere, n) ==
         (if r == None then [] else [r.value] + SeenRun(fs, opt, st', more, elsewhere, n + 1))
      && (r == None ==> SeenRun(fs, opt, st', more, elsewhere, n + 1) == [])
      && (!StraysAt(fs, opt, st, room) ==>
            (StraysFrom(fs, opt, st, room) <==> StraysFrom(fs, opt, st', more)))
      && (StraysAt(fs, opt, st, room) ==> StraysFrom(fs, opt, st, room))
  {
    hide Step, SeenAt, StraysAt, RoomAt, Reads, FtsMachine.Valid, Closed, AllStatsOk;
    IsStats(fs, elsewhere, n);
    SeenStep(fs, opt, st, elsewhere(n), room);
    NotAstray(fs, opt, st, elsewhere(n), room);
  }

  lemma IsStats(fs: FileSystem, elsewhere: nat -> nat -> StatResult, n: nat)
    requires AllStatsOk(fs, elsewhere)
    ensures forall i :: StatOk(fs, elsewhere(n)(i))
  {
  }

  lemma RunOver(fs: FileSystem, opt: Options, st: FtsMachine.State, room: nat, elsewhere: nat -> nat -> StatResult,
                n: nat)
    requires Closed(fs) && FtsMachine.Valid(fs, st.stack) && AllStatsOk(fs, elsewhere) && st.stack.Nil?
    ensures SeenRun(fs, opt, st, room, elsewhere, n) == [] && !StraysFrom(fs, opt, st, room)
  {
  }

  lemma RootsFit(args: seq<string>, stats: seq<StatResult>, maxPathLen: nat)
    requires |args| == |stats|
    ensures Short(Roots(args, stats), FirstRoom(args, maxPathLen)) && FirstRoom(args, maxPathLen) > 0
  {
    FirstRoomIs(args, maxPathLen);
  }

  /** All the reads there are, whatever a look through a moved buffer reports, and whether there
      are cycles among the directories or not: they come to an end, and return what the machine
      does in the file system as each read sees it. That is the tour of each root in turn if no
      read was misled. Some read is exactly if one goes astray in the file system as it is; and
      where every entry is looked at, exactly if the path of some file does not fit in the
      buffer the walk starts with. */
  method Walk(args: seq<string>, stats: seq<StatResult>, opt: Options, fs: FileSystem, maxPathLen: nat,
              elsewhere: nat -> nat -> StatResult)
    returns (ok: bool, ghost tour: seq<Node>, ghost misled: bool)
    requires args != [] && |args| == |stats| && Closed(fs) && NamesOk(fs)
    requires forall i :: 0 <= i < |stats| ==> StatOk(fs, stats[i])
    requires AllStatsOk(fs, elsewhere)
    ensures AllOk(fs, {}, Roots(args, stats)) && FtsMachine.Valid(fs, Opened(Roots(args, stats)).stack)
    ensures ok <==> forall i :: 0 <= i < |args| ==> args[i] != ""
    ensures ok ==> tour == SeenRun(fs, opt, Opened(Roots(args, stats)), FirstRoom(args, maxPathLen), elsewhere, 0)
    ensures ok && !misled ==> tour == RootTours(fs, opt, Roots(args, stats))
    ensures ok ==> (misled <==> StraysFrom(fs, opt, Opened(Roots(args, stats)), FirstRoom(args, maxPathLen)))
    ensures ok && !(opt.nostat && opt.physical) ==>
      (misled <==> !Short(RootTours(fs, opt, Roots(args, stats)), FirstRoom(args, maxPathLen)))
  {
    hide *;
    tour, misled := [], false;
    ghost var roots, room := Roots(args, stats), FirstRoom(args, maxPathLen);
    ghost var start := Opened(roots);
    RootsOk(fs, args, stats);
    WalkRight(fs, opt, roots, room);
    RootsFit(args, stats, maxPathLen);
    var sp := Open(args, stats, opt, fs, maxPathLen);
    ok := sp != null;
    if sp == null {
      return;
    }
    Due(sp);
    ghost var all, strays := SeenRun(fs, opt, start, room, elsewhere, 0), StraysFrom(fs, opt, start, room);
    assert [] + all == all;
    var i := 0;
    while sp.cur != null
      invariant sp.Valid() && sp.opt == opt && sp.fs == fs && fresh(sp.ents) && fresh(sp.path)
      invariant FtsMachine.Valid(fs, sp.State().stack) && (sp.State().stack.Frame? <==> sp.cur != null)
      invariant tour + SeenRun(fs, opt, sp.State(), sp.path.Length, elsewhere, i) == all
      invariant if misled then strays else strays <==> StraysFrom(fs, opt, sp.State(), sp.path.Length)
      decreases Reads(fs, sp.State())
    {
      IsStats(fs, elsewhere, i);
      ReadIs(sp, elsewhere(i));
      RunOn(fs, opt, sp.State(), sp.path.Length, elsewhere, i);
      misled := misled || sp.Misled(false);
      var r := sp.Read(false, elsewhere(i));
      i := i + 1;
      Due(sp);
      if r != null {
        tour := tour + [r.Val()];
      }
    }
    RunOver(fs, opt, sp.State(), sp.path.Length, elsewhere, i);
    if !(opt.nostat && opt.physical) {
      WalkShort(fs, opt, roots, room);
    }
  }

  // ----- a walk that is misled

  const HOME := Id(1, 2)

  const EVERYTHING := Options(false, false, false, false)

  function Root(arg: string): Node { Node(arg, D, HOME, 2) }

  /** A directory with one entry, which a look at its path does not find. */
  function OneFile(name: string): FileSystem {
    map[HOME := Listing([Entry(name, Failed, DtUnknown)])]
  }

  lemma OneFileIs(arg: string, name: string)
    requires NameOk(name) && !IsDot(name)
    ensures Closed(OneFile(name)) && NamesOk(OneFile(name)) && StatOk(OneFile(name), IsDir(HOME, 2))
    ensures StatOk(OneFile(name), IsRegular)
    ensures Roots([arg], [IsDir(HOME, 2)]) == [Root(arg)] && AllOk(OneFile(name), {}, [Root(arg)])
    ensures RootTours(OneFile(name), EVERYTHING, [Root(arg)]) ==
            [Root(arg), Node(ChildPath(arg, name), NS, NO_ID, 0), Root(arg).(info := DP)]
  {
    var fs, opt, p := OneFile(name), EVERYTHING, Root(arg);
    var kid := Node(ChildPath(arg, name), NS, NO_ID, 0);
    OneKid(arg, name, Failed, {} + {HOME});
    assert Kids(opt, p, fs[HOME].entries, {} + {HOME}, LinkBudget(opt, p)) == [kid];
    assert Tours(fs, opt, 1, {} + {HOME}, [kid]) == [kid] + [] by {
      assert [kid][1..] == [];
    }
    assert Finish(fs, opt, 1, {}, p) == [kid] + [p.(info := DP)];
    assert [p][1..] == [];
  }

  /** The only entry, with what a stat call reports. */
  lemma OneKid(arg: string, name: string, s: StatResult, anc: set<Id>)
    requires NameOk(name) && !IsDot(name) && !s.IsDir?
    ensures Kids(EVERYTHING, Root(arg), [Entry(name, s, DtUnknown)], anc, LinkBudget(EVERYTHING, Root(arg))) ==
            [Node(ChildPath(arg, name), StatInfo(s, false, anc), NO_ID, 0)]
  {
    assert [Entry(name, s, DtUnknown)][1..] == [];
  }

  /** The first read leads to the root. */
  lemma FirstStep(sp: Stream, arg: string, elsewhere: nat -> StatResult)
    requires sp.Valid() && sp.State() == Opened([Root(arg)])
    ensures sp.cur != null && sp.SeenBy(false, elsewhere) == sp.fs && sp.RoomNext(false) == sp.path.Length
    ensures Step(sp.fs, sp.opt, sp.State(), false) ==
            (FtsMachine.State.State(1, Frame(Root(arg), [], Nil)), Some(Root(arg)))
  {
    Due(sp);
    assert [Root(arg)][1..] == [];
  }

  /** The second is misled. */
  lemma SecondStep(sp: Stream, arg: string, name: string, elsewhere: nat -> StatResult)
    requires NameOk(name) && !IsDot(name) && sp.Valid() && sp.fs == OneFile(name) && sp.opt == EVERYTHING
    requires sp.State() == FtsMachine.State.State(1, Frame(Root(arg), [], Nil))
    requires |ChildPath(arg, name)| >= sp.path.Length && elsewhere(0) == IsRegular
    ensures sp.cur != null && CanStep(sp.SeenBy(false, elsewhere), sp.State())
    ensures Step(sp.SeenBy(false, elsewhere), sp.opt, sp.State(), false).1 ==
            Some(Node(ChildPath(arg, name), F, NO_ID, 0))
  {
    Due(sp);
    var chain, room := Chain(sp.State().stack), sp.path.Length;
    Strayed(arg, name, elsewhere, chain, room);
    var seen := Seen(EVERYTHING, Root(arg), [Entry(name, Failed, DtUnknown)], elsewhere, chain,
                     LinkBudget(EVERYTHING, Root(arg)), room, 0);
    assert sp.SeenBy(false, elsewhere) == sp.fs[HOME := Listing(seen)];
    OneKid(arg, name, IsRegular, chain);
  }

  lemma Strayed(arg: string, name: string, elsewhere: nat -> StatResult, anc: set<Id>, room: nat)
    requires NameOk(name) && !IsDot(name) && |ChildPath(arg, name)| >= room && elsewhere(0) == IsRegular
    ensures Seen(EVERYTHING, Root(arg), [Entry(name, Failed, DtUnknown)], elsewhere, anc,
                 LinkBudget(EVERYTHING, Root(arg)), room, 0) == [Entry(name, IsRegular, DtUnknown)]
  {
    var e := Entry(name, Failed, DtUnknown);
    assert [e][1..] == [];
    assert Strays(EVERYTHING, arg, e, LinkBudget(EVERYTHING, Root(arg)), room);
  }

  /** A root holds an entry whose path is too long for the buffer, as when the root's own path
      nearly fills it. No file is found at that path, but if there is one where the look through
      the moved buffer leads, the entry is returned as a file; the tour says otherwise. */
  method Misreads(arg: string, name: string, maxPathLen: nat) returns (r: Ent?)
    requires arg != "" && NameOk(name) && !IsDot(name)
    requires |ChildPath(arg, name)| >= FirstRoom([arg], maxPathLen)
    ensures r != null && r.Val() == Node(ChildPath(arg, name), F, NO_ID, 0)
    ensures Closed(OneFile(name)) && AllOk(OneFile(name), {}, Roots([arg], [IsDir(HOME, 2)]))
    ensures RootTours(OneFile(name), EVERYTHING, Roots([arg], [IsDir(HOME, 2)])) ==
            [Root(arg), Node(ChildPath(arg, name), NS, NO_ID, 0), Root(arg).(info := DP)]
  {
    hide *;
    var other: nat -> StatResult := _ => IsRegular;
    OneFileIs(arg, name);
    var sp := Open([arg], [IsDir(HOME, 2)], EVERYTHING, OneFile(name), maxPathLen);
    FirstStep(sp, arg, other);
    r := sp.Read(false, other);
    SecondStep(sp, arg, name, other);
    r := sp.Read(false, other);
  }
}
