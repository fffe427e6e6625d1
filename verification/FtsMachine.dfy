/** The traversal of `fts_read`, on values: a stack of sibling lists, what one read does to
    it, and the tour of the tree that all the reads together make. */
module FtsMachine {
  import opened Sequences
  import opened Wrappers

  // ----- the file system, as the walk's stat calls and directory reads report it

  datatype Id = Id(dev: nat, ino: nat)

  datatype StatResult = Failed | NoTarget | IsDir(id: Id, nlink: nat) | IsLink | IsRegular | IsOther

  /** The type a directory entry carries: directory, unknown, anything else. */
  datatype DirentType = DtDir | DtUnknown | DtOther

  datatype Entry = Entry(name: string, stat: StatResult, dtype: DirentType)

  datatype Directory = Unreadable | Listing(entries: seq<Entry>)

  type FileSystem = map<Id, Directory>

  /** Every directory that can be found can be looked into. Nothing is said about cycles. */
  ghost predicate Closed(fs: FileSystem) {
    forall d :: d in fs && fs[d].Listing? ==>
      forall i :: 0 <= i < |fs[d].entries| ==> StatOk(fs, fs[d].entries[i].stat)
  }

  predicate StatOk(fs: FileSystem, s: StatResult) {
    s.IsDir? ==> s.id in fs
  }

  // ----- nodes

  datatype Info = D | DC | DEFAULT | DNR | DOT | DP | F | INIT | NS | NSOK | SL | SLNONE

  datatype Options = Options(physical: bool, nostat: bool, seedot: bool, xdev: bool)

  datatype Node = Node(path: string, info: Info, id: Id, nlink: nat)

  predicate IsDot(name: string) { name == "." || name == ".." }

  const NO_ID := Id(0, 0)

  function IdOf(s: StatResult): Id { if s.IsDir? then s.id else NO_ID }

  function LinksOf(s: StatResult): nat { if s.IsDir? then s.nlink else 0 }

  /** `fts_stat`: a directory whose identity an ancestor has is a cycle, not a directory. */
  function StatInfo(s: StatResult, dot: bool, anc: set<Id>): Info {
    match s
    case Failed => NS
    case NoTarget => SLNONE
    case IsDir(id, _) => if dot then DOT else if id in anc then DC else D
    case IsLink => SL
    case IsRegular => F
    case IsOther => DEFAULT
  }

  /** Length of the part of a directory's path that its children's paths start with. */
  function NAppend(path: string): (n: nat)
    ensures n <= |path| && path[..n] <= path
  {
    if path != "" && path[|path| - 1] == '/' then |path| - 1 else |path|
  }

  function ChildPath(path: string, name: string): string { path[..NAppend(path)] + "/" + name }

  /** The count of directories still to be found: -1 when every entry is looked at. */
  function LinkBudget(opt: Options, p: Node): int {
    if opt.nostat && opt.physical then p.nlink - (if opt.seedot then 0 else 2) else -1
  }

  predicate Unlooked(opt: Options, e: Entry, budget: int) {
    budget == 0 || (opt.nostat && opt.physical && e.dtype == DtOther)
  }

  function NextBudget(budget: int, info: Info): int {
    if budget > 0 && (info == D || info == DC || info == DOT) then budget - 1 else budget
  }

  predicate Listed(opt: Options, e: Entry) { opt.seedot || !IsDot(e.name) }

  /** The node for one entry. */
  function Kid(opt: Options, p: Node, e: Entry, anc: set<Id>, budget: int): Node {
    var path := ChildPath(p.path, e.name);
    if Unlooked(opt, e, budget) then Node(path, NSOK, NO_ID, 0)
    else Node(path, StatInfo(e.stat, IsDot(e.name), anc), IdOf(e.stat), LinksOf(e.stat))
  }

  /** `fts_build`: one node for each listed entry, in directory order. */
  function Kids(opt: Options, p: Node, es: seq<Entry>, anc: set<Id>, budget: int): seq<Node> {
    if es == [] then []
    else if !Listed(opt, es[0]) then Kids(opt, p, es[1..], anc, budget)
    else
      var n := Kid(opt, p, es[0], anc, budget);
      [n] + Kids(opt, p, es[1..], anc, NextBudget(budget, n.info))
  }

  // ----- one read

  /** The current node with the siblings still to come, then the same for each directory
      above it; nothing when the walk is over. */
  datatype Stack = Nil | Frame(head: Node, rest: seq<Node>, below: Stack)

  /** The device of the root being walked goes with the stack. */
  datatype State = State(dev: nat, stack: Stack)

  /** Identities of the current node and the directories above it. */
  function Chain(s: Stack): set<Id> {
    if s.Nil? then {} else Chain(s.below) + {s.head.id}
  }

  predicate Crossed(opt: Options, dev: nat, p: Node) { opt.xdev && p.id.dev != dev }

  ghost predicate DirOk(fs: FileSystem, anc: set<Id>, n: Node) {
    n.info == D ==> n.id in fs && n.id !in anc
  }

  ghost predicate AllOk(fs: FileSystem, anc: set<Id>, ns: seq<Node>) {
    forall i :: 0 <= i < |ns| ==> DirOk(fs, anc, ns[i])
  }

  /** What holds between reads: directories are open all the way down, and none that is
      open or waiting to be opened has the identity of one above it. */
  ghost predicate Valid(fs: FileSystem, s: Stack) {
    s.Frame? ==>
      && DirOk(fs, Chain(s.below), s.head) && AllOk(fs, Chain(s.below), s.rest)
      && (s.below.Frame? ==> s.below.head.info == D) && Valid(fs, s.below)
  }

  /** The current node is returned again, as done with. */
  function Mark(dev: nat, s: Stack, info: Info): (State, Option<Node>)
    requires s.Frame?
  {
    var p := s.head.(info := info);
    (State(dev, s.(head := p)), Some(p))
  }

  /** The machine can take a step from there. */
  predicate CanStep(fs: FileSystem, st: State) {
    st.stack.Frame? && (st.stack.head.info == D ==> st.stack.head.id in fs)
  }

  function Step(fs: FileSystem, opt: Options, st: State, skip: bool): (r: (State, Option<Node>))
    requires st.stack.Frame? && (st.stack.head.info == D ==> st.stack.head.id in fs)
  {
    var s, p := st.stack, st.stack.head;
    if p.info == D then
      if skip || Crossed(opt, st.dev, p) then Mark(st.dev, s, DP)
      else match fs[p.id]
        case Unreadable => Mark(st.dev, s, DNR)
        case Listing(es) =>
          var kids := Kids(opt, p, es, Chain(s), LinkBudget(opt, p));
          if kids == [] then Mark(st.dev, s, DP)
          else (State(st.dev, Frame(kids[0], kids[1..], s)), Some(kids[0]))
    else if s.rest != [] then
      var next := s.rest[0];
      (State(if s.below.Nil? then next.id.dev else st.dev, Frame(next, s.rest[1..], s.below)), Some(next))
    else if s.below.Nil? then (st.(stack := Nil), None)
    else Mark(st.dev, s.below, DP)
  }

  // ----- the tour

  /** What is left to emit for a directory that has been announced. */
  function Finish(fs: FileSystem, opt: Options, dev: nat, anc: set<Id>, p: Node): seq<Node>
    requires Closed(fs) && p.id in fs && p.id !in anc
    decreases |fs.Keys - anc|, 0
  {
    if Crossed(opt, dev, p) then [p.(info := DP)]
    else match fs[p.id]
      case Unreadable => [p.(info := DNR)]
      case Listing(es) =>
        var kids := Kids(opt, p, es, anc + {p.id}, LinkBudget(opt, p));
        KidsOk(fs, opt, p, es, anc + {p.id}, LinkBudget(opt, p));
        FewerFree(fs, anc, p.id);
        Tours(fs, opt, dev, anc + {p.id}, kids) + [p.(info := DP)]
  }

  function Tour(fs: FileSystem, opt: Options, dev: nat, anc: set<Id>, n: Node): seq<Node>
    requires Closed(fs) && DirOk(fs, anc, n)
    decreases |fs.Keys - anc|, 1
  {
    [n] + if n.info == D then Finish(fs, opt, dev, anc, n) else []
  }

  function Tours(fs: FileSystem, opt: Options, dev: nat, anc: set<Id>, ns: seq<Node>): seq<Node>
    requires Closed(fs) && AllOk(fs, anc, ns)
    decreases |fs.Keys - anc|, 2, |ns|
  {
    if ns == [] then [] else Tour(fs, opt, dev, anc, ns[0]) + Tours(fs, opt, dev, anc, ns[1..])
  }

  /** Each root is walked on its own device. */
  function RootTours(fs: FileSystem, opt: Options, ns: seq<Node>): seq<Node>
    requires Closed(fs) && AllOk(fs, {}, ns)
  {
    if ns == [] then [] else Tour(fs, opt, ns[0].id.dev, {}, ns[0]) + RootTours(fs, opt, ns[1..])
  }

  lemma FewerFree(fs: FileSystem, anc: set<Id>, id: Id)
    requires id in fs && id !in anc
    ensures |fs.Keys - (anc + {id})| < |fs.Keys - anc|
  {
    var a, b := fs.Keys - anc, fs.Keys - (anc + {id});
    assert a == b + {id};
  }

  lemma {:induction false} KidsOk(fs: FileSystem, opt: Options, p: Node, es: seq<Entry>, anc: set<Id>, budget: int)
    requires forall i :: 0 <= i < |es| ==> StatOk(fs, es[i].stat)
    ensures AllOk(fs, anc, Kids(opt, p, es, anc, budget))
    decreases |es|
  {
    if es != [] {
      var n := Kid(opt, p, es[0], anc, budget);
      KidsOk(fs, opt, p, es[1..], anc, if Listed(opt, es[0]) then NextBudget(budget, n.info) else budget);
    }
  }

  // ----- what the reads still to come will return

  function After(fs: FileSystem, opt: Options, dev: nat, s: Stack): seq<Node>
    requires Closed(fs) && Valid(fs, s)
  {
    if s.Nil? then []
    else if s.below.Nil? then RootTours(fs, opt, s.rest)
    else Tours(fs, opt, dev, Chain(s.below), s.rest) + [s.below.head.(info := DP)] + After(fs, opt, dev, s.below)
  }

  function Rest(fs: FileSystem, opt: Options, st: State): seq<Node>
    requires Closed(fs) && Valid(fs, st.stack)
  {
    var s := st.stack;
    if s.Frame? && s.head.info == D then
      Finish(fs, opt, st.dev, Chain(s.below), s.head) + After(fs, opt, st.dev, s)
    else After(fs, opt, st.dev, s)
  }

  /** Inside a directory whatever files are found in it: their tours, and then its end. */
  lemma Inside(fs: FileSystem, opt: Options, st: State, kids: seq<Node>)
    requires Closed(fs) && Valid(fs, st.stack) && st.stack.Frame? && st.stack.head.info == D
    requires kids != [] && AllOk(fs, Chain(st.stack), kids)
    ensures Valid(fs, Frame(kids[0], kids[1..], st.stack))
    ensures [kids[0]] + Rest(fs, opt, State(st.dev, Frame(kids[0], kids[1..], st.stack))) ==
            Tours(fs, opt, st.dev, Chain(st.stack), kids) +
            ([st.stack.head.(info := DP)] + After(fs, opt, st.dev, st.stack))
  {
    var s, k, down := st.stack, kids[0], Frame(kids[0], kids[1..], st.stack);
    var inside := if k.info == D then Finish(fs, opt, st.dev, Chain(s), k) else [];
    var others, end, after := Tours(fs, opt, st.dev, Chain(s), kids[1..]), [s.head.(info := DP)],
                              After(fs, opt, st.dev, s);
    assert Tour(fs, opt, st.dev, Chain(s), k) == [k] + inside;
    assert After(fs, opt, st.dev, down) == others + (end + after) by {
      Regroup(others, end, after, []);
    }
    assert Rest(fs, opt, State(st.dev, down)) == inside + (others + (end + after));
    Regroup([k], inside, others, end + after);
  }

  /** Going down into a directory, or finding nothing in it. */
  lemma EnterFollowsTour(fs: FileSystem, opt: Options, st: State, es: seq<Entry>, kids: seq<Node>)
    requires Closed(fs) && Valid(fs, st.stack) && st.stack.Frame? && st.stack.head.info == D
    requires !Crossed(opt, st.dev, st.stack.head) && fs[st.stack.head.id] == Listing(es)
    requires kids == Kids(opt, st.stack.head, es, Chain(st.stack), LinkBudget(opt, st.stack.head))
    ensures AllOk(fs, Chain(st.stack), kids)
    ensures kids == [] ==>
      Finish(fs, opt, st.dev, Chain(st.stack.below), st.stack.head) == [st.stack.head.(info := DP)]
    ensures kids != [] ==>
      Rest(fs, opt, st) == [kids[0]] + Rest(fs, opt, State(st.dev, Frame(kids[0], kids[1..], st.stack)))
  {
    var s, p := st.stack, st.stack.head;
    KidsOk(fs, opt, p, es, Chain(s), LinkBudget(opt, p));
    if kids != [] {
      Inside(fs, opt, st, kids);
      var all := Tours(fs, opt, st.dev, Chain(s), kids);
      assert Finish(fs, opt, st.dev, Chain(s.below), p) == all + [p.(info := DP)];
    }
  }

  /** One read returns the next node of the tour, or the end exactly at its end. */
  lemma StepFollowsTour(fs: FileSystem, opt: Options, st: State)
    requires Closed(fs) && Valid(fs, st.stack) && st.stack.Frame?
    ensures var (st', r) := Step(fs, opt, st, false);
      && Valid(fs, st'.stack)
      && (r == None <==> st'.stack.Nil?)
      && (r == None ==> Rest(fs, opt, st) == [])
      && (r.Some? ==> Rest(fs, opt, st) == [r.value] + Rest(fs, opt, st'))
  {
    var s, p := st.stack, st.stack.head;
    if p.info == D {
      if !Crossed(opt, st.dev, p) && fs[p.id].Listing? {
        var es := fs[p.id].entries;
        EnterFollowsTour(fs, opt, st, es, Kids(opt, p, es, Chain(s), LinkBudget(opt, p)));
      }
    } else if s.rest != [] {
      NextFollowsTour(fs, opt, st);
    } else if s.below.Frame? {
      var up := s.below.(head := s.below.head.(info := DP));
      assert Tours(fs, opt, st.dev, Chain(s.below), s.rest) == [];
      assert After(fs, opt, st.dev, up) == After(fs, opt, st.dev, s.below);
    }
  }

  lemma NextFollowsTour(fs: FileSystem, opt: Options, st: State)
    requires Closed(fs) && Valid(fs, st.stack) && st.stack.Frame? && st.stack.head.info != D && st.stack.rest != []
    ensures var (st', r) := Step(fs, opt, st, false);
      Valid(fs, st'.stack) && r.Some? && Rest(fs, opt, st) == [r.value] + Rest(fs, opt, st')
  {
    var s := st.stack;
    var (st', r) := Step(fs, opt, st, false);
    var n, dev := s.rest[0], st'.dev;
    var inside := if n.info == D then Finish(fs, opt, dev, Chain(s.below), n) else [];
    assert Tour(fs, opt, dev, Chain(s.below), n) == [n] + inside;
    if s.below.Nil? {
      assert RootTours(fs, opt, s.rest) == [n] + inside + RootTours(fs, opt, s.rest[1..]);
    } else {
      var others := Tours(fs, opt, dev, Chain(s.below), s.rest[1..]);
      assert Tours(fs, opt, dev, Chain(s.below), s.rest) == [n] + inside + others;
      var tail := [s.below.head.(info := DP)] + After(fs, opt, dev, s.below);
      assert After(fs, opt, dev, s) == [n] + (inside + (others + tail));
      assert After(fs, opt, dev, st'.stack) == others + tail;
    }
  }

  /** Skipping a directory when it is announced drops exactly what was below it. */
  lemma SkipDropsSubtree(fs: FileSystem, opt: Options, st: State)
    requires Closed(fs) && Valid(fs, st.stack) && st.stack.Frame? && st.stack.head.info == D
    ensures var (st', r) := Step(fs, opt, st, true);
      && Valid(fs, st'.stack) && r == Some(st.stack.head.(info := DP))
      && Rest(fs, opt, st) == Finish(fs, opt, st.dev, Chain(st.stack.below), st.stack.head) + Rest(fs, opt, st')
  {
    var (st', r) := Step(fs, opt, st, true);
    assert Chain(st'.stack) == Chain(st.stack);
  }

  // ----- whole runs

  /** `while (fts_read())`: every node returned until the end is. */
  function Run(fs: FileSystem, opt: Options, st: State): (tour: seq<Node>)
    requires Closed(fs) && Valid(fs, st.stack) && st.stack.Frame?
    ensures tour == Rest(fs, opt, st)
    decreases |Rest(fs, opt, st)|
  {
    StepFollowsTour(fs, opt, st);
    var (st', r) := Step(fs, opt, st, false);
    if r == None then [] else [r.value] + Run(fs, opt, st')
  }

  /** The state `fts_open` leaves: a spent node before the first root. */
  function Opened(roots: seq<Node>): State {
    State(0, Frame(Node("", INIT, NO_ID, 0), roots, Nil))
  }

  /** On any closed file system, cyclic or not, the walk ends, and returns the tour of
      each root in turn. */
  lemma RunIsTour(fs: FileSystem, opt: Options, roots: seq<Node>)
    requires Closed(fs) && AllOk(fs, {}, roots)
    ensures Run(fs, opt, Opened(roots)) == RootTours(fs, opt, roots)
  {
  }
}
