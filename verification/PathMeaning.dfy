/** What a path means lexically, and the one way of writing each meaning. */
module PathMeaning {
  import opened Slashes

  /** From the root or not, how many levels up first, which names then. */
  datatype Meaning = Meaning(rooted: bool, up: nat, names: seq<string>)

  predicate IsName(n: string) {
    n != "" && SEP !in n && n != "." && n != ".."
  }

  predicate Proper(d: Meaning) {
    (d.rooted ==> d.up == 0) && forall i :: 0 <= i < |d.names| ==> IsName(d.names[i])
  }

  // ----- reading

  /** One component on from a meaning. */
  function Step(d: Meaning, c: string): Meaning {
    if c == "." || c == "" then d
    else if c == ".." then
      if d.names != [] then d.(names := d.names[..|d.names| - 1])
      else if d.rooted then d
      else d.(up := d.up + 1)
    else d.(names := d.names + [c])
  }

  function Walk(d: Meaning, cs: seq<string>): Meaning
    decreases |cs|
  {
    if cs == [] then d else Walk(Step(d, cs[0]), cs[1..])
  }

  function Denote(s: string): Meaning {
    Walk(Meaning(Rooted(s), 0, []), Components(s))
  }

  // ----- writing

  function Dots(n: nat): (ps: seq<string>)
    ensures |ps| == n
  {
    seq(n, _ => "..")
  }

  function Parts(d: Meaning): seq<string> { Dots(d.up) + d.names }

  /** As written before "." stands in for nothing at all. */
  function Draft(d: Meaning): string {
    (if d.rooted then [SEP] else "") + Join(Parts(d))
  }

  function Render(d: Meaning): string {
    if Draft(d) == "" then "." else Draft(d)
  }

  // ----- walking

  lemma {:induction false} WalkAppend(d: Meaning, cs: seq<string>, ds: seq<string>)
    ensures Walk(d, cs + ds) == Walk(Walk(d, cs), ds)
    decreases |cs|
  {
    if cs == [] {
      assert cs + ds == ds;
    } else {
      assert (cs + ds)[1..] == cs[1..] + ds;
      WalkAppend(Step(d, cs[0]), cs[1..], ds);
    }
  }

  lemma {:induction false} WalkProper(d: Meaning, cs: seq<string>)
    requires Proper(d) && ArePlain(cs)
    ensures Proper(Walk(d, cs)) && Walk(d, cs).rooted == d.rooted
    decreases |cs|
  {
    if cs != [] {
      WalkProper(Step(d, cs[0]), cs[1..]);
    }
  }

  lemma DenoteProper(s: string)
    ensures Proper(Denote(s)) && Denote(s).rooted == Rooted(s)
  {
    ComponentsPlain(s);
    WalkProper(Meaning(Rooted(s), 0, []), Components(s));
  }

  lemma {:induction false} WalkDots(n: nat, k: nat)
    ensures Walk(Meaning(false, k, []), Dots(n)) == Meaning(false, k + n, [])
    decreases n
  {
    if n > 0 {
      assert Dots(n)[1..] == Dots(n - 1);
      WalkDots(n - 1, k + 1);
    }
  }

  lemma {:induction false} WalkNames(d: Meaning, ns: seq<string>)
    requires forall i :: 0 <= i < |ns| ==> IsName(ns[i])
    ensures Walk(d, ns) == d.(names := d.names + ns)
    decreases |ns|
  {
    if ns != [] {
      WalkNames(Step(d, ns[0]), ns[1..]);
      assert d.names + [ns[0]] + ns[1..] == d.names + ns;
    } else {
      assert d.names + ns == d.names;
    }
  }

  // ----- main results

  lemma ComponentsRender(d: Meaning)
    requires Proper(d)
    ensures Components(Render(d)) == if Draft(d) == "" then ["."] else Parts(d)
    ensures Draft(d) == "" ==> Parts(d) == []
    ensures Rooted(Render(d)) == d.rooted
  {
    var ps := Parts(d);
    ComponentsJoin(ps, "");
    assert Join(ps) + "" == Join(ps);
    JoinStart(ps);
    if Draft(d) == "" {
      ComponentsName(".", "");
      assert "." + "" == ".";
    } else if d.rooted {
      assert Draft(d)[1..] == Join(ps);
    } else {
      assert Draft(d) == Join(ps);
    }
  }

  lemma WalkParts(d: Meaning)
    requires Proper(d)
    ensures Walk(Meaning(d.rooted, 0, []), Parts(d)) == d
  {
    var start := Meaning(d.rooted, 0, []);
    WalkAppend(start, Dots(d.up), d.names);
    if d.up > 0 {
      WalkDots(d.up, 0);
    } else {
      assert Dots(d.up) == [];
    }
    WalkNames(Meaning(d.rooted, d.up, []), d.names);
    assert [] + d.names == d.names;
  }

  /** What is written for a meaning reads back as that meaning. */
  lemma DenoteRender(d: Meaning)
    requires Proper(d)
    ensures Denote(Render(d)) == d
  {
    ComponentsRender(d);
    WalkParts(d);
    if Draft(d) == "" {
      assert Walk(Meaning(d.rooted, 0, []), ["."]) == Meaning(d.rooted, 0, []);
    }
  }

  /** Cleaning, as a function. */
  function Clean(s: string): string { Render(Denote(s)) }

  /** Cleaning keeps the meaning, so it is idempotent, and two paths clean to the same text
      exactly when they mean the same. */
  lemma CleanIsCanonical(s: string, t: string)
    ensures Denote(Clean(s)) == Denote(s)
    ensures Clean(Clean(s)) == Clean(s)
    ensures Clean(s) == Clean(t) <==> Denote(s) == Denote(t)
  {
    DenoteProper(s);
    DenoteProper(t);
    DenoteRender(Denote(s));
    DenoteRender(Denote(t));
  }

  /** Cleaning the first part of a join first makes no difference. */
  lemma JoinAfterClean(a: string, b: string)
    requires a != ""
    ensures Denote(Clean(a) + [SEP] + b) == Denote(a + [SEP] + b)
  {
    var c := Clean(a);
    CleanIsCanonical(a, a);
    DenoteProper(a);
    DenoteProper(c);
    ComponentsSep(a, b);
    ComponentsSep(c, b);
    var start := Meaning(Rooted(a), 0, []);
    WalkAppend(start, Components(a), Components(b));
    WalkAppend(start, Components(c), Components(b));
  }
}
