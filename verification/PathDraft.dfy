/** The text of a meaning as it grows and shrinks, component by component, and what is copied
    to get there. */
module PathDraft {
  import opened PathMeaning
  import opened Slashes

  // ----- how a draft grows and shrinks

  function Base(d: Meaning): Meaning { d.(names := []) }

  lemma {:induction false} JoinMore(ps: seq<string>, c: string)
    ensures Join(ps + [c]) == if ps == [] then c else Join(ps) + [SEP] + c
  {
    assert (ps + [c])[..|ps + [c]| - 1] == ps;
  }

  lemma DraftEmpty(d: Meaning)
    requires Proper(d)
    ensures Parts(d) == [] <==> |Draft(d)| == if d.rooted then 1 else 0
  {
    if Parts(d) != [] {
      JoinStart(Parts(d));
    }
  }

  /** A name goes behind what is there, with a separator unless it is the first part. */
  lemma DraftPush(d: Meaning, c: string)
    requires Proper(d) && IsName(c)
    ensures Step(d, c) == d.(names := d.names + [c]) && Proper(Step(d, c))
    ensures Draft(Step(d, c)) == Draft(d) + (if Parts(d) == [] then "" else [SEP]) + c
    ensures Base(Step(d, c)) == Base(d)
  {
    hide Join;
    assert Parts(Step(d, c)) == Parts(d) + [c];
    JoinMore(Parts(d), c);
    JoinNone();
  }

  lemma JoinNone()
    ensures Join([]) == ""
  {
  }

  /** A level up that cannot be taken back is written out. */
  lemma DraftUp(d: Meaning)
    requires Proper(d) && !d.rooted && d.names == []
    ensures Step(d, "..") == d.(up := d.up + 1) && Proper(Step(d, "..")) && Base(Step(d, "..")) == Step(d, "..")
    ensures Draft(Step(d, "..")) == Draft(d) + (if Draft(d) == "" then "" else [SEP]) + ".."
  {
    assert Dots(d.up + 1) == Dots(d.up) + [".."];
    assert Parts(d) == Dots(d.up) && Parts(Step(d, "..")) == Dots(d.up) + [".."];
    JoinMore(Dots(d.up), "..");
    DraftEmpty(d);
  }

  /** Dropping the last name drops it and its separator. */
  lemma DraftPop(d: Meaning) returns (e: Meaning, last: string)
    requires Proper(d) && d.names != []
    ensures e == Step(d, "..") && Proper(e) && Base(e) == Base(d) && e.rooted == d.rooted
    ensures last != "" && SEP !in last
    ensures Draft(d) == Draft(e) + (if Parts(e) == [] then "" else [SEP]) + last
    ensures |Draft(Base(d))| <= |Draft(e)|
    ensures Parts(e) == [] ==> |Draft(e)| == |Draft(Base(d))|
  {
    hide Join;
    e, last := Step(d, ".."), d.names[|d.names| - 1];
    assert Parts(d) == Parts(e) + [last];
    JoinMore(Parts(e), last);
    BaseIsPrefix(e);
    DraftEmpty(e);
    DraftEmpty(Base(e));
  }

  lemma {:induction false} BaseIsPrefix(d: Meaning)
    requires Proper(d)
    ensures |Draft(Base(d))| <= |Draft(d)|
    ensures d.names == [] ==> Base(d) == d
    ensures d.names != [] ==> |Draft(Base(d))| < |Draft(d)|
    decreases |d.names|
  {
    if d.names != [] {
      var e := Step(d, "..");
      var last := d.names[|d.names| - 1];
      assert Parts(d) == Parts(e) + [last];
      JoinMore(Parts(e), last);
      BaseIsPrefix(e);
    }
  }

  // ----- what is copied

  /** A name is taken back on the way. */
  predicate Backs(d: Meaning, cs: seq<string>)
    decreases |cs|
  {
    cs != [] && ((cs[0] == ".." && d.names != []) || Backs(Step(d, cs[0]), cs[1..]))
  }

  /** How many characters a component adds, with its separator. */
  function Cost(d: Meaning, c: string): nat {
    if c == "." || c == "" then 0
    else if c == ".." then (if d.names != [] || d.rooted then 0 else if d.up == 0 then 2 else 3)
    else |c| + (if Parts(d) == [] then 0 else 1)
  }

  function Total(d: Meaning, cs: seq<string>): nat
    decreases |cs|
  {
    if cs == [] then 0 else Cost(d, cs[0]) + Total(Step(d, cs[0]), cs[1..])
  }

  function Start(path: string): Meaning { Meaning(Rooted(path), 0, []) }

  /** All characters copied for a path, those taken back again included. */
  function Copied(path: string): nat {
    (if Rooted(path) then 1 else 0) + Total(Start(path), Components(path)) +
    (if Draft(Denote(path)) == "" then 1 else 0)
  }

  lemma DraftStep(d: Meaning, c: string)
    requires Proper(d) && c != "" && SEP !in c
    ensures Proper(Step(d, c))
    ensures !(c == ".." && d.names != []) ==> |Draft(Step(d, c))| == |Draft(d)| + Cost(d, c)
    ensures c == ".." && d.names != [] ==> |Draft(Step(d, c))| < |Draft(d)| && Cost(d, c) == 0
  {
    hide Draft, Join;
    if c == ".." {
      if d.names != [] {
        var e, last := DraftPop(d);
      } else if !d.rooted {
        DraftUp(d);
        DraftEmpty(d);
        assert Draft(d) == "" <==> d.up == 0;
      }
    } else if c != "." {
      DraftPush(d, c);
    }
  }

  /** What is copied is as long as the text that remains exactly if nothing was taken back. */
  lemma {:induction false} TotalIs(d: Meaning, cs: seq<string>)
    requires Proper(d) && ArePlain(cs)
    ensures |Draft(Walk(d, cs))| <= |Draft(d)| + Total(d, cs)
    ensures |Draft(Walk(d, cs))| == |Draft(d)| + Total(d, cs) <==> !Backs(d, cs)
    decreases |cs|
  {
    hide Draft, Join;
    if cs != [] {
      DraftStep(d, cs[0]);
      TotalIs(Step(d, cs[0]), cs[1..]);
    }
  }

  lemma CopiedIs(path: string)
    ensures |Clean(path)| <= Copied(path)
    ensures |Clean(path)| == Copied(path) <==> !Backs(Start(path), Components(path))
  {
    hide Join, Total, Backs, Walk, Components;
    ComponentsPlain(path);
    TotalIs(Start(path), Components(path));
    DraftEmpty(Start(path));
    assert Parts(Start(path)) == [];
  }

  /** A separator was read for each that is copied. */
  lemma {:induction false} TotalAtMost(d: Meaning, s: string)
    ensures var most := |s| + (if s != "" && s[0] != SEP && Parts(d) != [] then 1 else 0);
      && Total(d, Components(s)) <= most
      && (Components(s) != [] && Parts(Walk(d, Components(s))) == [] ==> Total(d, Components(s)) < most)
    decreases |s|
  {
    if s != "" {
      if s[0] == SEP {
        TotalAtMost(d, s[1..]);
      } else {
        var c, rest := s[..Span(s)], s[Span(s)..];
        var e, cs := Step(d, c), Components(rest);
        assert ([c] + cs)[1..] == cs;
        assert Walk(d, Components(s)) == Walk(e, cs) && Total(d, Components(s)) == Cost(d, c) + Total(e, cs);
        TotalAtMost(e, rest);
        CostAtMost(d, c);
        assert rest == "" || rest[0] == SEP;
        assert cs == [] ==> Walk(e, cs) == e && Total(e, cs) == 0;
      }
    }
  }

  lemma CostAtMost(d: Meaning, c: string)
    requires c != ""
    ensures Cost(d, c) <= |c| + (if Parts(d) == [] then 0 else 1)
    ensures Parts(Step(d, c)) == [] ==> Cost(d, c) == 0
  {
  }

  /** No more is copied than there is to be read, except that something always is. */
  lemma CopiedAtMost(path: string)
    ensures Copied(path) <= if path == "" then 1 else |path|
  {
    hide Join, Total, Walk;
    var d := Start(path);
    assert Parts(d) == [];
    if Rooted(path) {
      TotalAtMost(d, path[1..]);
      DenoteProper(path);
    } else {
      TotalAtMost(d, path);
      DenoteProper(path);
      DraftEmpty(Denote(path));
    }
  }

  /** Cleaning "a/.." copies "a" and takes it back, then copies ".". */
  lemma TakenBack()
    ensures Backs(Start("a/.."), Components("a/..")) && Clean("a/..") == "." && Copied("a/..") == 2
  {
    hide Join;
    var s, d, e := "a/..", Meaning(false, 0, []), Meaning(false, 0, ["a"]);
    ComponentsName("a", "/..");
    assert s == "a" + "/.." && "/.."[1..] == "..";
    ComponentsName("..", "");
    assert ".." + "" == "..";
    assert Components(s) == ["a", ".."] && Start(s) == d && !Rooted(s);
    DraftEmpty(d);
    Walked(d, e);
  }

  lemma Walked(d: Meaning, e: Meaning)
    requires d == Meaning(false, 0, []) && e == Meaning(false, 0, ["a"])
    ensures Parts(d) == [] && Walk(d, ["a", ".."]) == d && Total(d, ["a", ".."]) == 1 && Backs(d, ["a", ".."])
  {
    assert Parts(d) == [];
    assert ["a", ".."][1..] == [".."] && [".."][1..] == [];
    assert [] + ["a"] == ["a"] && ["a"][..0] == [] && Step(d, "a") == e && Step(e, "..") == d;
    assert Walk(e, [".."]) == Walk(d, []) == d && Total(e, [".."]) == Total(d, []) == 0;
  }
}
