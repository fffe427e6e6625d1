/** `path_cleann` and `path_join`: cleaning in one pass over a fixed result buffer. */
module PathClean {
  import opened PathDraft
  import opened PathMeaning
  import opened Slashes

  // ----- the pass

  /** out is the draft for d, dotdot where its names start, and rest is still to be read. */
  ghost predicate Cleaning(out: string, dotdot: nat, d: Meaning, rest: string, goal: Meaning) {
    && Proper(d) && out == Draft(d) && dotdot == |Draft(Base(d))|
    && Walk(d, Components(rest)) == goal
  }

  /** And the count is what has been copied so far, of total. */
  ghost predicate Tracked(out: string, dotdot: nat, d: Meaning, rest: string, goal: Meaning, wl: nat, total: nat,
                          rooted: bool) {
    && Cleaning(out, dotdot, d, rest, goal) && d.rooted == rooted
    && |out| <= wl && wl + Total(d, Components(rest)) == total
  }

  lemma TrackedFacts(out: string, dotdot: nat, d: Meaning, rest: string, goal: Meaning, wl: nat, total: nat,
                     rooted: bool)
    requires Tracked(out, dotdot, d, rest, goal, wl, total, rooted)
    ensures Cleaning(out, dotdot, d, rest, goal) && d.rooted == rooted
    ensures |out| <= wl && wl + Total(d, Components(rest)) == total
  {
  }

  lemma IsTracked(out: string, dotdot: nat, d: Meaning, rest: string, goal: Meaning, wl: nat, total: nat, rooted: bool)
    requires Cleaning(out, dotdot, d, rest, goal) && d.rooted == rooted
    requires |out| <= wl && wl + Total(d, Components(rest)) == total
    ensures Tracked(out, dotdot, d, rest, goal, wl, total, rooted)
  {
  }

  ghost function CopiedSoFar(path: string): nat {
    (if Rooted(path) then 1 else 0) + Total(Start(path), Components(path))
  }

  lemma CleaningStart(path: string, rooted: bool, out: string, rest: string)
    requires path != "" && rooted == (path[0] == SEP)
    requires out == (if rooted then [SEP] else "") && rest == (if rooted then path[1..] else path)
    ensures Tracked(out, |out|, Meaning(rooted, 0, []), rest, Denote(path), |out|, CopiedSoFar(path), rooted)
  {
    assert Dots(0) == [] && Parts(Meaning(rooted, 0, [])) == [];
  }

  lemma CleaningSep(out: string, dotdot: nat, d: Meaning, rest: string, goal: Meaning)
    requires Cleaning(out, dotdot, d, rest, goal) && rest != "" && rest[0] == SEP
    ensures Cleaning(out, dotdot, d, rest[1..], goal) && Components(rest) == Components(rest[1..])
  {
  }

  /** The next component c is read: what d becomes. */
  lemma CleaningStep(out: string, dotdot: nat, d: Meaning, rest: string, goal: Meaning, n: nat)
    requires Cleaning(out, dotdot, d, rest, goal) && 0 < n <= |rest|
    requires SEP !in rest[..n] && (n < |rest| ==> rest[n] == SEP)
    ensures Walk(Step(d, rest[..n]), Components(rest[n..])) == goal
    ensures Total(d, Components(rest)) == Cost(d, rest[..n]) + Total(Step(d, rest[..n]), Components(rest[n..]))
  {
    hide Cost;
    var c, more := rest[..n], rest[n..];
    assert rest == c + more;
    ComponentsName(c, more);
    assert ([c] + Components(more))[1..] == Components(more);
  }

  lemma CleaningDot(out: string, dotdot: nat, d: Meaning, rest: string, goal: Meaning)
    requires Cleaning(out, dotdot, d, rest, goal) && rest != "" && rest[0] == '.'
    requires |rest| == 1 || rest[1] == SEP
    ensures Cleaning(out, dotdot, d, rest[1..], goal)
    ensures Total(d, Components(rest)) == Total(d, Components(rest[1..]))
  {
    hide Total;
    CleaningStep(out, dotdot, d, rest, goal, 1);
    assert rest[..1] == ".";
  }

  ghost predicate IsUp(rest: string) {
    |rest| >= 2 && rest[0] == '.' && rest[1] == '.' && (|rest| == 2 || rest[2] == SEP)
  }

  lemma CleaningUp(out: string, dotdot: nat, d: Meaning, rest: string, goal: Meaning)
    requires Cleaning(out, dotdot, d, rest, goal) && IsUp(rest)
    ensures |out| > dotdot <==> d.names != []
    ensures |out| >= dotdot && (d.rooted ==> out != "") && |rest| >= 2
    ensures !d.rooted ==> (out == "" <==> Parts(d) == [])
    ensures Walk(Step(d, ".."), Components(rest[2..])) == goal && Step(d, "..").rooted == d.rooted
    ensures Total(d, Components(rest)) == Cost(d, "..") + Total(Step(d, ".."), Components(rest[2..]))
    ensures d.names != [] || d.rooted ==> Cost(d, "..") == 0
    ensures d.names == [] && !d.rooted ==> Cost(d, "..") == if out == "" then 2 else 3
    ensures d.names == [] && d.rooted ==> Cleaning(out, dotdot, d, rest[2..], goal) && Step(d, "..") == d
    ensures d.names == [] && !d.rooted ==>
      var t := out + (if out == "" then "" else [SEP]) + "..";
      Cleaning(t, |t|, Step(d, ".."), rest[2..], goal)
  {
    hide Total, Draft;
    CleaningStep(out, dotdot, d, rest, goal, 2);
    assert rest[..2] == "..";
    BaseIsPrefix(d);
    DraftEmpty(d);
    if d.names == [] && !d.rooted {
      DraftUp(d);
    }
  }

  /** Where backtracking stops: at the end of the draft without the last name. */
  lemma CleaningPop(out: string, dotdot: nat, d: Meaning, rest: string, goal: Meaning) returns (e: Meaning, x: nat)
    requires Cleaning(out, dotdot, d, rest, goal) && IsUp(rest) && d.names != []
    ensures e == Step(d, "..") && dotdot <= x < |out|
    ensures x == dotdot || out[x] == SEP
    ensures forall i :: x < i < |out| ==> out[i] != SEP
    ensures Cleaning(out[..x], dotdot, e, rest[2..], goal)
  {
    hide Join, Components, Walk;
    CleaningUp(out, dotdot, d, rest, goal);
    var last;
    e, last := DraftPop(d);
    x := |Draft(e)|;
    LastPart(out, Draft(e), if Parts(e) == [] then "" else [SEP], last);
  }

  /** Both say where the last separator at or after dotdot is. */
  lemma StopIs(out: string, dotdot: nat, x: nat, v: nat)
    requires dotdot <= x < |out| && dotdot <= v < |out|
    requires x == dotdot || out[x] == SEP
    requires v == dotdot || out[v] == SEP
    requires forall i :: x < i < |out| ==> out[i] != SEP
    requires forall i :: v < i < |out| ==> out[i] != SEP
    ensures x == v
  {
    var a, b := out[x], out[v];
  }

  lemma LastPart(out: string, front: string, sep: string, last: string)
    requires out == front + sep + last && last != "" && SEP !in last && (sep == "" || sep == [SEP])
    ensures |front| < |out| && out[..|front|] == front
    ensures sep != "" ==> out[|front|] == SEP
    ensures forall i :: |front| < i < |out| ==> out[i] != SEP
  {
    assert forall i :: |front| + |sep| <= i < |out| ==> out[i] == last[i - |front| - |sep|];
  }

  lemma CleaningPush(out: string, dotdot: nat, d: Meaning, rest: string, goal: Meaning, n: nat)
    requires Cleaning(out, dotdot, d, rest, goal) && 0 < n <= |rest|
    requires SEP !in rest[..n] && (n < |rest| ==> rest[n] == SEP) && IsName(rest[..n])
    ensures |out| != (if d.rooted then 1 else 0) <==> Parts(d) != []
    ensures Step(d, rest[..n]).rooted == d.rooted
    ensures Cleaning(out + (if Parts(d) == [] then "" else [SEP]) + rest[..n], dotdot,
                     Step(d, rest[..n]), rest[n..], goal)
    ensures Total(d, Components(rest)) ==
            n + (if Parts(d) == [] then 0 else 1) + Total(Step(d, rest[..n]), Components(rest[n..]))
  {
    hide Total;
    CleaningStep(out, dotdot, d, rest, goal, n);
    DraftPush(d, rest[..n]);
    DraftEmpty(d);
  }

  /** At the end the count is what was copied, less what stands in for nothing at all. */
  lemma CleaningEnd(out: string, dotdot: nat, d: Meaning, path: string, wl: nat)
    requires Tracked(out, dotdot, d, "", Denote(path), wl, CopiedSoFar(path), Rooted(path))
    ensures Clean(path) == (if out == "" then "." else out) && |out| <= wl
    ensures Copied(path) == wl + if out == "" then 1 else 0
  {
  }

  lemma CopiedSoFarIs(path: string)
    ensures CopiedSoFar(path) <= Copied(path)
  {
  }

  /** The DST_APPEND macro: store, and advance unless only room for the end mark is left. */
  method Append(result: array<char>, w: nat, wl: nat, c: char) returns (w': nat, wl': nat)
    requires w < result.Length
    modifies result
    ensures w' < result.Length && wl' == wl + 1
    ensures w + 1 < result.Length ==> w' == w + 1 && result[..w'] == old(result[..w]) + [c]
  {
    result[w] := c;
    w' := if w < result.Length - 1 then w + 1 else w;
    wl' := wl + 1;
  }

  /** Copy one component, with a separator before it if `sep`. */
  method AppendName(result: array<char>, path: string, r0: nat, w0: nat, wl0: nat, sep: bool)
    returns (r: nat, w: nat, wl: nat)
    requires w0 < result.Length && r0 < |path|
    modifies result
    ensures r0 <= r <= |path| && w < result.Length
    ensures SEP !in path[r0..r] && (r < |path| ==> path[r] == SEP)
    ensures wl == wl0 + (if sep then 1 else 0) + (r - r0)
    ensures w0 + (if sep then 1 else 0) + (r - r0) < result.Length ==>
      && w == w0 + (if sep then 1 else 0) + (r - r0)
      && result[..w] == old(result[..w0]) + (if sep then [SEP] else "") + path[r0..r]
  {
    w, wl := w0, wl0;
    if sep {
      w, wl := Append(result, w, wl, SEP);
    }
    r := r0;
    ghost var front, k := old(result[..w0]) + (if sep then [SEP] else ""), if sep then 1 else 0;
    while r < |path| && path[r] != SEP
      invariant r0 <= r <= |path| && w < result.Length
      invariant SEP !in path[r0..r]
      invariant wl == wl0 + k + (r - r0)
      invariant w0 + k + (r - r0) < result.Length ==> w == w0 + k + (r - r0) && result[..w] == front + path[r0..r]
    {
      w, wl := Append(result, w, wl, path[r]);
      r := r + 1;
      assert path[r0..r] == path[r0..r - 1] + [path[r - 1]];
    }
  }

  /** Undo one component: back to its separator, or to the end of the leading part. */
  method Backtrack(result: array<char>, w0: nat, dotdot: nat) returns (w: nat)
    requires dotdot < w0 < result.Length
    ensures dotdot <= w < w0
    ensures w == dotdot || result[w] == SEP
    ensures forall i :: w < i < w0 ==> result[i] != SEP
  {
    w := w0 - 1;
    while w > dotdot && result[w] != SEP
      invariant dotdot <= w < w0
      invariant forall i :: w < i < w0 ==> result[i] != SEP
    {
      w := w - 1;
    }
  }

  lemma CleanEmpty(path: string)
    requires path == ""
    ensures Clean(path) == "."
  {
    assert Parts(Meaning(false, 0, [])) == [];
  }

  lemma UpAt(path: string, r: nat)
    requires r + 1 < |path| && path[r] == '.' && path[r + 1] == '.' && (r + 2 == |path| || path[r + 2] == SEP)
    ensures IsUp(path[r..])
  {
  }

  /** A component read from r to r' that is neither empty, "." nor "..". */
  lemma NameAt(path: string, r: nat, r': nat)
    requires r < |path| && path[r] != SEP && r <= r' <= |path|
    requires SEP !in path[r..r'] && (r' < |path| ==> path[r'] == SEP)
    requires !(path[r] == '.' && (r + 1 == |path| || path[r + 1] == SEP))
    requires !(path[r] == '.' && path[r + 1] == '.' && (r + 2 == |path| || path[r + 2] == SEP))
    ensures r < r' && IsName(path[r..r'])
    ensures path[r..][..r' - r] == path[r..r'] && path[r..][r' - r..] == path[r'..]
  {
  }

  lemma SkipOne(out: string, dotdot: nat, d: Meaning, path: string, r: nat, goal: Meaning, wl: nat, total: nat,
                rooted: bool)
    requires r < |path| && Tracked(out, dotdot, d, path[r..], goal, wl, total, rooted)
    requires path[r] == SEP || (path[r] == '.' && (r + 1 == |path| || path[r + 1] == SEP))
    ensures Tracked(out, dotdot, d, path[r + 1..], goal, wl, total, rooted)
  {
    hide Cleaning, Total;
    assert path[r..][1..] == path[r + 1..];
    if path[r] == SEP {
      CleaningSep(out, dotdot, d, path[r..], goal);
    } else {
      CleaningDot(out, dotdot, d, path[r..], goal);
    }
  }

  lemma ReadName(out: string, dotdot: nat, d: Meaning, path: string, r: nat, r': nat, goal: Meaning, wl: nat,
                 total: nat, rooted: bool)
    returns (e: Meaning)
    requires r < |path| && Tracked(out, dotdot, d, path[r..], goal, wl, total, rooted)
    requires path[r] != SEP && r <= r' <= |path|
    requires SEP !in path[r..r'] && (r' < |path| ==> path[r'] == SEP)
    requires !(path[r] == '.' && (r + 1 == |path| || path[r + 1] == SEP))
    requires !(path[r] == '.' && path[r + 1] == '.' && (r + 2 == |path| || path[r + 2] == SEP))
    ensures var sep := |out| != if rooted then 1 else 0;
      var more := (if sep then 1 else 0) + (r' - r);
      && Tracked(out + (if sep then [SEP] else "") + path[r..r'], dotdot, e, path[r'..], goal, wl + more, total, rooted)
      && wl + more <= total && r < r' && |out| <= wl
  {
    hide *;
    TrackedFacts(out, dotdot, d, path[r..], goal, wl, total, rooted);
    NameAt(path, r, r');
    CleaningPush(out, dotdot, d, path[r..], goal, r' - r);
    e := Step(d, path[r..r']);
    var sep := |out| != if rooted then 1 else 0;
    IsTracked(out + (if sep then [SEP] else "") + path[r..r'], dotdot, e, path[r'..], goal,
              wl + (if sep then 1 else 0) + (r' - r), total, rooted);
  }

  /** The ".." branch: take a name back, or write the level out, or stay at the root. */
  method StepUp(result: array<char>, v0: nat, wl0: nat, dotdot0: nat, rooted: bool,
                ghost d0: Meaning, ghost rest: string, ghost goal: Meaning, ghost total: nat)
    returns (v: nat, wl: nat, dotdot: nat, ghost d: Meaning)
    requires v0 < result.Length
    requires wl0 < result.Length ==> Tracked(result[..v0], dotdot0, d0, rest, goal, wl0, total, rooted) && IsUp(rest)
    modifies result
    ensures v < result.Length && wl >= wl0
    ensures wl < result.Length ==> Tracked(result[..v], dotdot, d, rest[2..], goal, wl, total, rooted)
    ensures wl >= result.Length > wl0 ==> total >= result.Length
  {
    hide *;
    v, wl, dotdot, d := v0, wl0, dotdot0, d0;
    ghost var out := result[..v];
    if wl0 < result.Length {
      TrackedFacts(out, dotdot, d, rest, goal, wl, total, rooted);
      CleaningUp(out, dotdot, d, rest, goal);
    }
    if v > dotdot {
      v := Backtrack(result, v, dotdot);
      if wl0 < result.Length {
        ghost var x;
        d, x := CleaningPop(out, dotdot, d, rest, goal);
        StopIs(out, dotdot, x, v);
        assert result[..v] == out[..x];
      }
    } else if !rooted {
      if v > 0 {
        v, wl := Append(result, v, wl, SEP);
      }
      v, wl := Append(result, v, wl, '.');
      v, wl := Append(result, v, wl, '.');
      dotdot := v;
      if wl < result.Length {
        assert result[..v] == out + (if out == "" then "" else [SEP]) + "..";
      }
      d := Step(d, "..");
    }
    if wl < result.Length {
      IsTracked(result[..v], dotdot, d, rest[2..], goal, wl, total, rooted);
    }
  }

  /** The result is right whenever the count is below PATH_MAX, which it is for every path
      that is; the count is that of all characters copied, and so the length of the result
      exactly if no name was taken back. */
  method PathCleann(result: array<char>, path: string) returns (wl: nat, ghost w: nat)
    requires result.Length >= 2
    modifies result
    ensures w < result.Length && result[w] == '\0'
    ensures wl < result.Length <==> Copied(path) < result.Length
    ensures wl < result.Length ==> result[..w] == Clean(path) && wl == Copied(path)
    ensures wl < result.Length ==> w <= wl && (w == wl <==> !Backs(Start(path), Components(path)))
    ensures |path| < result.Length ==> wl <= (if path == "" then 1 else |path|)
  {
    hide *;
    CopiedIs(path);
    CopiedAtMost(path);
    CopiedSoFarIs(path);
    var r: nat, v: nat, dotdot: nat := 0, 0, 0;
    wl := 0;
    if |path| == 0 {
      v, wl := Append(result, v, wl, '.');
      result[v] := '\0';
      w := v;
      CleanEmpty(path);
      return;
    }
    var rooted := path[0] == SEP;
    if rooted {
      v, wl := Append(result, v, wl, SEP);
      r := 1;
      dotdot := dotdot + 1;
    }
    ghost var goal, total, d := Denote(path), CopiedSoFar(path), Meaning(rooted, 0, []);
    assert path[0..] == path;
    assert result[..v] == if rooted then [SEP] else "";
    CleaningStart(path, rooted, if rooted then [SEP] else "", path[r..]);
    while r < |path|
      invariant r <= |path| && v < result.Length
      invariant wl < result.Length ==> Tracked(result[..v], dotdot, d, path[r..], goal, wl, total, rooted)
      invariant wl >= result.Length ==> total >= result.Length
    {
      ghost var out, r0, wl0 := result[..v], r, wl;
      ghost var rest := path[r0..];
      if path[r] == SEP || (path[r] == '.' && (r + 1 == |path| || path[r + 1] == SEP)) {
        r := r + 1;
        if wl < result.Length {
          SkipOne(out, dotdot, d, path, r0, goal, wl, total, rooted);
        }
      } else if path[r] == '.' && path[r + 1] == '.' && (r + 2 == |path| || path[r + 2] == SEP) {
        r := r + 2;
        assert path[r..] == rest[2..];
        UpAt(path, r0);
        v, wl, dotdot, d := StepUp(result, v, wl, dotdot, rooted, d, rest, goal, total);
      } else {
        r, v, wl := AppendName(result, path, r, v, wl, (rooted && v != 1) || (!rooted && v != 0));
        if wl0 < result.Length {
          d := ReadName(out, dotdot, d, path, r0, r, goal, wl0, total, rooted);
        }
      }
    }
    ghost var out := result[..v];
    if wl < result.Length {
      assert path[r..] == "";
      RootedIs(path);
      CleaningEnd(out, dotdot, d, path, wl);
    }
    if v == 0 {
      v, wl := Append(result, v, wl, '.');
      assert wl < result.Length ==> result[..v] == ".";
    }
    result[v] := '\0';
    w := v;
  }

  lemma RootedIs(path: string)
    requires path != ""
    ensures Rooted(path) == (path[0] == SEP)
  {
  }

  /** What `snprintf` leaves in a buffer of m characters: the text and an end mark, or as much of
      the text as there is room for before one. */
  function Printed(m: nat, text: string): string
    requires m > 0
  {
    if |text| < m then text else text[..m - 1] + ['\0']
  }

  /** The two parts with a separator between them, cleaned. The length is passed on uncut, so
      that characters behind the buffer are read exactly if the two parts have more than
      PATH_MAX characters with their separator; those are a parameter. */
  method PathJoin(result: array<char>, path1: string, path2: string, behind: string) returns (n: int, ghost w: nat)
    requires result.Length >= 2
    requires |behind| == if |path1| + 1 + |path2| > result.Length then |path1| + 1 + |path2| - result.Length else 0
    modifies result
    ensures w < result.Length && result[w] == '\0'
    ensures var text := path1 + [SEP] + path2;
      var path := Printed(result.Length, text) + behind;
      && (n == -1 <==> Copied(path) >= result.Length) && -1 <= n < result.Length
      && (n != -1 ==> n == Copied(path) >= w && result[..w] == Clean(path))
      && (|text| < result.Length ==> n != -1 && path == text)
    ensures |path1| + 1 + |path2| < result.Length && path1 != "" ==> result[..w] == Clean(Clean(path1) + [SEP] + path2)
  {
    hide Clean, Copied;
    var text := path1 + [SEP] + path2;
    var path := Printed(result.Length, text) + behind;
    assert |text| < result.Length ==> path == text;
    n, w := PathCleann(result, path);
    if path1 != "" {
      JoinAfterClean(path1, path2);
      CleanIsCanonical(Clean(path1) + [SEP] + path2, text);
    }
    return if n >= result.Length then -1 else n, w;
  }

  /** Two parts that do not fit can be joined without complaint, to something else. Whatever the
      buffer's size, "." and a name that with the separator leave no room for the end mark are:
      the last character of the name is lost. */
  method JoinedWrongly(result: array<char>, name: string) returns (n: int, ghost w: nat)
    requires result.Length >= 3 && |name| == result.Length - 2 && IsName(name)
    modifies result
    ensures n == |name| && w < result.Length && result[..w] == name[..|name| - 1] + "\0"
    ensures Clean("." + [SEP] + name) == name
  {
    hide *;
    CutShort(result.Length, name);
    DotThen(name);
    DotThen(name[..|name| - 1] + "\0");
    n, w := PathJoin(result, ".", name, "");
  }

  lemma CutShort(m: nat, name: string)
    requires m >= 3 && |name| == m - 2 && IsName(name)
    ensures var cut := name[..|name| - 1] + "\0";
      "." + [SEP] + name == "./" + name && Printed(m, "./" + name) + "" == "./" + cut && IsName(cut) && |cut| == |name|
  {
    var text, cut := "./" + name, name[..|name| - 1] + "\0";
    assert text[..m - 1] == "./" + name[..|name| - 1];
    assert cut[|name| - 1] == '\0';
  }

  lemma DotThen(c: string)
    requires IsName(c)
    ensures Clean("./" + c) == c && Copied("./" + c) == |c|
  {
    hide Join;
    var s, d := "./" + c, Meaning(false, 0, []);
    ComponentsName(".", "/" + c);
    assert s == "." + ("/" + c) && ("/" + c)[1..] == c && c + "" == c;
    ComponentsName(c, "");
    assert Components(s) == [".", c] && [".", c][1..] == [c] && [c][1..] == [];
    assert Parts(d) == [] && !Rooted(s) && Start(s) == d;
    OneName(d, c);
  }

  lemma OneName(d: Meaning, c: string)
    requires IsName(c) && Proper(d) && !d.rooted && Parts(d) == []
    ensures Walk(d, [".", c]) == Step(d, c) && Total(d, [".", c]) == |c| && Draft(Step(d, c)) == c
  {
    hide Join;
    assert [".", c][1..] == [c] && [c][1..] == [];
    DraftEmpty(d);
    DraftPush(d, c);
    assert Step(d, ".") == d && Cost(d, ".") == 0 && Cost(d, c) == |c|;
    assert Walk(d, [".", c]) == Walk(d, [c]) == Walk(Step(d, c), []);
    assert Total(d, [".", c]) == Total(d, [c]) == |c| + Total(Step(d, c), []);
  }
}
