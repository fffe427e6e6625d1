/** Text cut into components by separators, and joined with them. */
module Slashes {

  const SEP: char := '/'

  predicate Rooted(s: string) { s != "" && s[0] == SEP }

  /** Length of the component that s starts with. */
  function Span(s: string): (n: nat)
    ensures n <= |s|
    ensures SEP !in s[..n]
    ensures n < |s| ==> s[n] == SEP
  {
    if s == "" || s[0] == SEP then 0 else 1 + Span(s[1..])
  }

  function Components(s: string): seq<string>
    decreases |s|
  {
    if s == "" then []
    else if s[0] == SEP then Components(s[1..])
    else [s[..Span(s)]] + Components(s[Span(s)..])
  }

  function Join(parts: seq<string>): string {
    if |parts| == 0 then ""
    else if |parts| == 1 then parts[0]
    else Join(parts[..|parts| - 1]) + [SEP] + parts[|parts| - 1]
  }

  lemma {:induction false} ComponentsName(c: string, rest: string)
    requires c != "" && SEP !in c && (rest == "" || rest[0] == SEP)
    ensures Components(c + rest) == [c] + Components(rest)
  {
    SpanName(c, rest);
    assert (c + rest)[..|c|] == c && (c + rest)[|c|..] == rest;
  }

  lemma {:induction false} SpanName(c: string, rest: string)
    requires SEP !in c && (rest == "" || rest[0] == SEP)
    ensures Span(c + rest) == |c|
  {
    if c == "" {
      assert c + rest == rest;
    } else {
      assert (c + rest)[1..] == c[1..] + rest;
      SpanName(c[1..], rest);
    }
  }

  predicate ArePlain(ps: seq<string>) {
    forall i :: 0 <= i < |ps| ==> ps[i] != "" && SEP !in ps[i]
  }

  lemma {:induction false} ComponentsJoin(ps: seq<string>, rest: string)
    requires ArePlain(ps) && (rest == "" || rest[0] == SEP)
    ensures Components(Join(ps) + rest) == ps + Components(rest)
    decreases |ps|
  {
    if |ps| == 0 {
      assert Join(ps) + rest == rest;
    } else {
      var last, front := ps[|ps| - 1], ps[..|ps| - 1];
      ComponentsName(last, rest);
      if |ps| > 1 {
        var tail := [SEP] + (last + rest);
        assert Join(ps) + rest == Join(front) + tail;
        ComponentsJoin(front, tail);
        assert tail[1..] == last + rest;
        assert ps == front + [last];
      }
    }
  }

  /** A separator ends a component: what follows is read on its own. */
  lemma {:induction false} ComponentsSep(a: string, b: string)
    ensures Components(a + [SEP] + b) == Components(a) + Components(b)
    decreases |a|
  {
    hide Components, Span;
    var s := a + [SEP] + b;
    if a == "" {
      assert s[1..] == b;
      FirstSep(s);
      FirstSep("");
    } else if a[0] == SEP {
      assert s[1..] == a[1..] + [SEP] + b;
      FirstSep(a);
      FirstSep(s);
      ComponentsSep(a[1..], b);
    } else {
      FirstSep(a);
      var c, a' := a[..Span(a)], a[Span(a)..];
      var rest := a' + [SEP] + b;
      assert s == c + rest && a == c + a';
      ComponentsName(c, rest);
      ComponentsName(c, a');
      ComponentsSep(a', b);
    }
  }

  lemma FirstSep(s: string)
    ensures s == "" ==> Components(s) == []
    ensures s != "" && s[0] == SEP ==> Components(s) == Components(s[1..])
    ensures s != "" && s[0] != SEP ==> Span(s) > 0
  {
  }

  lemma {:induction false} ComponentsPlain(s: string)
    ensures ArePlain(Components(s))
    decreases |s|
  {
    if s != "" {
      ComponentsPlain(if s[0] == SEP then s[1..] else s[Span(s)..]);
    }
  }

  lemma {:induction false} JoinStart(ps: seq<string>)
    requires ArePlain(ps)
    ensures ps != [] ==> Join(ps) != "" && Join(ps)[0] != SEP
    decreases |ps|
  {
    if |ps| > 1 {
      JoinStart(ps[..|ps| - 1]);
    }
  }
}
