/** routing.match on a node with several children: as long as no child is a
    wildcard with children (whose search overwrites the shared `ok` and
    `segment`) and no child breaks the sibling loop, the result is the
    results of the children taken one at a time, in child order. */
module MatchCompose {
  import opened Text
  import opened Segments
  import opened Tree
  import opened Matcher
  import opened MatchCases

  /** What one child's turn adds to a loop state, given what the same turn
      does to the loop's initial state. */
  function Joined(st: Scan, step: Step): (r: Step)
    ensures r.Break? <==> step.Break?
  {
    match step
    case Break => Break
    case Next(u) => Next(Scan(st.routes + u.routes, st.ok || u.ok, st.segment))
  }

  /** A child that is not a wildcard with children, in any loop state, only
      appends its routes, ORs its success into `ok`, keeps `segment`, and
      breaks exactly when it breaks on the loop's initial state. */
  lemma VisitAppends(t: Routing, rest: seq<string>, st: Scan, re: Regex)
    requires !(t.key == "*" && |t.trailers| > 0)
    ensures Visit(t, rest, st, re) == Joined(st, Visit(t, rest, Scan([], false, st.segment), re))
  {
    var st0 := Scan([], false, st.segment);
    assert st.routes + [] == st.routes;
    if HasPrefix(t.key, "/") {
      var m := Match(t, rest, re);
      assert [] + m.routes == m.routes;
    } else if t.key == "*" {
      var r := [Route(Blanks(1 + |rest|), [st.segment] + rest, t.filters)];
      assert [] + r == r;
    } else if HasPrefix(t.key, ":") {
      assert t.key[0] == ':';
      var name := if Constrained(t.key) then ConstraintName(t.key) else t.key[1..];
      NamedAppends(t, name, rest, st, re);
    } else if HasPrefix(t.key, "?:") {
      assert t.key[1] == ':';
      if Constrained(t.key) {
        OptionalAppends(t, Some(ConstraintName(t.key)), rest, st, re);
        OptionalAppends(t, None, rest, st, re);
      } else {
        OptionalAppends(t, Some(t.key[2..]), rest, st, re);
      }
    } else if HasPrefix(t.key, "(") && HasSuffix(t.key, ")") {
      var m := Match(t, rest, re);
      var ps := PrependAll(m.routes, "", st.segment);
      assert [] + ps == ps;
    }
  }

  lemma NamedAppends(t: Routing, name: string, rest: seq<string>, st: Scan, re: Regex)
    ensures Named(t, name, rest, st, re) == Joined(st, Named(t, name, rest, Scan([], false, st.segment), re))
  {
    var m := Match(t, rest, re);
    var a := AppendAll(m.routes, name, st.segment);
    assert [] + a == a;
    assert st.routes + [] == st.routes;
  }

  lemma OptionalAppends(t: Routing, name: Option<string>, rest: seq<string>, st: Scan, re: Regex)
    ensures Optional(t, name, rest, st, re) == Joined(st, Optional(t, name, rest, Scan([], false, st.segment), re))
  {
    var st0 := Scan([], false, st.segment);
    var skip := Match(t, [st.segment] + rest, re);
    assert st.routes + [] == st.routes;
    match name
    case None =>
      assert st.routes + ([] + skip.routes) == st.routes + skip.routes;
    case Some(key) =>
      var m := Match(t, rest, re);
      var a := AppendAll(m.routes, key, st.segment);
      assert [] + a == a;
      assert [] + skip.routes == skip.routes;
      assert st.routes + (a + skip.routes) == (st.routes + a) + skip.routes;
      assert st.routes + ([] + skip.routes) == st.routes + skip.routes;
  }

  /** A child breaks the sibling loop exactly when it is a ":name(re)" child
      whose pattern is empty or rejects the segment, or a "?:name(re)" child
      whose pattern is empty. */
  lemma VisitBreaks(t: Routing, rest: seq<string>, st: Scan, re: Regex)
    ensures Visit(t, rest, st, re).Break? <==>
      (HasPrefix(t.key, ":") && Constrained(t.key) &&
        (ConstraintPattern(t.key) == "" || !re(ConstraintPattern(t.key), st.segment))) ||
      (HasPrefix(t.key, "?:") && Constrained(t.key) && ConstraintPattern(t.key) == "")
  {
    if HasPrefix(t.key, "?:") {
      KeyKind(t.key, '?');
      assert t.key[..2][0] == '?';
      assert t.key[1] == ':';
      assert Visit(t, rest, st, re) == OptionalChild(t, rest, st, re);
      if Constrained(t.key) && ConstraintPattern(t.key) != "" {
        OptionalNeverBreaks(t, rest, st, re);
      } else if !Constrained(t.key) {
        assert OptionalChild(t, rest, st, re) == Optional(t, Some(t.key[2..]), rest, st, re);
      }
    } else if HasPrefix(t.key, ":") {
      assert t.key[0] == ':';
      KeyKind(t.key, ':');
      if !Constrained(t.key) || (ConstraintPattern(t.key) != "" && re(ConstraintPattern(t.key), st.segment)) {
        var name := if Constrained(t.key) then ConstraintName(t.key) else t.key[1..];
        assert NamedChild(t, rest, st, re) == Named(t, name, rest, st, re);
      }
    }
  }

  lemma OptionalNeverBreaks(t: Routing, rest: seq<string>, st: Scan, re: Regex)
    requires HasPrefix(t.key, "?:") && Constrained(t.key) && ConstraintPattern(t.key) != ""
    ensures OptionalChild(t, rest, st, re).Next?
  {
    assert t.key[..2][1] == ':';
    var p := ConstraintPattern(t.key);
    if re(p, st.segment) {
      assert OptionalChild(t, rest, st, re) == Optional(t, Some(ConstraintName(t.key)), rest, st, re);
    } else {
      assert OptionalChild(t, rest, st, re) == Optional(t, None, rest, st, re);
    }
  }

  /** Children that compose: none is a wildcard with children, and none
      breaks the sibling loop on the segment s. */
  predicate Composable(ts: seq<Routing>, s: string, rest: seq<string>, re: Regex)
  {
    forall i :: 0 <= i < |ts| ==>
      !(ts[i].key == "*" && |ts[i].trailers| > 0) && Visit(ts[i], rest, Scan([], false, s), re).Next?
  }

  /** The results of matching each child on its own, as the only child of a
      node: their routes concatenated in child order, and whether any of
      them succeeded. */
  function EachChild(ts: seq<Routing>, s: string, rest: seq<string>, re: Regex): (r: Matched)
  {
    if ts == [] then Matched([], false)
    else
      var a, b := Match(Only(ts[0]), [s] + rest, re), EachChild(ts[1..], s, rest, re);
      Matched(a.routes + b.routes, a.ok || b.ok)
  }

  /** With composable children, match returns the routes of each child taken
      on its own, in child order, and succeeds exactly when one of them does. */
  lemma MatchComposes(n: Routing, s: string, rest: seq<string>, re: Regex)
    requires Composable(n.trailers, s, rest, re)
    ensures Match(n, [s] + rest, re) == EachChild(n.trailers, s, rest, re)
  {
    MatchStep(n, s, rest, re);
    SiblingsCompose(n, 0, s, rest, Scan([], false, s), re);
    assert n.trailers[0..] == n.trailers;
    var e := EachChild(n.trailers, s, rest, re);
    assert [] + e.routes == e.routes;
  }

  lemma {:induction false} SiblingsCompose(n: Routing, i: nat, s: string, rest: seq<string>, st: Scan, re: Regex)
    requires i <= |n.trailers| && st.segment == s
    requires Composable(n.trailers, s, rest, re)
    ensures var e := EachChild(n.trailers[i..], s, rest, re);
      Siblings(n, i, rest, st, re) == Scan(st.routes + e.routes, st.ok || e.ok, s)
    decreases |n.trailers| - i
  {
    var ts := n.trailers[i..];
    if i == |n.trailers| {
      assert ts == [];
      assert st.routes + [] == st.routes;
    } else {
      var t := n.trailers[i];
      assert ts[0] == t && ts[1..] == n.trailers[i + 1..];
      VisitAppends(t, rest, st, re);
      OnlyStep(t, s, rest, re);
      var u := Visit(t, rest, Scan([], false, s), re).state;
      var st' := Scan(st.routes + u.routes, st.ok || u.ok, s);
      assert Visit(t, rest, st, re) == Next(st');
      SiblingsCompose(n, i + 1, s, rest, st', re);
      var e' := EachChild(n.trailers[i + 1..], s, rest, re);
      assert st.routes + u.routes + e'.routes == st.routes + (u.routes + e'.routes);
    }
  }
}
