/** What routing.match guarantees, and the places where it surprises. */
module MatchProps {
  import opened Text
  import opened Segments
  import opened Filters
  import opened Tree
  import opened Matcher

  /** A route's captures pair up, number at most the path's segments and only
      hold segments of the path. */
  ghost predicate Captures(r: Route, path: seq<string>)
  {
    |r.keys| == |r.values| <= |path| && forall j :: 0 <= j < |r.values| ==> r.values[j] in path
  }

  ghost predicate Sound(routes: seq<Route>, ok: bool, path: seq<string>)
  {
    (ok ==> |routes| > 0) && forall j :: 0 <= j < |routes| ==> Captures(routes[j], path)
  }

  ghost predicate SoundScan(st: Scan, full: seq<string>)
  {
    st.segment in full && Sound(st.routes, st.ok, full)
  }

  /** Every route match returns has as many capture keys as values, at most
      one capture per path segment, and only path segments as values; and
      `ok` is only ever true together with at least one route. */
  lemma {:induction false} MatchSound(n: Routing, path: seq<string>, re: Regex)
    ensures Sound(Match(n, path, re).routes, Match(n, path, re).ok, path)
    decreases n, 1, 0
  {
    if path == [] {
      OptionalRoutesBare(n.trailers);
    } else {
      SiblingsSound(n, 0, path, Scan([], false, path[0]), re);
    }
  }

  lemma {:induction false} OptionalRoutesBare(ts: seq<Routing>)
    ensures forall j :: 0 <= j < |OptionalRoutes(ts)| ==>
      OptionalRoutes(ts)[j].keys == [] && OptionalRoutes(ts)[j].values == []
  {
    if ts != [] {
      OptionalRoutesBare(ts[1..]);
    }
  }

  lemma {:induction false} SiblingsSound(n: Routing, i: nat, full: seq<string>, st: Scan, re: Regex)
    requires |full| > 0 && i <= |n.trailers| && SoundScan(st, full)
    ensures SoundScan(Siblings(n, i, full[1..], st, re), full)
    decreases n, 0, |n.trailers| - i
  {
    if i < |n.trailers| {
      VisitSound(n.trailers[i], full, st, re);
      match Visit(n.trailers[i], full[1..], st, re)
      case Break =>
      case Next(st') => SiblingsSound(n, i + 1, full, st', re);
    }
  }

  /** Routes sound for a path are sound for any path at least as long that
      holds all its segments. */
  lemma Widen(routes: seq<Route>, ok: bool, p: seq<string>, q: seq<string>)
    requires Sound(routes, ok, p) && |p| <= |q| && forall x :: x in p ==> x in q
    ensures Sound(routes, ok, q)
  {
  }

  lemma {:induction false} VisitSound(t: Routing, full: seq<string>, st: Scan, re: Regex)
    requires |full| > 0 && SoundScan(st, full)
    ensures Visit(t, full[1..], st, re).Next? ==> SoundScan(Visit(t, full[1..], st, re).state, full)
    decreases t, 3, 0
  {
    var rest := full[1..];
    if HasPrefix(t.key, "/") {
      MatchSound(t, rest, re);
      Widen(Match(t, rest, re).routes, Match(t, rest, re).ok, rest, full);
    } else if t.key == "*" {
      WildcardSound(t, full, st, re);
    } else if HasPrefix(t.key, ":") {
      assert t.key[0] == ':';
      var name := if Constrained(t.key) then ConstraintName(t.key) else t.key[1..];
      NamedSound(t, name, full, st, re);
    } else if HasPrefix(t.key, "?:") {
      assert t.key[1] == ':';
      if Constrained(t.key) {
        OptionalSound(t, Some(ConstraintName(t.key)), full, st, re);
        OptionalSound(t, None, full, st, re);
      } else {
        OptionalSound(t, Some(t.key[2..]), full, st, re);
      }
    } else if HasPrefix(t.key, "(") && HasSuffix(t.key, ")") {
      RegexSound(t, full, st, re);
    }
  }

  lemma {:induction false} WildcardSound(t: Routing, full: seq<string>, st: Scan, re: Regex)
    requires |full| > 0 && SoundScan(st, full)
    ensures SoundScan(Wildcard(t, full[1..], st, re).state, full)
    decreases t, 2, |full| + 1
  {
    var segment, rest := st.segment, full[1..];
    var full' := [segment] + rest;
    assert forall x :: x in full' ==> x in full;
    if |t.trailers| > 0 {
      WildSound(t, full', 0, re);
      match WildSearch(t, full', 0, re)
      case Found(k, rs) =>
        var ps := PrefixAll(rs, k, full');
        forall j | 0 <= j < |ps| ensures Captures(ps[j], full) {
          assert ps[j].values == full'[..k] + rs[j].values;
          assert Captures(rs[j], full'[k..]);
          forall x | x in ps[j].values ensures x in full {
            if x in full'[..k] { assert x in full'; } else { assert x in full'[k..]; }
          }
        }
      case Exhausted =>
    } else {
      var r := Route(Blanks(1 + |rest|), [segment] + rest, t.filters);
      assert forall x :: x in rest ==> x in full;
      assert Captures(r, full);
    }
  }

  lemma {:induction false} RegexSound(t: Routing, full: seq<string>, st: Scan, re: Regex)
    requires |full| > 0 && SoundScan(st, full)
    ensures SoundScan(RegexChild(t, full[1..], st, re).state, full)
    decreases t, 2, 0
  {
    var rest := full[1..];
    MatchSound(t, rest, re);
    var m := Match(t, rest, re);
    var ps := PrependAll(m.routes, "", st.segment);
    forall j | 0 <= j < |ps| ensures Captures(ps[j], full) {
      assert Captures(m.routes[j], rest);
      assert ps[j].values == [st.segment] + m.routes[j].values;
      assert forall x :: x in rest ==> x in full;
    }
  }

  lemma {:induction false} NamedSound(t: Routing, name: string, full: seq<string>, st: Scan, re: Regex)
    requires |full| > 0 && SoundScan(st, full)
    ensures SoundScan(Named(t, name, full[1..], st, re).state, full)
    decreases t, 2, 0
  {
    var rest := full[1..];
    MatchSound(t, rest, re);
    var m := Match(t, rest, re);
    var ps := AppendAll(m.routes, name, st.segment);
    forall j | 0 <= j < |ps| ensures Captures(ps[j], full) {
      assert Captures(m.routes[j], rest);
      assert ps[j].values == m.routes[j].values + [st.segment];
      assert forall x :: x in rest ==> x in full;
    }
  }

  lemma {:induction false} OptionalSound(t: Routing, name: Option<string>, full: seq<string>, st: Scan, re: Regex)
    requires |full| > 0 && SoundScan(st, full)
    ensures SoundScan(Optional(t, name, full[1..], st, re).state, full)
    decreases t, 2, 1
  {
    var rest := full[1..];
    var full' := [st.segment] + rest;
    assert forall x :: x in full' ==> x in full;
    MatchSound(t, full', re);
    Widen(Match(t, full', re).routes, Match(t, full', re).ok, full', full);
    if name.Some? {
      NamedSound(t, name.value, full, st, re);
      assert Named(t, name.value, rest, st, re).state ==
        (var m := Match(t, rest, re);
         if m.ok then Scan(st.routes + AppendAll(m.routes, name.value, st.segment), st.ok || |m.routes| > 0, st.segment)
         else st);
    }
  }

  lemma {:induction false} WildSound(t: Routing, full: seq<string>, k: nat, re: Regex)
    requires k < |full|
    ensures var s := WildSearch(t, full, k, re);
      s.Found? ==> |s.routes| > 0 && forall j :: 0 <= j < |s.routes| ==> Captures(s.routes[j], full[s.k..])
    decreases t, 2, |full| - k
  {
    MatchSound(t, full[k..], re);
    if !Match(t, full[k..], re).ok && k + 1 < |full| {
      WildSound(t, full, k + 1, re);
    }
  }
}
