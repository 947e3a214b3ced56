/** routing.match: the recursive matcher. Given a node and the remaining
    path segments it returns every candidate route, in child order, and the
    `ok` flag the Go function returns. The sibling loop is modelled step by
    step (Siblings / Visit) because it carries three variables across
    children: the routes so far, the shared `ok` result and the `segment`
    variable, which the wildcard search reassigns. */
module Matcher {
  import opened Text
  import opened Segments
  import opened Filters
  import opened Tree

  /** One candidate route: parallel capture lists and the filters to try. */
  datatype Route = Route(keys: seq<string>, values: seq<string>, filters: seq<Filter>)

  /** match's two results. */
  datatype Matched = Matched(routes: seq<Route>, ok: bool)

  /** regexp.MatchString(pattern, segment); an invalid pattern answers false. */
  type Regex = (string, string) -> bool

  /** The variables of match's sibling loop. */
  datatype Scan = Scan(routes: seq<Route>, ok: bool, segment: string)

  /** What one child does to the sibling loop: carry on with a new state, or
      `break` out of the loop (router.go:95, 98, 130). */
  datatype Step = Next(state: Scan) | Break

  /** The outcome of the wildcard's peeling loop (router.go:61-73). */
  datatype Search = Found(k: nat, routes: seq<Route>) | Exhausted

  function Blanks(n: nat): (r: seq<string>)
  {
    seq(n, _ => "")
  }

  /** Each route gets k unnamed captures of the first k segments in front. */
  function PrefixAll(rs: seq<Route>, k: nat, full: seq<string>): (r: seq<Route>)
    requires k <= |full|
    ensures |r| == |rs|
  {
    seq(|rs|, j requires 0 <= j < |rs| => Route(Blanks(k) + rs[j].keys, full[..k] + rs[j].values, rs[j].filters))
  }

  /** Each route gets the capture (key, value) at the end. */
  function AppendAll(rs: seq<Route>, key: string, value: string): (r: seq<Route>)
    ensures |r| == |rs|
  {
    seq(|rs|, j requires 0 <= j < |rs| => Route(rs[j].keys + [key], rs[j].values + [value], rs[j].filters))
  }

  /** Each route gets the capture (key, value) in front. */
  function PrependAll(rs: seq<Route>, key: string, value: string): (r: seq<Route>)
    ensures |r| == |rs|
  {
    seq(|rs|, j requires 0 <= j < |rs| => Route([key] + rs[j].keys, [value] + rs[j].values, rs[j].filters))
  }

  function Match(n: Routing, path: seq<string>, re: Regex): (r: Matched)
    decreases n, 1, 0
  {
    if path == [] then
      var routes := OwnRoute(n) + OptionalRoutes(n.trailers);
      Matched(routes, |routes| > 0)
    else
      var s := Siblings(n, 0, path[1..], Scan([], false, path[0]), re);
      Matched(s.routes, s.ok)
  }

  /** On an empty path: the node's own filters, if any. */
  function OwnRoute(n: Routing): (r: seq<Route>)
  {
    if |n.filters| > 0 then [Route([], [], n.filters)] else []
  }

  /** On an empty path: one route per "?:" child that has filters. */
  function OptionalRoutes(ts: seq<Routing>): (r: seq<Route>)
  {
    if ts == [] then []
    else
      (if HasPrefix(ts[0].key, "?:") && |ts[0].filters| > 0 then [Route([], [], ts[0].filters)] else []) +
      OptionalRoutes(ts[1..])
  }

  /** The sibling loop of match from child i on. */
  function Siblings(n: Routing, i: nat, rest: seq<string>, st: Scan, re: Regex): (r: Scan)
    requires i <= |n.trailers|
    decreases n, 0, |n.trailers| - i
  {
    if i == |n.trailers| then st
    else
      match Visit(n.trailers[i], rest, st, re)
      case Break => st
      case Next(st') => Siblings(n, i + 1, rest, st', re)
  }

  /** One turn of the sibling loop, for child t; `rest` is the path after the
      segment the loop started with. The kind of child is read off its key in
      the order router.go tests it. */
  function Visit(t: Routing, rest: seq<string>, st: Scan, re: Regex): (r: Step)
    decreases t, 3, 0
  {
    if HasPrefix(t.key, "/") then Literal(t, rest, st, re)
    else if t.key == "*" then Wildcard(t, rest, st, re)
    else if HasPrefix(t.key, ":") then NamedChild(t, rest, st, re)
    else if HasPrefix(t.key, "?:") then OptionalChild(t, rest, st, re)
    else if HasPrefix(t.key, "(") && HasSuffix(t.key, ")") then RegexChild(t, rest, st, re)
    else Next(st)
  }

  /** "/lit": the segment must equal the literal; child routes pass through. */
  function Literal(t: Routing, rest: seq<string>, st: Scan, re: Regex): (r: Step)
    requires HasPrefix(t.key, "/")
    decreases t, 2, 0
  {
    if t.key[1..] == st.segment then
      var m := Match(t, rest, re);
      if m.ok then Next(Scan(st.routes + m.routes, true, st.segment)) else Next(st)
    else Next(st)
  }

  /** "*": a leaf takes the whole remaining path; a wildcard with children
      runs the peeling search, which overwrites `ok` and `segment`. */
  function Wildcard(t: Routing, rest: seq<string>, st: Scan, re: Regex): (r: Step)
    decreases t, 2, |rest| + 2
  {
    var segment := st.segment;
    if |t.trailers| > 0 then
      var full := [segment] + rest;
      match WildSearch(t, full, 0, re)
      case Found(k, rs) =>
        Next(Scan(st.routes + PrefixAll(rs, k, full), true, if k == 0 then segment else full[k - 1]))
      case Exhausted =>
        Next(Scan(st.routes, false, full[|full| - 1]))
    else
      Next(Scan(st.routes + [Route(Blanks(1 + |rest|), [segment] + rest, t.filters)], true, segment))
  }

  /** ":name" or ":name(re)": an empty or failing constraint breaks the loop. */
  function NamedChild(t: Routing, rest: seq<string>, st: Scan, re: Regex): (r: Step)
    requires HasPrefix(t.key, ":")
    decreases t, 2, 1
  {
    assert t.key[0] == ':';
    if Constrained(t.key) then
      var pattern := ConstraintPattern(t.key);
      if |pattern| == 0 || !re(pattern, st.segment) then Break
      else Named(t, ConstraintName(t.key), rest, st, re)
    else Named(t, t.key[1..], rest, st, re)
  }

  /** "?:name" or "?:name(re)": an empty constraint breaks the loop, a failing
      one leaves only the skipping branch. */
  function OptionalChild(t: Routing, rest: seq<string>, st: Scan, re: Regex): (r: Step)
    requires HasPrefix(t.key, "?:")
    decreases t, 2, 1
  {
    assert t.key[1] == ':';
    if Constrained(t.key) then
      var pattern := ConstraintPattern(t.key);
      if |pattern| == 0 then Break
      else if re(pattern, st.segment) then Optional(t, Some(ConstraintName(t.key)), rest, st, re)
      else Optional(t, None, rest, st, re)
    else Optional(t, Some(t.key[2..]), rest, st, re)
  }

  /** "(re)": the segment must satisfy the regex; an unnamed capture of it is
      put in front of every child route. */
  function RegexChild(t: Routing, rest: seq<string>, st: Scan, re: Regex): (r: Step)
    decreases t, 2, 0
  {
    if re(TrimParens(t.key), st.segment) then
      var m := Match(t, rest, re);
      if m.ok then Next(Scan(st.routes + PrependAll(m.routes, "", st.segment), true, st.segment)) else Next(st)
    else Next(st)
  }

  /** A named child that accepted the segment: its routes get (name, segment)
      appended, and `ok` is set once a route is added. */
  function Named(t: Routing, name: string, rest: seq<string>, st: Scan, re: Regex): (r: Step)
    decreases t, 2, 0
  {
    var m := Match(t, rest, re);
    if m.ok then Next(Scan(st.routes + AppendAll(m.routes, name, st.segment), st.ok || |m.routes| > 0, st.segment))
    else Next(st)
  }

  /** An optional child: the consuming branch (when `name` is given) and then
      the skipping branch, which matches the child against the unconsumed path. */
  function Optional(t: Routing, name: Option<string>, rest: seq<string>, st: Scan, re: Regex): (r: Step)
    decreases t, 2, 0
  {
    var consumed :=
      match name
      case None => st
      case Some(key) =>
        var m := Match(t, rest, re);
        if m.ok then Scan(st.routes + AppendAll(m.routes, key, st.segment), st.ok || |m.routes| > 0, st.segment)
        else st;
    var skip := Match(t, [st.segment] + rest, re);
    if skip.ok then Next(Scan(consumed.routes + skip.routes, true, consumed.segment)) else Next(consumed)
  }

  /** The peeling loop of a wildcard with children: try its children on
      full[k..], full[k+1..], ... and stop at the first success; the empty
      remainder is never tried. */
  function WildSearch(t: Routing, full: seq<string>, k: nat, re: Regex): (s: Search)
    requires k < |full|
    ensures s.Found? ==> k <= s.k < |full| && Match(t, full[s.k..], re) == Matched(s.routes, true)
    decreases t, 2, |full| - k
  {
    var m := Match(t, full[k..], re);
    if m.ok then Found(k, m.routes)
    else if k + 1 < |full| then WildSearch(t, full, k + 1, re)
    else Exhausted
  }
}
