/** routing.match child kind by child kind, on a node with a single child,
    and the concrete trees that show its quirks. */
module MatchCases {
  import opened Text
  import opened Segments
  import opened Filters
  import opened Tree
  import opened Matcher
  import opened MatchProps

  /** A parent whose only child is t. */
  function Only(t: Routing): (r: Routing)
  {
    Routing("", [], [t])
  }

  /** Matching below a single child is one turn of the sibling loop. */
  lemma OnlyStep(t: Routing, s: string, rest: seq<string>, re: Regex)
    ensures Match(Only(t), [s] + rest, re) ==
      match Visit(t, rest, Scan([], false, s), re)
      case Break => Matched([], false)
      case Next(st) => Matched(st.routes, st.ok)
  {
    assert ([s] + rest)[1..] == rest;
    var n := Only(t);
    assert Match(n, [s] + rest, re) == var r := Siblings(n, 0, rest, Scan([], false, s), re); Matched(r.routes, r.ok);
    match Visit(t, rest, Scan([], false, s), re)
    case Break =>
    case Next(st) => assert Siblings(n, 1, rest, st, re) == st;
  }

  /** The dispatch tests of the sibling loop, for a key starting with c. */
  lemma KeyKind(key: string, c: char)
    requires |key| > 0 && key[0] == c
    ensures HasPrefix(key, "/") <==> c == '/'
    ensures HasPrefix(key, ":") <==> c == ':'
    ensures HasPrefix(key, "(") <==> c == '('
    ensures HasPrefix(key, "?:") ==> c == '?'
    ensures key == "*" ==> c == '*'
  {
    assert key[..1] == [c];
    if HasPrefix(key, "?:") {
      assert key[..2][0] == key[0];
    }
  }

  /** The children with their own children cut off. */
  function Shallow(ts: seq<Routing>): (r: seq<Routing>)
    ensures |r| == |ts|
  {
    seq(|ts|, j requires 0 <= j < |ts| => Routing(ts[j].key, ts[j].filters, []))
  }

  /** A "?:" child that has filters of its own. */
  predicate OptionalWithFilters(t: Routing)
  {
    HasPrefix(t.key, "?:") && |t.filters| > 0
  }

  /** On an empty path match reports the node's own filters first, then one
      route per optional child with filters, in child order, none with
      captures; it succeeds exactly when there is one, and it never looks
      below the children. */
  lemma EmptyPath(n: Routing, re: Regex)
    ensures var m := Match(n, [], re);
      (m.ok <==> |n.filters| > 0 || exists j :: 0 <= j < |n.trailers| && OptionalWithFilters(n.trailers[j])) &&
      (forall r :: r in m.routes ==> r.keys == [] && r.values == []) &&
      (|n.filters| > 0 ==> m.routes[0] == Route([], [], n.filters)) &&
      (var own := if |n.filters| > 0 then 1 else 0;
       own <= |m.routes| && exists idx :: OptionalRoutesIn(m.routes[own..], n.trailers, idx)) &&
      m == Match(Routing(n.key, n.filters, Shallow(n.trailers)), [], re)
  {
    var routes := OwnRoute(n) + OptionalRoutes(n.trailers);
    assert Match(n, [], re) == Matched(routes, |routes| > 0);
    assert Match(Routing(n.key, n.filters, Shallow(n.trailers)), [], re) == Match(n, [], re) by {
      OptionalRoutesShallow(n.trailers);
    }
    EmptyPathRoutes(n);
    var idx := OptionalRoutesOrder(n.trailers);
    var own := if |n.filters| > 0 then 1 else 0;
    assert routes[own..] == OptionalRoutes(n.trailers);
  }

  /** `rs` holds one route per "?:" child of `ts` that has filters, and no
      other: route i comes from child idx[i], the indices increase, and every
      such child has its route. */
  predicate OptionalRoutesIn(rs: seq<Route>, ts: seq<Routing>, idx: seq<nat>)
  {
    RoutesFrom(rs, ts, idx) && Increasing(idx) && Covers(idx, ts, 0)
  }

  /** Route i is the bare route of child idx[i], a "?:" child with filters. */
  predicate RoutesFrom(rs: seq<Route>, ts: seq<Routing>, idx: seq<nat>)
  {
    |idx| == |rs| &&
    forall i :: 0 <= i < |idx| ==>
      idx[i] < |ts| && OptionalWithFilters(ts[idx[i]]) && rs[i] == Route([], [], ts[idx[i]].filters)
  }

  predicate Increasing(idx: seq<nat>)
  {
    forall i, k :: 0 <= i < k < |idx| ==> idx[i] < idx[k]
  }

  /** Every "?:" child with filters from position `from` on is listed. */
  predicate Covers(idx: seq<nat>, ts: seq<Routing>, from: nat)
  {
    forall j :: from <= j < |ts| && OptionalWithFilters(ts[j]) ==> j in idx
  }

  /** The optional routes of an empty path come one per "?:" child with
      filters, in child order. */
  lemma {:induction false} OptionalRoutesOrder(ts: seq<Routing>) returns (idx: seq<nat>)
    ensures OptionalRoutesIn(OptionalRoutes(ts), ts, idx)
  {
    if ts == [] {
      idx := [];
    } else {
      var rs' := OptionalRoutes(ts[1..]);
      var tail := OptionalRoutesOrder(ts[1..]);
      var shifted := Shift(tail);
      ShiftRoutes(ts, rs', tail);
      ShiftIncreasing(tail);
      ShiftCovers(ts, tail);
      if OptionalWithFilters(ts[0]) {
        idx := [0] + shifted;
        ConsRoutes(ts, rs', shifted);
      } else {
        assert OptionalRoutes(ts) == rs';
        idx := shifted;
        assert Covers(idx, ts, 0) by {
          assert !OptionalWithFilters(ts[0]);
        }
      }
    }
  }

  /** Every index raised by one. */
  function Shift(tail: seq<nat>): (r: seq<nat>)
  {
    seq(|tail|, i requires 0 <= i < |tail| => tail[i] + 1)
  }

  lemma ShiftRoutes(ts: seq<Routing>, rs: seq<Route>, tail: seq<nat>)
    requires ts != [] && RoutesFrom(rs, ts[1..], tail)
    ensures RoutesFrom(rs, ts, Shift(tail))
    ensures forall i :: 0 <= i < |tail| ==> 1 <= Shift(tail)[i]
  {
    var shifted := Shift(tail);
    forall i | 0 <= i < |shifted|
      ensures shifted[i] < |ts| && OptionalWithFilters(ts[shifted[i]]) && rs[i] == Route([], [], ts[shifted[i]].filters)
    {
      assert ts[shifted[i]] == ts[1..][tail[i]];
    }
  }

  lemma ShiftIncreasing(tail: seq<nat>)
    requires Increasing(tail)
    ensures Increasing(Shift(tail))
  {
  }

  lemma ShiftCovers(ts: seq<Routing>, tail: seq<nat>)
    requires ts != [] && Covers(tail, ts[1..], 0)
    ensures Covers(Shift(tail), ts, 1)
  {
    var shifted := Shift(tail);
    forall j | 1 <= j < |ts| && OptionalWithFilters(ts[j]) ensures j in shifted {
      assert ts[1..][j - 1] == ts[j];
      assert j - 1 in tail;
      var i :| 0 <= i < |tail| && tail[i] == j - 1;
      assert shifted[i] == j;
    }
  }

  /** A first child with filters puts its route, with index 0, in front. */
  lemma ConsRoutes(ts: seq<Routing>, rs: seq<Route>, shifted: seq<nat>)
    requires ts != [] && OptionalWithFilters(ts[0]) && rs == OptionalRoutes(ts[1..])
    requires RoutesFrom(rs, ts, shifted) && Increasing(shifted) && Covers(shifted, ts, 1)
    requires forall i :: 0 <= i < |shifted| ==> 1 <= shifted[i]
    ensures OptionalRoutesIn(OptionalRoutes(ts), ts, [0] + shifted)
  {
    var all := OptionalRoutes(ts);
    assert all == [Route([], [], ts[0].filters)] + rs;
    ConsRoutesFrom(ts, rs, shifted);
    ConsIncreasing(shifted);
    ConsCovers(ts, shifted);
  }

  lemma ConsRoutesFrom(ts: seq<Routing>, rs: seq<Route>, shifted: seq<nat>)
    requires ts != [] && OptionalWithFilters(ts[0]) && RoutesFrom(rs, ts, shifted)
    ensures RoutesFrom([Route([], [], ts[0].filters)] + rs, ts, [0] + shifted)
  {
    var all, idx := [Route([], [], ts[0].filters)] + rs, [0] + shifted;
    forall i | 0 < i < |idx|
      ensures idx[i] < |ts| && OptionalWithFilters(ts[idx[i]]) && all[i] == Route([], [], ts[idx[i]].filters)
    {
      assert all[i] == rs[i - 1] && idx[i] == shifted[i - 1];
    }
  }

  lemma ConsIncreasing(shifted: seq<nat>)
    requires Increasing(shifted) && forall i :: 0 <= i < |shifted| ==> 1 <= shifted[i]
    ensures Increasing([0] + shifted)
  {
    var idx := [0] + shifted;
    forall i, k | 0 <= i < k < |idx| ensures idx[i] < idx[k] {
      assert idx[k] == shifted[k - 1];
      if i > 0 { assert idx[i] == shifted[i - 1]; }
    }
  }

  lemma ConsCovers(ts: seq<Routing>, shifted: seq<nat>)
    requires Covers(shifted, ts, 1)
    ensures Covers([0] + shifted, ts, 0)
  {
    forall j | 0 <= j < |ts| && OptionalWithFilters(ts[j]) ensures j in [0] + shifted {
      if j > 0 { assert j in shifted; }
    }
  }

  /** The routes of an empty path, as EmptyPath describes them. */
  lemma EmptyPathRoutes(n: Routing)
    ensures var routes := OwnRoute(n) + OptionalRoutes(n.trailers);
      (|routes| > 0 <==> |n.filters| > 0 || exists j :: 0 <= j < |n.trailers| && OptionalWithFilters(n.trailers[j])) &&
      (forall r :: r in routes ==> r.keys == [] && r.values == []) &&
      (|n.filters| > 0 ==> routes[0] == Route([], [], n.filters))
  {
    var routes := OwnRoute(n) + OptionalRoutes(n.trailers);
    OptionalRoutesBare(n.trailers);
    OptionalRoutesSpec(n.trailers);
    var opt := OptionalRoutes(n.trailers);
    if |opt| > 0 {
      assert opt[0] in opt;
    }
    if exists j :: 0 <= j < |n.trailers| && OptionalWithFilters(n.trailers[j]) {
      var j :| 0 <= j < |n.trailers| && OptionalWithFilters(n.trailers[j]);
      assert Route([], [], n.trailers[j].filters) in opt;
    }
    forall r | r in routes ensures r.keys == [] && r.values == [] {
      if r !in OwnRoute(n) {
        var j :| 0 <= j < |opt| && opt[j] == r;
      }
    }
  }

  lemma {:induction false} OptionalRoutesSpec(ts: seq<Routing>)
    ensures forall r :: r in OptionalRoutes(ts) <==>
      exists j :: 0 <= j < |ts| && OptionalWithFilters(ts[j]) && r == Route([], [], ts[j].filters)
  {
    if ts != [] {
      OptionalRoutesSpec(ts[1..]);
      forall r | r in OptionalRoutes(ts)
        ensures exists j :: 0 <= j < |ts| && OptionalWithFilters(ts[j]) && r == Route([], [], ts[j].filters)
      {
        if r !in OptionalRoutes(ts[1..]) {
          assert OptionalWithFilters(ts[0]) && r == Route([], [], ts[0].filters);
        } else {
          var j :| 0 <= j < |ts[1..]| && OptionalWithFilters(ts[1..][j]) && r == Route([], [], ts[1..][j].filters);
          assert ts[1..][j] == ts[j + 1];
        }
      }
      forall r, j | 0 <= j < |ts| && OptionalWithFilters(ts[j]) && r == Route([], [], ts[j].filters)
        ensures r in OptionalRoutes(ts)
      {
        if j > 0 {
          assert ts[1..][j - 1] == ts[j];
        }
      }
    }
  }

  lemma {:induction false} OptionalRoutesShallow(ts: seq<Routing>)
    ensures OptionalRoutes(Shallow(ts)) == OptionalRoutes(ts)
  {
    if ts != [] {
      OptionalRoutesShallow(ts[1..]);
      assert Shallow(ts)[1..] == Shallow(ts[1..]);
    }
  }

  /** A literal child contributes exactly when its key without the '/' is the
      segment, and then passes its routes through unchanged. */
  lemma LiteralChild(t: Routing, s: string, rest: seq<string>, re: Regex)
    requires HasPrefix(t.key, "/")
    ensures Match(Only(t), [s] + rest, re) ==
      if t.key[1..] == s && Match(t, rest, re).ok then Match(t, rest, re) else Matched([], false)
  {
    OnlyStep(t, s, rest, re);
    assert [] + Match(t, rest, re).routes == Match(t, rest, re).routes;
  }

  /** A "*" leaf takes the whole remaining path as unnamed captures, and
      succeeds even when it has no filters. */
  lemma WildcardLeaf(fs: seq<Filter>, path: seq<string>, re: Regex)
    requires path != []
    ensures Match(Only(Routing("*", fs, [])), path, re) ==
      Matched([Route(Blanks(|path|), path, fs)], true)
  {
    var t, rest := Routing("*", fs, []), path[1..];
    assert [path[0]] + rest == path;
    assert 1 + |rest| == |path|;
    OnlyStep(t, path[0], rest, re);
    LeafVisit(fs, path[0], rest, re);
  }

  lemma LeafVisit(fs: seq<Filter>, s: string, rest: seq<string>, re: Regex)
    ensures Visit(Routing("*", fs, []), rest, Scan([], false, s), re) ==
      Next(Scan([Route(Blanks(1 + |rest|), [s] + rest, fs)], true, s))
  {
    var t, st := Routing("*", fs, []), Scan([], false, s);
    var r := [Route(Blanks(1 + |rest|), [s] + rest, fs)];
    KeyKind(t.key, '*');
    assert Visit(t, rest, st, re) == Wildcard(t, rest, st, re);
    assert [] + r == r;
  }

  /** The peeling search finds the least k from which the children match the
      remainder full[k..]. */
  lemma {:induction false} WildSearchLeast(t: Routing, full: seq<string>, k: nat, re: Regex)
    requires k < |full|
    ensures var s := WildSearch(t, full, k, re);
      s.Found? ==> forall j :: k <= j < s.k ==> !Match(t, full[j..], re).ok
    decreases |full| - k
  {
    if !Match(t, full[k..], re).ok && k + 1 < |full| {
      assert WildSearch(t, full, k, re) == WildSearch(t, full, k + 1, re);
      WildSearchLeast(t, full, k + 1, re);
    }
  }

  /** The peeling search gives up only when no remainder full[j..] from k on
      is matched by the children. */
  lemma {:induction false} WildSearchExhausted(t: Routing, full: seq<string>, k: nat, re: Regex)
    requires k < |full|
    ensures WildSearch(t, full, k, re).Exhausted? ==> forall j :: k <= j < |full| ==> !Match(t, full[j..], re).ok
    decreases |full| - k
  {
    if !Match(t, full[k..], re).ok && k + 1 < |full| {
      assert WildSearch(t, full, k, re) == WildSearch(t, full, k + 1, re);
      WildSearchExhausted(t, full, k + 1, re);
    }
  }

  /** Below a single "*" child, match is the peeling search on the whole path. */
  lemma WildcardStep(t: Routing, path: seq<string>, re: Regex)
    requires t.key == "*" && |t.trailers| > 0 && path != []
    ensures Match(Only(t), path, re) ==
      match WildSearch(t, path, 0, re)
      case Found(k, rs) => Matched(PrefixAll(rs, k, path), true)
      case Exhausted => Matched([], false)
  {
    var rest := path[1..];
    assert [path[0]] + rest == path;
    OnlyStep(t, path[0], rest, re);
    var st := Scan([], false, path[0]);
    KeyKind(t.key, '*');
    assert Visit(t, rest, st, re) == Wildcard(t, rest, st, re);
    match WildSearch(t, path, 0, re)
    case Found(k, rs) =>
      assert [] + PrefixAll(rs, k, path) == PrefixAll(rs, k, path);
      assert Wildcard(t, rest, st, re).state.routes == PrefixAll(rs, k, path);
      assert Wildcard(t, rest, st, re).state.ok;
    case Exhausted =>
  }

  /** A "*" with children consumes the fewest leading segments k after which
      the children match, never the whole path, puts k unnamed captures of
      those segments in front of every child route, and ignores its own filters. */
  lemma WildcardChild(t: Routing, path: seq<string>, re: Regex)
    requires t.key == "*" && |t.trailers| > 0 && path != []
    ensures var m := Match(Only(t), path, re);
      (m.ok <==> exists j :: 0 <= j < |path| && Match(t, path[j..], re).ok) &&
      (m.ok ==> exists k :: 0 <= k < |path| && Match(t, path[k..], re).ok &&
                  (forall j :: 0 <= j < k ==> !Match(t, path[j..], re).ok) &&
                  m.routes == PrefixAll(Match(t, path[k..], re).routes, k, path))
  {
    WildcardStep(t, path, re);
    WildSearchLeast(t, path, 0, re);
    WildSearchExhausted(t, path, 0, re);
    match WildSearch(t, path, 0, re)
    case Found(k, rs) =>
      assert Match(t, path[k..], re).routes == rs;
    case Exhausted =>
  }

  /** A ":name" child appends (name, segment) to every route of its children. */
  lemma NamedCapture(t: Routing, s: string, rest: seq<string>, re: Regex)
    requires HasPrefix(t.key, ":") && !Constrained(t.key)
    ensures var m := Match(t, rest, re);
      Match(Only(t), [s] + rest, re) ==
        if m.ok then Matched(AppendAll(m.routes, t.key[1..], s), true) else Matched([], false)
  {
    OnlyStep(t, s, rest, re);
    MatchSound(t, rest, re);
    KeyKind(t.key, ':');
    var st, m := Scan([], false, s), Match(t, rest, re);
    assert Visit(t, rest, st, re) == Named(t, t.key[1..], rest, st, re);
    assert [] + AppendAll(m.routes, t.key[1..], s) == AppendAll(m.routes, t.key[1..], s);
  }

  /** A ":name(re)" child whose constraint passes behaves as ":name"; an empty
      or failing constraint gives nothing. */
  lemma ConstrainedCapture(t: Routing, s: string, rest: seq<string>, re: Regex)
    requires HasPrefix(t.key, ":") && Constrained(t.key)
    ensures var m, p := Match(t, rest, re), ConstraintPattern(t.key);
      Match(Only(t), [s] + rest, re) ==
        if p != "" && re(p, s) && m.ok then Matched(AppendAll(m.routes, ConstraintName(t.key), s), true)
        else Matched([], false)
  {
    OnlyStep(t, s, rest, re);
    MatchSound(t, rest, re);
    KeyKind(t.key, ':');
    var st, m, p := Scan([], false, s), Match(t, rest, re), ConstraintPattern(t.key);
    assert Visit(t, rest, st, re) == NamedChild(t, rest, st, re);
    if p != "" && re(p, s) {
      assert NamedChild(t, rest, st, re) == Named(t, ConstraintName(t.key), rest, st, re);
      assert [] + AppendAll(m.routes, ConstraintName(t.key), s) == AppendAll(m.routes, ConstraintName(t.key), s);
    }
  }

  /** A "?:name" child yields the consuming branch, with (name, segment)
      appended, followed by the skipping branch, which matches its children
      against the unconsumed path and adds no capture. */
  lemma OptionalCapture(t: Routing, s: string, rest: seq<string>, re: Regex)
    requires HasPrefix(t.key, "?:") && !Constrained(t.key)
    ensures var m, skip := Match(t, rest, re), Match(t, [s] + rest, re);
      Match(Only(t), [s] + rest, re) ==
        Matched((if m.ok then AppendAll(m.routes, t.key[2..], s) else []) + (if skip.ok then skip.routes else []),
                m.ok || skip.ok)
  {
    OnlyStep(t, s, rest, re);
    MatchSound(t, rest, re);
    assert t.key[..2][0] == '?';
    KeyKind(t.key, '?');
    var st, m, skip := Scan([], false, s), Match(t, rest, re), Match(t, [s] + rest, re);
    assert Visit(t, rest, st, re) == Optional(t, Some(t.key[2..]), rest, st, re);
    assert [] + AppendAll(m.routes, t.key[2..], s) == AppendAll(m.routes, t.key[2..], s);
    assert [] + skip.routes == skip.routes;
  }

  /** A "?:name(re)" child with a non-empty pattern: the consuming branch, with
      (name, segment) appended, only when the regex accepts the segment; the
      skipping branch in any case. */
  lemma OptionalConstrainedCapture(t: Routing, s: string, rest: seq<string>, re: Regex)
    requires HasPrefix(t.key, "?:") && Constrained(t.key) && ConstraintPattern(t.key) != ""
    ensures assert t.key[..2][1] == ':'; var m, skip, p := Match(t, rest, re), Match(t, [s] + rest, re), ConstraintPattern(t.key);
      Match(Only(t), [s] + rest, re) ==
        Matched((if re(p, s) && m.ok then AppendAll(m.routes, ConstraintName(t.key), s) else []) +
                (if skip.ok then skip.routes else []),
                (re(p, s) && m.ok) || skip.ok)
    ensures forall st: Scan :: Visit(t, rest, st, re).Next?
  {
    OnlyStep(t, s, rest, re);
    MatchSound(t, rest, re);
    assert t.key[..2][0] == '?';
    KeyKind(t.key, '?');
    var st, m, skip := Scan([], false, s), Match(t, rest, re), Match(t, [s] + rest, re);
    assert t.key[..2][1] == ':';
    var p, name := ConstraintPattern(t.key), ConstraintName(t.key);
    assert [] + skip.routes == skip.routes;
    if re(p, s) {
      assert Visit(t, rest, st, re) == Optional(t, Some(name), rest, st, re);
      assert [] + AppendAll(m.routes, name, s) == AppendAll(m.routes, name, s);
    } else {
      assert Visit(t, rest, st, re) == Optional(t, None, rest, st, re);
    }
    forall st': Scan ensures Visit(t, rest, st', re).Next? {
      if re(p, st'.segment) {
        assert Visit(t, rest, st', re) == Optional(t, Some(name), rest, st', re);
      } else {
        assert Visit(t, rest, st', re) == Optional(t, None, rest, st', re);
      }
    }
  }

  /** A "(re)" child puts ("", segment) in front of every route of its
      children when the segment satisfies the regex. */
  lemma RegexCapture(t: Routing, s: string, rest: seq<string>, re: Regex)
    requires HasPrefix(t.key, "(") && HasSuffix(t.key, ")")
    ensures var m := Match(t, rest, re);
      Match(Only(t), [s] + rest, re) ==
        if re(TrimParens(t.key), s) && m.ok then Matched(PrependAll(m.routes, "", s), true) else Matched([], false)
  {
    OnlyStep(t, s, rest, re);
    assert t.key[..1][0] == '(';
    KeyKind(t.key, '(');
    var st, m := Scan([], false, s), Match(t, rest, re);
    assert Visit(t, rest, st, re) == RegexChild(t, rest, st, re);
    assert [] + PrependAll(m.routes, "", s) == PrependAll(m.routes, "", s);
  }

  /** Match on a non-empty path runs the sibling loop from the first child. */
  lemma MatchStep(n: Routing, s: string, rest: seq<string>, re: Regex)
    ensures Match(n, [s] + rest, re) ==
      var r := Siblings(n, 0, rest, Scan([], false, s), re); Matched(r.routes, r.ok)
  {
    assert ([s] + rest)[1..] == rest;
  }

  /** A failing ":name(re)" constraint stops the sibling loop: the literal
      sibling after it, which matches on its own, is never tried. */
  lemma BreakHidesLaterSiblings(f: Filter, g: Filter, re: Regex)
    requires !re("x", "s")
    ensures var literal := Routing("/s", [g], []);
      Match(Routing("", [], [Routing(":id(x)", [], [Routing("*", [f], [])]), literal]), ["s"], re) == Matched([], false) &&
      Match(Only(literal), ["s"], re) == Matched([Route([], [], [g])], true)
  {
    var key := ":id(x)";
    var named, literal := Routing(key, [], [Routing("*", [f], [])]), Routing("/s", [g], []);
    var n := Routing("", [], [named, literal]);
    var st := Scan([], false, "s");
    assert key[3] == '(' && key[..3] == ":id";
    assert IndexOf(key, '(') == 3 by {
      assert forall j :: 0 <= j < 3 ==> key[j] != '(';
    }
    assert key[4..5] == "x";
    assert ConstraintPattern(key) == "x";
    KeyKind(key, ':');
    assert Visit(named, [], st, re) == Break;
    assert Siblings(n, 0, [], st, re) == st;
    assert ["s"] == ["s"] + [];
    MatchStep(n, "s", [], re);
    OnlyStep(literal, "s", [], re);
    assert literal.key[1..] == "s";
    assert Match(literal, [], re) == Matched([Route([], [], [g])], true);
  }

  /** An empty constraint "()" stops the sibling loop whatever the regex says. */
  lemma EmptyConstraintBreaks(f: Filter, g: Filter, re: Regex)
    ensures Match(Routing("", [], [Routing("?:id()", [f], []), Routing("/s", [g], [])]), ["s"], re) == Matched([], false)
  {
    var key := "?:id()";
    var optional := Routing(key, [f], []);
    var n := Routing("", [], [optional, Routing("/s", [g], [])]);
    var st := Scan([], false, "s");
    assert key[4] == '(' && key[..4] == "?:id";
    assert IndexOf(key, '(') == 4 by {
      assert forall j :: 0 <= j < 4 ==> key[j] != '(';
    }
    assert ConstraintPattern(key) == "";
    KeyKind(key, '?');
    assert key[..2] == "?:";
    assert Visit(optional, [], st, re) == Break;
    assert Siblings(n, 0, [], st, re) == st;
    assert ["s"] == ["s"] + [];
    MatchStep(n, "s", [], re);
  }

  /** A wildcard whose search fails resets the shared `ok` flag: a route found
      by an earlier sibling is returned with ok false. */
  lemma WildcardResetsOk(f: Filter, g: Filter, re: Regex)
    ensures Match(Routing("", [], [Routing("/a", [f], []), Routing("*", [], [Routing("/b", [g], [])])]), ["a"], re)
      == Matched([Route([], [], [f])], false)
  {
    var b := Routing("/b", [g], []);
    var literal, wild := Routing("/a", [f], []), Routing("*", [], [b]);
    var n := Routing("", [], [literal, wild]);
    var st0 := Scan([], false, "a");
    var st1 := Scan([Route([], [], [f])], true, "a");
    var st2 := Scan([Route([], [], [f])], false, "a");
    assert ["a"] == ["a"] + [];
    assert literal.key[1..] == "a" && b.key[1..] == "b";
    assert Match(literal, [], re) == Matched([Route([], [], [f])], true);
    assert Visit(literal, [], st0, re) == Next(st1);
    assert b.key[..1] == "/";
    assert Visit(b, [], st0, re) == Next(st0);
    assert Siblings(wild, 0, [], st0, re) == st0;
    MatchStep(wild, "a", [], re);
    assert Match(wild, ["a"], re) == Matched([], false);
    assert WildSearch(wild, ["a"], 0, re) == Exhausted;
    KeyKind(wild.key, '*');
    assert Visit(wild, [], st1, re) == Next(st2);
    assert Siblings(n, 2, [], st2, re) == st2;
    assert Siblings(n, 1, [], st1, re) == st2;
    assert Siblings(n, 0, [], st0, re) == st2;
    MatchStep(n, "a", [], re);
  }

  /** A wildcard whose search fails leaves the last path segment in the loop's
      `segment` variable, so a later ":name" sibling captures that segment
      instead of the first one. */
  lemma WildcardMovesSegment(f: Filter, g: Filter, re: Regex)
    ensures Match(Routing("", [], [Routing("*", [], [Routing("/z", [f], [])]), Routing(":name", [], [Routing("*", [g], [])])]),
                  ["a", "b"], re)
      == Matched([Route(["", "name"], ["b", "b"], [g])], true)
  {
    var z := Routing("/z", [f], []);
    var wild, named := Routing("*", [], [z]), Routing(":name", [], [Routing("*", [g], [])]);
    var n := Routing("", [], [wild, named]);
    var path: seq<string> := ["a", "b"];
    assert path == ["a"] + ["b"] && path[1..] == ["b"] && ["b"] == ["b"] + [];
    assert z.key[1..] == "z";
    var st0, st1 := Scan([], false, "a"), Scan([], false, "b");
    var st2 := Scan([Route(["", "name"], ["b", "b"], [g])], true, "b");
    assert z.key[..1] == "/";
    assert Visit(z, ["b"], st0, re) == Next(st0);
    assert Siblings(wild, 0, ["b"], st0, re) == st0;
    MatchStep(wild, "a", ["b"], re);
    assert Visit(z, [], st1, re) == Next(st1);
    assert Siblings(wild, 0, [], st1, re) == st1;
    MatchStep(wild, "b", [], re);
    assert Match(wild, path, re) == Matched([], false);
    assert Match(wild, path[1..], re) == Matched([], false);
    assert WildSearch(wild, path, 1, re) == Exhausted;
    assert WildSearch(wild, path, 0, re) == Exhausted;
    KeyKind(wild.key, '*');
    assert Visit(wild, ["b"], st0, re) == Next(st1);
    var leaf := Routing("*", [g], []);
    var captured := Scan([Route([""], ["b"], [g])], true, "b");
    KeyKind(leaf.key, '*');
    assert Blanks(1) == [""];
    assert Visit(leaf, [], st1, re) == Next(captured);
    assert Siblings(named, 0, [], st1, re) == captured;
    MatchStep(named, "b", [], re);
    assert Match(named, ["b"], re) == Matched([Route([""], ["b"], [g])], true);
    KeyKind(":name", ':');
    assert !Constrained(":name");
    assert ":name"[1..] == "name";
    assert AppendAll([Route([""], ["b"], [g])], "name", "b")[0] == Route(["", "name"], ["b", "b"], [g]);
    assert AppendAll([Route([""], ["b"], [g])], "name", "b") == [Route(["", "name"], ["b", "b"], [g])];
    assert Visit(named, ["b"], st1, re) == NamedChild(named, ["b"], st1, re) == Named(named, "name", ["b"], st1, re);
    assert [] + st2.routes == st2.routes;
    assert Visit(named, ["b"], st1, re) == Next(st2);
    assert Siblings(n, 2, ["b"], st2, re) == st2;
    assert Siblings(n, 1, ["b"], st1, re) == st2;
    assert Siblings(n, 0, ["b"], st0, re) == st2;
    MatchStep(n, "a", ["b"], re);
  }

  /** Pattern parts that Router.Filter turns into literal keys. */
  predicate LiteralParts(segs: seq<string>)
  {
    forall j :: 0 <= j < |segs| ==> segs[j] != "" && !Special(segs[j][0])
  }

  /** A filter registered under literal parts on a fresh node is found for
      exactly that path, alone and with no captures. */
  lemma {:induction false} LiteralRoute(key: string, segs: seq<string>, f: Filter, q: seq<string>, re: Regex)
    requires LiteralParts(segs)
    ensures Match(AddFilter(Routing(key, [], []), TagAll(segs), f), q, re) ==
      if q == segs then Matched([Route([], [], [f])], true) else Matched([], false)
    decreases |segs|
  {
    var n := AddFilter(Routing(key, [], []), TagAll(segs), f);
    if segs == [] {
      assert n == Routing(key, [f], []);
      if q != [] {
        MatchStep(n, q[0], q[1..], re);
        assert [q[0]] + q[1..] == q;
      }
    } else {
      var tagged := TagAll(segs);
      assert tagged[0] == "/" + segs[0];
      assert tagged[1..] == TagAll(segs[1..]);
      var child := AddFilter(Routing(tagged[0], [], []), TagAll(segs[1..]), f);
      assert n == Routing(key, [], [child]);
      KeyKind(child.key, '/');
      assert child.key[1..] == segs[0];
      if q == [] {
        assert OptionalRoutes(n.trailers) == [];
      } else {
        var st := Scan([], false, q[0]);
        MatchStep(n, q[0], q[1..], re);
        assert [q[0]] + q[1..] == q;
        assert q == segs <==> q[0] == segs[0] && q[1..] == segs[1..];
        LiteralRoute(tagged[0], segs[1..], f, q[1..], re);
        assert Visit(child, q[1..], st, re) == Literal(child, q[1..], st, re);
        assert [] + [Route([], [], [f])] == [Route([], [], [f])];
        match Visit(child, q[1..], st, re)
        case Next(st') => assert Siblings(n, 1, q[1..], st', re) == st';
        case Break =>
      }
    }
  }
}
