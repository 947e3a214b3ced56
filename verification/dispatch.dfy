/** What ServeHTTP does with the routes match returns: number the unnamed
    captures of each route, run its filters through filter_apply, and stop at
    the first route whose filters report `over`; otherwise answer NotFound. */
module Dispatch {
  import opened Filters
  import opened Matcher

  /** The decimal digit d. */
  function Digit(d: nat): (r: char)
    requires d < 10
  {
    ('0' as int + d) as char
  }

  /** fmt.Sprintf("%d", n) for a natural number: its decimal digits. */
  function Decimal(n: nat): (s: string)
    ensures |s| >= 1 && (n < 10 <==> |s| == 1)
  {
    if n < 10 then [Digit(n)] else Decimal(n / 10) + [Digit(n % 10)]
  }

  /** Different numbers are written differently. */
  lemma {:induction false} DecimalInjective(a: nat, b: nat)
    requires Decimal(a) == Decimal(b)
    ensures a == b
  {
    if a >= 10 {
      var sa, sb := Decimal(a), Decimal(b);
      assert b >= 10;
      assert sa[..|sa| - 1] == Decimal(a / 10) && sb[..|sb| - 1] == Decimal(b / 10);
      assert sa[|sa| - 1] == Digit(a % 10) && sb[|sb| - 1] == Digit(b % 10);
      DecimalInjective(a / 10, b / 10);
    } else {
      assert Decimal(a)[0] == Digit(a) && Decimal(b)[0] == Digit(b);
    }
  }

  /** The name an unnamed capture gets: "_" and its number. */
  function Synthetic(count: nat): (r: string)
  {
    "_" + Decimal(count)
  }

  lemma SyntheticInjective(a: nat, b: nat)
    requires Synthetic(a) == Synthetic(b)
    ensures a == b
  {
    assert Decimal(a) == Synthetic(a)[1..] == Synthetic(b)[1..] == Decimal(b);
    DecimalInjective(a, b);
  }

  /** The number of empty keys. */
  function Empties(keys: seq<string>): (r: nat)
  {
    if keys == [] then 0
    else Empties(keys[..|keys| - 1]) + (if keys[|keys| - 1] == "" then 1 else 0)
  }

  /** The field names of a route: an empty key becomes "_n" when it is the
      n-th empty key of the route; other keys keep their name. */
  function Names(keys: seq<string>): (names: seq<string>)
    ensures |names| == |keys|
  {
    seq(|keys|, j requires 0 <= j < |keys| => if keys[j] == "" then Synthetic(Empties(keys[..j + 1])) else keys[j])
  }

  lemma {:induction false} EmptiesGrow(keys: seq<string>, a: nat, b: nat)
    requires a <= b <= |keys|
    ensures Empties(keys[..a]) <= Empties(keys[..b])
    decreases b - a
  {
    if a < b {
      EmptiesGrow(keys, a, b - 1);
      assert keys[..b][..b - 1] == keys[..b - 1];
    }
  }

  /** Unnamed captures are numbered 1, 2, ... from the left, so no two of them
      share a name. */
  lemma SyntheticNamesDistinct(keys: seq<string>, i: nat, j: nat)
    requires i < j < |keys| && keys[i] == "" && keys[j] == ""
    ensures Names(keys)[i] != Names(keys)[j]
    ensures Names(keys)[i] == Synthetic(Empties(keys[..i + 1])) && Empties(keys[..i + 1]) >= 1
  {
    var a, b := Empties(keys[..i + 1]), Empties(keys[..j + 1]);
    assert a >= 1 by {
      assert keys[..i + 1][..i] == keys[..i];
    }
    assert a < b by {
      EmptiesGrow(keys, i + 1, j);
      assert keys[..j + 1][..j] == keys[..j];
    }
    assert Names(keys)[i] == Synthetic(a) && Names(keys)[j] == Synthetic(b);
    if Synthetic(a) == Synthetic(b) {
      SyntheticInjective(a, b);
    }
  }

  /** The fields map built from names and values, the later name winning. */
  function FieldMap(names: seq<string>, values: seq<string>): (r: map<string, string>)
    requires |names| <= |values|
  {
    if names == [] then map[]
    else FieldMap(names[..|names| - 1], values)[names[|names| - 1] := values[|names| - 1]]
  }

  /** Every name is a field, and a field holds the value at the last position
      that has its name. */
  lemma {:induction false} FieldMapLastWins(names: seq<string>, values: seq<string>)
    requires |names| <= |values|
    ensures forall k :: k in FieldMap(names, values) <==> k in names
    ensures forall j :: 0 <= j < |names| && (forall l :: j < l < |names| ==> names[l] != names[j]) ==>
      FieldMap(names, values)[names[j]] == values[j]
  {
    if names != [] {
      var init := names[..|names| - 1];
      FieldMapLastWins(init, values);
      forall k ensures k in FieldMap(names, values) <==> k in names {
        if k in init { assert k in names; }
        if k in names && k != names[|names| - 1] {
          var j :| 0 <= j < |names| && names[j] == k;
          assert init[j] == k;
        }
      }
      forall j | 0 <= j < |names| && (forall l :: j < l < |names| ==> names[l] != names[j])
        ensures FieldMap(names, values)[names[j]] == values[j]
      {
        if j < |names| - 1 {
          assert names[|names| - 1] != names[j];
          assert init[j] == names[j];
        }
      }
    }
  }

  /** The field loop of ServeHTTP: count the empty keys, name them "_1",
      "_2", ..., and store each value under its name. */
  method NumberFields(keys: seq<string>, values: seq<string>) returns (fields: map<string, string>)
    requires |keys| <= |values|
    ensures fields == FieldMap(Names(keys), values)
    ensures forall k :: k in fields <==> k in Names(keys)
  {
    fields := map[];
    var count := 0;
    var i := 0;
    while i < |keys|
      invariant 0 <= i <= |keys|
      invariant count == Empties(keys[..i])
      invariant fields == FieldMap(Names(keys)[..i], values)
    {
      var key := keys[i];
      assert keys[..i + 1][..i] == keys[..i];
      if |key| == 0 {
        count := count + 1;
        key := Synthetic(count);
      }
      assert Names(keys)[..i + 1][..i] == Names(keys)[..i];
      fields := fields[key := values[i]];
      i := i + 1;
    }
    assert Names(keys)[..i] == Names(keys);
    FieldMapLastWins(Names(keys), values);
  }

  /** The answer the filter gives to one invocation. */
  function Answer(invoke: Handler, c: Call): (r: bool)
  {
    invoke(c.filter, c.cap, c.input)
  }

  /** The invocations filter_apply makes, in order: a filter that implements
      Any is invoked through it and ends the list; otherwise, for a GET
      request only, a filter that implements Get is invoked through it. No
      other method is dispatched, and no answer stops the list. */
  function Plan(filters: seq<Filter>, input: Input): (r: seq<Call>)
  {
    if filters == [] then []
    else if Any in filters[0].caps then [Call(filters[0], Any, input)]
    else
      (if input.request.verb == "GET" && Get in filters[0].caps then [Call(filters[0], Get, input)] else []) +
      Plan(filters[1..], input)
  }

  /** No filter of the list implements Any. */
  predicate NoAny(filters: seq<Filter>)
  {
    forall j :: 0 <= j < |filters| ==> Any !in filters[j].caps
  }

  /** Before the first Any filter the plan is built filter by filter. */
  lemma {:induction false} PlanAppend(a: seq<Filter>, b: seq<Filter>, input: Input)
    requires NoAny(a)
    ensures Plan(a + b, input) == Plan(a, input) + Plan(b, input)
  {
    if a != [] {
      assert (a + b)[1..] == a[1..] + b;
      PlanAppend(a[1..], b, input);
    } else {
      assert a + b == b;
    }
  }

  /** Every invocation goes through Any, or through Get on a GET request, to
      a filter that implements it, with the same input; only the last one can
      be through Any. */
  lemma {:induction false} PlanShape(filters: seq<Filter>, input: Input)
    ensures var p := Plan(filters, input);
      |p| <= |filters| &&
      forall j :: 0 <= j < |p| ==>
        p[j].filter in filters && p[j].cap in p[j].filter.caps && p[j].input == input &&
        (p[j].cap == Any || (p[j].cap == Get && input.request.verb == "GET")) &&
        (j < |p| - 1 ==> p[j].cap == Get)
  {
    if filters != [] && Any !in filters[0].caps {
      PlanShape(filters[1..], input);
      var head := if input.request.verb == "GET" && Get in filters[0].caps then [Call(filters[0], Get, input)] else [];
      var p := Plan(filters, input);
      forall j | 0 <= j < |p| ensures p[j].filter in filters {
        if j >= |head| { assert p[j] == Plan(filters[1..], input)[j - |head|]; }
      }
    }
  }

  /** The first filter that implements Any is the last one invoked. */
  lemma PlanStopsAtAny(filters: seq<Filter>, i: nat, input: Input)
    requires i < |filters| && Any in filters[i].caps && NoAny(filters[..i])
    ensures Plan(filters, input) == Plan(filters[..i], input) + [Call(filters[i], Any, input)]
  {
    assert filters == filters[..i] + filters[i..];
    PlanAppend(filters[..i], filters[i..], input);
  }

  /** Without an Any filter, a GET invokes every filter that implements Get:
      an answer of `over` from one of them does not stop the others. */
  lemma {:induction false} PlanGetAll(filters: seq<Filter>, input: Input)
    requires NoAny(filters) && input.request.verb == "GET"
    ensures forall j :: 0 <= j < |filters| && Get in filters[j].caps ==> Call(filters[j], Get, input) in Plan(filters, input)
  {
    if filters != [] {
      PlanGetAll(filters[1..], input);
      forall j | 1 <= j < |filters| && Get in filters[j].caps
        ensures Call(filters[j], Get, input) in Plan(filters, input)
      {
        assert filters[1..][j - 1] == filters[j];
      }
    }
  }

  /** Without an Any filter, a request other than GET invokes nothing. */
  lemma {:induction false} PlanOnlyGet(filters: seq<Filter>, input: Input)
    requires NoAny(filters) && input.request.verb != "GET"
    ensures Plan(filters, input) == []
  {
    if filters != [] {
      PlanOnlyGet(filters[1..], input);
    }
  }

  /** filter_apply: run the filters in order, returning at the first one that
      implements Any; `ok` says some filter ran and `over` is the answer of
      the last one that ran. The invocations made are returned in `calls`. */
  method FilterApply(filters: seq<Filter>, input: Input, invoke: Handler) returns (ok: bool, over: bool, calls: seq<Call>)
    ensures calls == Plan(filters, input)
    ensures ok <==> |calls| > 0
    ensures over <==> |calls| > 0 && Answer(invoke, calls[|calls| - 1])
  {
    ok, over, calls := false, false, [];
    var i := 0;
    while i < |filters|
      invariant 0 <= i <= |filters|
      invariant NoAny(filters[..i]) && calls == Plan(filters[..i], input)
      invariant ok <==> |calls| > 0
      invariant over <==> |calls| > 0 && Answer(invoke, calls[|calls| - 1])
    {
      var f := filters[i];
      if Any in f.caps {
        PlanStopsAtAny(filters, i, input);
        calls := calls + [Call(f, Any, input)];
        over := invoke(f, Any, input);
        ok := true;
        return;
      }
      assert filters[..i + 1] == filters[..i] + [f];
      PlanAppend(filters[..i], [f], input);
      if input.request.verb == "GET" && Get in f.caps {
        calls := calls + [Call(f, Get, input)];
        over := invoke(f, Get, input);
        ok := true;
      }
      i := i + 1;
    }
    assert filters[..i] == filters;
  }

  /** Routes whose capture lists can be numbered. */
  predicate Paired(routes: seq<Route>)
  {
    forall j :: 0 <= j < |routes| ==> |routes[j].keys| <= |routes[j].values|
  }

  /** The input a route's filters receive. */
  function RouteInput(route: Route, request: Request, query: map<string, seq<string>>): (r: Input)
    requires |route.keys| <= |route.values|
  {
    Input(request, FieldMap(Names(route.keys), route.values), query)
  }

  /** The invocations made for one route. */
  function RouteCalls(route: Route, request: Request, query: map<string, seq<string>>): (r: seq<Call>)
    requires |route.keys| <= |route.values|
  {
    Plan(route.filters, RouteInput(route, request, query))
  }

  /** A route ends the request: filter_apply reports ok and over. */
  predicate Stops(route: Route, request: Request, query: map<string, seq<string>>, invoke: Handler)
    requires |route.keys| <= |route.values|
  {
    var calls := RouteCalls(route, request, query);
    |calls| > 0 && Answer(invoke, calls[|calls| - 1])
  }

  /** The result of serving a request: the filter invocations made, and
      whether a filter ended the request (otherwise NotFound is written). */
  datatype Outcome = Outcome(calls: seq<Call>, handled: bool)

  /** The route loop of ServeHTTP. */
  function RunRoutes(routes: seq<Route>, request: Request, query: map<string, seq<string>>, invoke: Handler): (r: Outcome)
    requires Paired(routes)
  {
    if routes == [] then Outcome([], false)
    else
      var calls := RouteCalls(routes[0], request, query);
      if Stops(routes[0], request, query, invoke) then Outcome(calls, true)
      else
        var rest := RunRoutes(routes[1..], request, query, invoke);
        Outcome(calls + rest.calls, rest.handled)
  }

  /** The invocations of all the routes, one route after the other. */
  function AllCalls(routes: seq<Route>, request: Request, query: map<string, seq<string>>): (r: seq<Call>)
    requires Paired(routes)
  {
    if routes == [] then [] else AllCalls(routes[..|routes| - 1], request, query) + RouteCalls(routes[|routes| - 1], request, query)
  }

  lemma {:induction false} AllCallsCons(routes: seq<Route>, request: Request, query: map<string, seq<string>>)
    requires Paired(routes) && routes != []
    ensures AllCalls(routes, request, query) == RouteCalls(routes[0], request, query) + AllCalls(routes[1..], request, query)
  {
    var last := routes[|routes| - 1];
    if |routes| > 1 {
      var init, tail := routes[..|routes| - 1], routes[1..];
      var first := RouteCalls(routes[0], request, query);
      var middle := AllCalls(init[1..], request, query);
      assert AllCalls(init, request, query) == first + middle by {
        AllCallsCons(init, request, query);
      }
      assert AllCalls(tail, request, query) == middle + RouteCalls(last, request, query) by {
        assert tail[..|tail| - 1] == init[1..];
      }
      assert AllCalls(routes, request, query) == AllCalls(init, request, query) + RouteCalls(last, request, query);
    } else {
      assert routes[..0] == [] && routes[1..] == [];
    }
  }

  /** Route i is the first route that stops the request. */
  predicate FirstStop(routes: seq<Route>, i: nat, request: Request, query: map<string, seq<string>>, invoke: Handler)
    requires Paired(routes)
  {
    i < |routes| && Stops(routes[i], request, query, invoke) &&
    forall j :: 0 <= j < i ==> !Stops(routes[j], request, query, invoke)
  }

  /** The route loop ends the request exactly when some route stops it. */
  lemma {:induction false} RunRoutesHandled(routes: seq<Route>, request: Request, query: map<string, seq<string>>, invoke: Handler)
    requires Paired(routes)
    ensures RunRoutes(routes, request, query, invoke).handled <==>
      exists i :: 0 <= i < |routes| && Stops(routes[i], request, query, invoke)
  {
    if routes != [] {
      var tail := routes[1..];
      RunRoutesHandled(tail, request, query, invoke);
      if exists i :: 0 <= i < |tail| && Stops(tail[i], request, query, invoke) {
        var i :| 0 <= i < |tail| && Stops(tail[i], request, query, invoke);
        assert tail[i] == routes[i + 1];
      }
      if !Stops(routes[0], request, query, invoke) && exists i :: 0 <= i < |routes| && Stops(routes[i], request, query, invoke) {
        var i :| 0 <= i < |routes| && Stops(routes[i], request, query, invoke);
        assert tail[i - 1] == routes[i];
      }
    }
  }

  /** When route i is the first to stop the request, the filters of the routes
      up to and including i have run, and no others. */
  lemma {:induction false} RunRoutesFirstStop(routes: seq<Route>, i: nat, request: Request, query: map<string, seq<string>>, invoke: Handler)
    requires Paired(routes) && FirstStop(routes, i, request, query, invoke)
    ensures RunRoutes(routes, request, query, invoke) == Outcome(AllCalls(routes[..i + 1], request, query), true)
  {
    AllCallsCons(routes[..i + 1], request, query);
    assert routes[..i + 1][0] == routes[0];
    if i == 0 {
      assert routes[..1][1..] == [];
    } else {
      var tail := routes[1..];
      assert !Stops(routes[0], request, query, invoke);
      assert FirstStop(tail, i - 1, request, query, invoke) by {
        assert tail[i - 1] == routes[i];
        forall j | 0 <= j < i - 1 ensures !Stops(tail[j], request, query, invoke) {
          assert tail[j] == routes[j + 1];
        }
      }
      RunRoutesFirstStop(tail, i - 1, request, query, invoke);
      assert routes[..i + 1][1..] == tail[..i];
    }
  }

  /** When no route stops the request, the filters of every route have run,
      and NotFound follows. */
  lemma {:induction false} RunRoutesNoStop(routes: seq<Route>, request: Request, query: map<string, seq<string>>, invoke: Handler)
    requires Paired(routes)
    requires forall i :: 0 <= i < |routes| ==> !Stops(routes[i], request, query, invoke)
    ensures RunRoutes(routes, request, query, invoke) == Outcome(AllCalls(routes, request, query), false)
  {
    if routes != [] {
      var tail := routes[1..];
      assert forall i :: 0 <= i < |tail| ==> tail[i] == routes[i + 1];
      RunRoutesNoStop(tail, request, query, invoke);
      AllCallsCons(routes, request, query);
    }
  }

  /** One turn of the route loop: number the route's fields and run its
      filters; `stop` says filter_apply reported ok and over. */
  method ServeRoute(route: Route, request: Request, query: map<string, seq<string>>, invoke: Handler)
    returns (stop: bool, calls: seq<Call>)
    requires |route.keys| <= |route.values|
    ensures calls == RouteCalls(route, request, query)
    ensures stop <==> Stops(route, request, query, invoke)
  {
    var fields := NumberFields(route.keys, route.values);
    var input := Input(request, fields, query);
    var ok, over;
    ok, over, calls := FilterApply(route.filters, input, invoke);
    stop := ok && over;
  }

  /** The route loop of ServeHTTP: number the fields, run filter_apply and
      return at the first route that reports ok and over. */
  method ServeRoutes(routes: seq<Route>, request: Request, query: map<string, seq<string>>, invoke: Handler)
    returns (outcome: Outcome)
    requires Paired(routes)
    ensures outcome == RunRoutes(routes, request, query, invoke)
  {
    var calls: seq<Call> := [];
    var i := 0;
    while i < |routes|
      invariant 0 <= i <= |routes|
      invariant calls == AllCalls(routes[..i], request, query)
      invariant forall j :: 0 <= j < i ==> !Stops(routes[j], request, query, invoke)
    {
      var stop, routeCalls := ServeRoute(routes[i], request, query, invoke);
      AllCallsSnoc(routes, i, request, query);
      calls := calls + routeCalls;
      assert calls == AllCalls(routes[..i + 1], request, query);
      if stop {
        RunRoutesFirstStop(routes, i, request, query, invoke);
        return Outcome(calls, true);
      }
      i := i + 1;
    }
    assert routes[..i] == routes;
    RunRoutesNoStop(routes, request, query, invoke);
    outcome := Outcome(calls, false);
  }

  lemma AllCallsSnoc(routes: seq<Route>, i: nat, request: Request, query: map<string, seq<string>>)
    requires Paired(routes) && i < |routes|
    ensures AllCalls(routes[..i + 1], request, query) == AllCalls(routes[..i], request, query) + RouteCalls(routes[i], request, query)
  {
    assert routes[..i + 1][..i] == routes[..i];
  }

  /** A single route whose filters are one Get filter, on a GET: that filter
      is invoked once, and its answer decides the outcome. */
  lemma OneGetRoute(route: Route, f: Filter, request: Request, query: map<string, seq<string>>, invoke: Handler)
    requires route.filters == [f] && Get in f.caps && Any !in f.caps && request.verb == "GET"
    requires |route.keys| <= |route.values|
    ensures var c := Call(f, Get, RouteInput(route, request, query));
      RunRoutes([route], request, query, invoke) == Outcome([c], Answer(invoke, c))
  {
    assert [route][1..] == [];
    assert [route][0] == route;
    assert route.filters[1..] == [];
    var input := RouteInput(route, request, query);
    assert Plan(route.filters[1..], input) == [];
    assert RouteCalls(route, request, query) == [Call(f, Get, input)] + [];
  }
}
