/** The Router: the tree root that Filter grows and ServeHTTP reads. */
module Routers {
  import opened Text
  import opened Segments
  import opened Filters
  import opened Tree
  import opened Matcher
  import opened MatchProps
  import opened MatchCases
  import opened Requests
  import opened Dispatch

  /** What ServeHTTP does with a request on the tree `root`: match the
      request path; on success run the route loop with the query map; on
      failure answer NotFound without running a filter. */
  function Serve(root: Routing, request: Request, re: Regex, invoke: Handler): (r: Outcome)
    requires HasPathPart(request.uri)
  {
    var path := RequestPath(request.uri);
    var m := Match(root, path, re);
    MatchPaired(root, path, re);
    if m.ok then RunRoutes(m.routes, request, QueryMap(request.uri), invoke) else Outcome([], false)
  }

  class Router {
    var root: Routing

    /** NewRouter: a router with an empty root. */
    constructor()
      ensures root == Empty
    {
      root := Empty;
    }

    /** Router.Filter: compile the pattern and register the filter under it.
        The tree only grows, the filter lands after the filters already at
        the end of the pattern, and it is counted once more for a final "*". */
    method Filter(pattern: string, f: Filter)
      modifies this
      ensures root == AddFilter(old(root), Compiled(pattern), f)
      ensures Extends(old(root), root)
      ensures FiltersAt(root, Compiled(pattern)) == FiltersAt(old(root), Compiled(pattern)) + [f]
      ensures var keys := Compiled(pattern);
        AllFilters(root) == AllFilters(old(root)) + multiset{f} +
          (if keys != [] && keys[|keys| - 1] == "*" then multiset{f} else multiset{})
    {
      var keys := CompilePattern(pattern);
      AddFilterAppendOnly(root, keys, f);
      AddFilterTerminal(root, keys, f);
      AddFilterCount(root, keys, f);
      root := AddFilter(root, keys, f);
    }

    /** Router.ServeHTTP: parse the path and the query, match, then run the
        filters route by route until one reports ok and over. */
    method ServeHTTP(request: Request, re: Regex, invoke: Handler) returns (outcome: Outcome)
      requires HasPathPart(request.uri)
      ensures outcome == Serve(root, request, re, invoke)
    {
      var path := ParsePath(request.uri);
      var query := ParseQuery(request.uri);
      var m := Match(root, path, re);
      if m.ok {
        MatchPaired(root, path, re);
        outcome := ServeRoutes(m.routes, request, query, invoke);
      } else {
        outcome := Outcome([], false);
      }
    }
  }

  /** Every route match returns can have its captures numbered. */
  lemma MatchPaired(root: Routing, path: seq<string>, re: Regex)
    ensures Paired(Match(root, path, re).routes)
  {
    var m := Match(root, path, re);
    MatchSound(root, path, re);
    forall j | 0 <= j < |m.routes| ensures |m.routes[j].keys| <= |m.routes[j].values| {
      assert Captures(m.routes[j], path);
    }
  }

  /** On a new router, a Get filter registered under a pattern of literal
      parts, or under the root "/", is invoked, alone and with no fields, for
      a GET on exactly that path, whatever query or fragment follows; its
      answer decides whether NotFound follows. */
  lemma RegisterThenServe(segs: seq<string>, tail: string, f: Filter, re: Regex, invoke: Handler)
    requires CleanSegments(segs) && LiteralParts(segs)
    requires tail == "" || tail[0] in {'?', '#'}
    requires Get in f.caps && Any !in f.caps
    ensures var uri := Slashed(segs) + tail;
      var root := AddFilter(Empty, Compiled(Slashed(segs)), f);
      var c := Call(f, Get, Input(Request("GET", uri), map[], QueryMap(uri)));
      HasPathPart(uri) && Serve(root, Request("GET", uri), re, invoke) == Outcome([c], Answer(invoke, c))
  {
    var uri := Slashed(segs) + tail;
    var route := Route([], [], [f]);
    var request := Request("GET", uri);
    PartsOfJoin(segs);
    PathOfUri(segs, tail);
    LiteralRoute("", segs, f, segs, re);
    assert Match(AddFilter(Empty, Compiled(Slashed(segs)), f), RequestPath(uri), re) == Matched([route], true);
    assert FieldMap(Names([]), []) == map[];
    OneGetRoute(route, f, request, QueryMap(uri), invoke);
  }

  /** Registering under "/" appends the filter to the root itself, and a GET
      of "/", with any query or fragment, has the empty path and runs exactly
      that filter through the root's own route. */
  lemma RootThenServe(tail: string, f: Filter, re: Regex, invoke: Handler)
    requires tail == "" || tail[0] in {'?', '#'}
    requires Get in f.caps && Any !in f.caps
    ensures Compiled("/") == [] && AddFilter(Empty, Compiled("/"), f) == Routing("", [f], [])
    ensures HasPathPart("/" + tail) && RequestPath("/" + tail) == []
    ensures var uri := "/" + tail;
      var c := Call(f, Get, Input(Request("GET", uri), map[], QueryMap(uri)));
      Serve(Routing("", [f], []), Request("GET", uri), re, invoke) == Outcome([c], Answer(invoke, c))
  {
    PartsOfJoin([]);
    PathOfUri([], tail);
    RegisterThenServe([], tail, f, re, invoke);
    assert AddFilter(Empty, [], f) == Routing("", [f], []);
  }

  /** The tree after registering f under ["/a"] and then g under ["*", "/b"]. */
  lemma TwoRegistrations(f: Filter, g: Filter)
    ensures AddFilter(AddFilter(Empty, ["/a"], f), ["*", "/b"], g) ==
      Routing("", [], [Routing("/a", [f], []), Routing("*", [], [Routing("/b", [g], [])])])
  {
    var once := AddFilter(Empty, ["/a"], f);
    assert AddFilter(Routing("/a", [], []), [], f) == Routing("/a", [f], []);
    assert once == Routing("", [], [Routing("/a", [f], [])]);
    assert AddFilter(Routing("/b", [], []), [], g) == Routing("/b", [g], []);
    assert AddFilter(Routing("*", [], []), ["/b"], g) == Routing("*", [], [Routing("/b", [g], [])]);
  }

  /** The pattern with the parts "*" and "b", each after a '/'. It is written
      as characters because a slash followed by a star would open a comment. */
  const WildcardPattern: string := ['/', '*', '/', 'b']

  /** Registering "/a" and then the pattern with the parts "*" and "b" makes a GET of "/a" answer NotFound
      without running the filter registered for "/a": the wildcard tried
      after it fails and resets match's result. */
  lemma WildcardShadowsLiteral(f: Filter, g: Filter, re: Regex, invoke: Handler)
    ensures var root := AddFilter(AddFilter(Empty, Compiled("/a"), f), Compiled(WildcardPattern), g);
      HasPathPart("/a") && Serve(root, Request("GET", "/a"), re, invoke) == Outcome([], false)
  {
    ShadowTree(f, g);
    PathA();
    WildcardResetsOk(f, g, re);
    NoMatchNoCalls(Routing("", [], [Routing("/a", [f], []), Routing("*", [], [Routing("/b", [g], [])])]),
      Request("GET", "/a"), re, invoke);
  }

  /** The URI "/a" has the path ["a"]. */
  lemma PathA()
    ensures HasPathPart("/a") && RequestPath("/a") == ["a"]
  {
    PathOfUri(["a"], "");
    assert Slashed(["a"]) + "" == "/a";
  }

  /** When the path does not match, no filter runs and NotFound follows. */
  lemma NoMatchNoCalls(root: Routing, request: Request, re: Regex, invoke: Handler)
    requires HasPathPart(request.uri) && !Match(root, RequestPath(request.uri), re).ok
    ensures Serve(root, request, re, invoke) == Outcome([], false)
  {
  }

  /** The tree that registering "/a" and then the parts "*" and "b" builds. */
  lemma ShadowTree(f: Filter, g: Filter)
    ensures AddFilter(AddFilter(Empty, Compiled("/a"), f), Compiled(WildcardPattern), g) ==
      Routing("", [], [Routing("/a", [f], []), Routing("*", [], [Routing("/b", [g], [])])])
  {
    CompiledTwo();
    TwoRegistrations(f, g);
  }

  /** The keys of the two patterns of WildcardShadowsLiteral. */
  lemma CompiledTwo()
    ensures Compiled("/a") == ["/a"] && Compiled(WildcardPattern) == ["*", "/b"]
  {
    assert PatternParts("/a") == ["a"] by {
      assert Slashed(["a"]) == "/a";
      PartsOfJoin(["a"]);
    }
    assert PatternParts(WildcardPattern) == ["*", "b"] by {
      assert JoinWith(["*", "b"], '/') == "*" + ['/'] + "b";
      assert Slashed(["*", "b"]) == WildcardPattern;
      PartsOfJoin(["*", "b"]);
    }
    assert TagAll(["a"])[0] == "/a";
    assert TagAll(["*", "b"])[0] == "*" && TagAll(["*", "b"])[1] == "/b";
  }
}
