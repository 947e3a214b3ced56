/** The routing tree and routing.addFilter. A node is reached by its key,
    owns the filters registered on it and its children ("trailers") in
    registration order. Each node has exactly one parent, so the in-place
    appends of addFilter are modelled by rebuilding the path they walk. */
module Tree {
  import opened Filters

  datatype Routing = Routing(key: string, filters: seq<Filter>, trailers: seq<Routing>)

  /** The root NewRouter creates. */
  const Empty := Routing("", [], [])

  function Last(ts: seq<Routing>): (r: Routing)
    requires |ts| > 0
  {
    ts[|ts| - 1]
  }

  /** addFilter's reuse test: the last child exists and has the wanted key. */
  predicate ReusesLast(n: Routing, segment: string)
  {
    |n.trailers| > 0 && Last(n.trailers).key == segment
  }

  /** routing.addFilter: walk the pattern, reusing the LAST child when its key
      equals the next segment and appending a fresh child otherwise; append
      the filter where the pattern ends, and also on the current node when
      the final segment is "*". */
  function AddFilter(n: Routing, pattern: seq<string>, f: Filter): (r: Routing)
    ensures r.key == n.key
    decreases |pattern|
  {
    if pattern == [] then n.(filters := n.filters + [f])
    else
      var segment, rest := pattern[0], pattern[1..];
      var here := if segment == "*" && rest == [] then n.filters + [f] else n.filters;
      if ReusesLast(n, segment) then
        var k := |n.trailers| - 1;
        Routing(n.key, here, n.trailers[..k] + [AddFilter(n.trailers[k], rest, f)])
      else
        Routing(n.key, here, n.trailers + [AddFilter(Routing(segment, [], []), rest, f)])
  }

  /** The node addFilter walks to for `pattern`, if the path exists. */
  function Terminal(n: Routing, pattern: seq<string>): (r: Option<Routing>)
    decreases |pattern|
  {
    if pattern == [] then Some(n)
    else if ReusesLast(n, pattern[0]) then Terminal(Last(n.trailers), pattern[1..])
    else None
  }

  datatype Option<T> = None | Some(value: T)

  /** The filters already at the end of `pattern`, or none. */
  function FiltersAt(n: Routing, pattern: seq<string>): (r: seq<Filter>)
  {
    match Terminal(n, pattern)
    case Some(t) => t.filters
    case None => []
  }

  /** `b` grows `a` by appends only: same key, a's filters are a prefix of b's,
      a's children are a prefix-wise grown copy of the first children of b. */
  ghost predicate Extends(a: Routing, b: Routing)
    decreases a
  {
    a.key == b.key && a.filters <= b.filters && |a.trailers| <= |b.trailers| &&
    forall i :: 0 <= i < |a.trailers| ==> Extends(a.trailers[i], b.trailers[i])
  }

  /** All filters registered anywhere in the tree, with multiplicity. */
  function AllFilters(n: Routing): (r: multiset<Filter>)
    decreases n, |n.trailers| + 1
  {
    multiset(n.filters) + ChildFilters(n, |n.trailers|)
  }

  /** The filters registered below the first k children of n. */
  function ChildFilters(n: Routing, k: nat): (r: multiset<Filter>)
    requires k <= |n.trailers|
    decreases n, k
  {
    if k == 0 then multiset{} else ChildFilters(n, k - 1) + AllFilters(n.trailers[k - 1])
  }

  lemma {:induction false} ExtendsRefl(a: Routing)
    ensures Extends(a, a)
    decreases a
  {
    forall i | 0 <= i < |a.trailers| ensures Extends(a.trailers[i], a.trailers[i]) {
      ExtendsRefl(a.trailers[i]);
    }
  }

  /** addFilter only appends: every existing node keeps its key, its filters as
      a prefix and its children in order; of the existing children only the
      last one can change, and the children grow by at most one. */
  lemma {:induction false} AddFilterAppendOnly(n: Routing, pattern: seq<string>, f: Filter)
    ensures Extends(n, AddFilter(n, pattern, f))
    ensures var r := AddFilter(n, pattern, f);
      |n.trailers| <= |r.trailers| <= |n.trailers| + 1 &&
      (pattern != [] ==> (|r.trailers| == |n.trailers| <==> ReusesLast(n, pattern[0]))) &&
      forall i :: 0 <= i < |n.trailers| - 1 ==> r.trailers[i] == n.trailers[i]
    decreases |pattern|
  {
    var r := AddFilter(n, pattern, f);
    if pattern == [] {
      forall i | 0 <= i < |n.trailers| ensures Extends(n.trailers[i], r.trailers[i]) {
        ExtendsRefl(n.trailers[i]);
      }
    } else {
      var k := |n.trailers| - 1;
      forall i | 0 <= i < |n.trailers| ensures Extends(n.trailers[i], r.trailers[i]) {
        if i == k && ReusesLast(n, pattern[0]) {
          AddFilterAppendOnly(n.trailers[k], pattern[1..], f);
        } else {
          ExtendsRefl(n.trailers[i]);
        }
      }
    }
  }

  /** The filter lands on the node at the end of the pattern, after the
      filters already there; that node is the last child at every level. */
  lemma {:induction false} AddFilterTerminal(n: Routing, pattern: seq<string>, f: Filter)
    ensures Terminal(AddFilter(n, pattern, f), pattern).Some?
    ensures FiltersAt(AddFilter(n, pattern, f), pattern) == FiltersAt(n, pattern) + [f]
    decreases |pattern|
  {
    if pattern != [] {
      var r := AddFilter(n, pattern, f);
      var rest := pattern[1..];
      assert ReusesLast(r, pattern[0]);
      if ReusesLast(n, pattern[0]) {
        AddFilterTerminal(Last(n.trailers), rest, f);
      } else {
        AddFilterTerminal(Routing(pattern[0], [], []), rest, f);
        TerminalOfFresh(pattern[0], rest);
      }
    }
  }

  /** A pattern ending in "*" also puts the filter on the node the "*" hangs
      from, after the filters already there. */
  lemma {:induction false} AddFilterStar(n: Routing, prefix: seq<string>, f: Filter)
    ensures Terminal(AddFilter(n, prefix + ["*"], f), prefix).Some?
    ensures FiltersAt(AddFilter(n, prefix + ["*"], f), prefix) == FiltersAt(n, prefix) + [f]
    decreases |prefix|
  {
    var pattern := prefix + ["*"];
    var r := AddFilter(n, pattern, f);
    if prefix == [] {
      assert pattern == ["*"];
    } else {
      assert pattern[0] == prefix[0] && pattern[1..] == prefix[1..] + ["*"];
      assert ReusesLast(r, prefix[0]);
      if ReusesLast(n, prefix[0]) {
        AddFilterStar(Last(n.trailers), prefix[1..], f);
      } else {
        AddFilterStar(Routing(prefix[0], [], []), prefix[1..], f);
        TerminalOfFresh(prefix[0], prefix[1..]);
      }
    }
  }

  /** Below a fresh node nothing but the node itself exists. */
  lemma TerminalOfFresh(key: string, pattern: seq<string>)
    ensures FiltersAt(Routing(key, [], []), pattern) == []
  {
  }

  /** Registering adds the filter to the tree once, and a second time for a
      pattern ending in "*"; every other registration stays where it was. */
  lemma {:induction false} AddFilterCount(n: Routing, pattern: seq<string>, f: Filter)
    ensures AllFilters(AddFilter(n, pattern, f)) ==
      AllFilters(n) + multiset{f} +
      (if pattern != [] && pattern[|pattern| - 1] == "*" then multiset{f} else multiset{})
    decreases |pattern|
  {
    var r := AddFilter(n, pattern, f);
    if pattern == [] {
      ChildFiltersPrefix(n, r, |n.trailers|);
    } else {
      var segment, rest := pattern[0], pattern[1..];
      var extraHere := if segment == "*" && rest == [] then multiset{f} else multiset{};
      var extraBelow := if rest != [] && rest[|rest| - 1] == "*" then multiset{f} else multiset{};
      assert (if pattern[|pattern| - 1] == "*" then multiset{f} else multiset{}) == extraHere + extraBelow;
      assert multiset(r.filters) == multiset(n.filters) + extraHere;
      var k := |n.trailers|;
      var old_ := Routing(segment, [], []);
      if ReusesLast(n, segment) {
        k := k - 1;
        old_ := n.trailers[k];
      }
      AddFilterCount(old_, rest, f);
      RebuiltCount(n, r, k, old_, r.trailers[k]);
      MultisetShuffle(multiset(n.filters), ChildFilters(n, k), AllFilters(old_), multiset{f}, extraHere, extraBelow);
    }
  }

  lemma MultisetShuffle<T>(a: multiset<T>, b: multiset<T>, c: multiset<T>, d: multiset<T>, e: multiset<T>, g: multiset<T>)
    ensures (a + e) + b + (c + d + g) == a + b + c + d + (e + g)
  {
  }

  /** The filter count of a node whose children after the first k were replaced
      by one child `child` standing for `was` (or for nothing when `was` is empty). */
  lemma RebuiltCount(n: Routing, r: Routing, k: nat, was: Routing, child: Routing)
    requires k <= |n.trailers| && |r.trailers| == k + 1 && r.trailers[k] == child
    requires r.trailers[..k] == n.trailers[..k]
    requires (|n.trailers| == k + 1 && n.trailers[k] == was) ||
             (|n.trailers| == k && AllFilters(was) == multiset{})
    ensures AllFilters(r) == multiset(r.filters) + ChildFilters(n, k) + AllFilters(child)
    ensures AllFilters(n) == multiset(n.filters) + ChildFilters(n, k) + AllFilters(was)
  {
    ChildFiltersPrefix(n, r, k);
    assert ChildFilters(r, k + 1) == ChildFilters(r, k) + AllFilters(child);
  }

  /** ChildFilters only looks at the children it counts. */
  lemma {:induction false} ChildFiltersPrefix(a: Routing, b: Routing, k: nat)
    requires k <= |a.trailers| && k <= |b.trailers|
    requires a.trailers[..k] == b.trailers[..k]
    ensures ChildFilters(a, k) == ChildFilters(b, k)
  {
    if k > 0 {
      assert a.trailers[..k - 1] == a.trailers[..k][..k - 1];
      assert b.trailers[..k - 1] == b.trailers[..k][..k - 1];
      assert a.trailers[k - 1] == a.trailers[..k][k - 1];
      assert b.trailers[k - 1] == b.trailers[..k][k - 1];
      ChildFiltersPrefix(a, b, k - 1);
    }
  }
}
