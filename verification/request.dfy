/** The request parsing of Router.ServeHTTP: the path segments the tree is
    matched against and the query-string map handed to filters. Nothing is
    percent-decoded. */
module Requests {
  import opened Text
  import opened Segments

  /** The Request-URI has a character other than '?' and '#'. ServeHTTP reads
      the first field of the URI split on those two characters and would
      panic on a URI that has none. */
  predicate HasPathPart(uri: string)
  {
    !OnlySeps(uri, {'?', '#'})
  }

  /** The first non-empty field of the URI split on '?' and '#'. */
  function PathText(uri: string): (p: string)
    requires HasPathPart(uri)
    ensures p != "" && Free(p, {'?', '#'})
  {
    FieldsNonEmpty(uri, {'?', '#'});
    SplitOnPiecesFree(uri, {'?', '#'});
    assert Fields(uri, {'?', '#'})[0] in Fields(uri, {'?', '#'});
    Fields(uri, {'?', '#'})[0]
  }

  /** The path matched against the tree: the path text normalised exactly as
      Router.Filter normalises a pattern, without the tags. */
  function RequestPath(uri: string): (r: seq<string>)
    requires HasPathPart(uri)
  {
    PatternParts(PathText(uri))
  }

  /** The path loop of ServeHTTP: lower-case the path text, split it on '/'
      and keep the non-empty segments. */
  method ParsePath(uri: string) returns (path: seq<string>)
    requires HasPathPart(uri)
    ensures path == RequestPath(uri)
    ensures forall j :: 0 <= j < |path| ==> path[j] != "" && IsLower(path[j]) && Free(path[j], {'/'})
  {
    FieldsNonEmpty(uri, {'?', '#'});
    var pathPart := Fields(uri, {'?', '#'})[0];
    var pieces := Split(ToLower(pathPart), '/');
    path := [];
    var i := 0;
    while i < |pieces|
      invariant 0 <= i <= |pieces|
      invariant path == DropEmpty(pieces[..i])
    {
      DropEmptySnoc(pieces[..i], pieces[i]);
      assert pieces[..i + 1] == pieces[..i] + [pieces[i]];
      if |pieces[i]| != 0 {
        path := path + [pieces[i]];
      }
      i := i + 1;
    }
    assert pieces[..i] == pieces;
    CompiledShape(PathText(uri));
  }

  /** The '&'/';'-separated non-empty parts of the query: the text between the
      first and the second '?', cut at the first '#'. */
  function QueryParts(uri: string): (r: seq<string>)
  {
    var pieces := Split(uri, '?');
    if |pieces| > 1 then Fields(Split(pieces[1], '#')[0], {'&', ';'}) else []
  }

  /** The text before the first '='. */
  function KeyOf(part: string): (r: string)
  {
    Split(part, '=')[0]
  }

  /** The text between the first and the second '=', or "" without a '='. */
  function ValueOf(part: string): (r: string)
  {
    var kv := Split(part, '=');
    if |kv| > 1 then kv[1] else ""
  }

  /** The values of key k among the parts, in order. */
  function ValuesFor(parts: seq<string>, k: string): (r: seq<string>)
  {
    if parts == [] then []
    else
      var init, last := parts[..|parts| - 1], parts[|parts| - 1];
      ValuesFor(init, k) + (if KeyOf(last) == k then [ValueOf(last)] else [])
  }

  /** The query-string map: each key of a part, with its values in order. */
  function QueryMap(uri: string): (q: map<string, seq<string>>)
  {
    var parts := QueryParts(uri);
    map k | k in (set j | 0 <= j < |parts| :: KeyOf(parts[j])) :: ValuesFor(parts, k)
  }

  /** A key that no part has collects no value. */
  lemma {:induction false} ValuesForAbsent(parts: seq<string>, k: string)
    requires forall j :: 0 <= j < |parts| ==> KeyOf(parts[j]) != k
    ensures ValuesFor(parts, k) == []
  {
    if parts != [] {
      ValuesForAbsent(parts[..|parts| - 1], k);
    }
  }

  /** The query loop of ServeHTTP: every part adds its value to its key's
      list, creating the list on the key's first occurrence. */
  method ParseQuery(uri: string) returns (query: map<string, seq<string>>)
    ensures forall k :: k in query <==>
      exists j :: 0 <= j < |QueryParts(uri)| && KeyOf(QueryParts(uri)[j]) == k
    ensures forall k :: k in query ==> query[k] == ValuesFor(QueryParts(uri), k)
    ensures query == QueryMap(uri)
  {
    query := map[];
    var pieces := Split(uri, '?');
    if |pieces| > 1 {
      var trailer := pieces[1];
      var str := Split(trailer, '#')[0];
      var parts := Fields(str, {'&', ';'});
      assert parts == QueryParts(uri);
      var i := 0;
      while i < |parts|
        invariant 0 <= i <= |parts|
        invariant forall k :: k in query <==> exists j :: 0 <= j < i && KeyOf(parts[j]) == k
        invariant forall k :: k in query ==> query[k] == ValuesFor(parts[..i], k)
      {
        var kv := Split(parts[i], '=');
        var key := kv[0];
        var value := if |kv| > 1 then kv[1] else "";
        var query' := if key in query then query[key := query[key] + [value]] else query[key := [value]];
        QueryStep(parts, i, query, query');
        query := query';
        i := i + 1;
      }
      assert parts[..i] == parts;
    } else {
      assert QueryParts(uri) == [];
    }
    QueryMapOf(uri, query);
  }

  /** QueryMap is the one map with the keys of the parts, each holding its
      values in order. */
  lemma QueryMapOf(uri: string, query: map<string, seq<string>>)
    requires forall k :: k in query <==>
      exists j :: 0 <= j < |QueryParts(uri)| && KeyOf(QueryParts(uri)[j]) == k
    requires forall k :: k in query ==> query[k] == ValuesFor(QueryParts(uri), k)
    ensures query == QueryMap(uri)
  {
    assert query.Keys == QueryMap(uri).Keys;
  }

  /** One turn of the query loop keeps its invariant. */
  lemma QueryStep(parts: seq<string>, i: nat, query: map<string, seq<string>>, query': map<string, seq<string>>)
    requires i < |parts|
    requires forall k :: k in query <==> exists j :: 0 <= j < i && KeyOf(parts[j]) == k
    requires forall k :: k in query ==> query[k] == ValuesFor(parts[..i], k)
    requires var key, value := KeyOf(parts[i]), ValueOf(parts[i]);
      query' == if key in query then query[key := query[key] + [value]] else query[key := [value]]
    ensures forall k :: k in query' <==> exists j :: 0 <= j < i + 1 && KeyOf(parts[j]) == k
    ensures forall k :: k in query' ==> query'[k] == ValuesFor(parts[..i + 1], k)
  {
    var key := KeyOf(parts[i]);
    assert parts[..i + 1][..i] == parts[..i];
    assert parts[..i + 1][i] == parts[i];
    if key !in query {
      ValuesForAbsent(parts[..i], key);
    }
    forall k ensures k in query' <==> exists j :: 0 <= j < i + 1 && KeyOf(parts[j]) == k {
      if k in query' && k != key {
        assert k in query;
      }
    }
  }

  /** "key=value" with neither holding '=' gives the key and the value back. */
  lemma KeyValueRoundTrip(k: string, v: string)
    requires Free(k, {'='}) && Free(v, {'='})
    ensures KeyOf(k + "=" + v) == k && ValueOf(k + "=" + v) == v
  {
    SplitAfterWord(k, '=', v);
    SplitWord(v, '=');
  }

  /** A part without '=' is a key with the empty value. */
  lemma BareKey(k: string)
    requires Free(k, {'='})
    ensures KeyOf(k) == k && ValueOf(k) == ""
  {
    SplitWord(k, '=');
  }

  /** A second '=' ends the value: "k=v=w" has the value v. */
  lemma SecondEqualsEndsValue(k: string, v: string, w: string)
    requires Free(k, {'='}) && Free(v, {'='})
    ensures KeyOf(k + "=" + v + "=" + w) == k && ValueOf(k + "=" + v + "=" + w) == v
  {
    assert k + "=" + v + "=" + w == k + ['='] + (v + ['='] + w);
    SplitAfterWord(k, '=', v + "=" + w);
    SplitAfterWord(v, '=', w);
  }

  /** The query is the text after the first '?' up to the next '?' or '#',
      whatever follows that. */
  lemma QueryOfUri(p: string, q: string, tail: string)
    requires Free(p, {'?'}) && Free(q, {'?', '#'})
    requires tail == "" || tail[0] in {'?', '#'}
    ensures QueryParts(p + "?" + q + tail) == Fields(q, {'&', ';'})
  {
    var uri := p + "?" + q + tail;
    assert uri == p + ['?'] + (q + tail);
    SplitAfterWord(p, '?', q + tail);
    assert Free(q, {'?'});
    SplitOnHead(q, tail, {'?'});
    if tail != "" && tail[0] == '?' {
      assert SplitOn(tail, {'?'})[0] == "";
    }
    var t := SplitOn(tail, {'?'})[0];
    assert Split(uri, '?')[1] == q + t;
    assert Free(q, {'#'});
    SplitOnHead(q, t, {'#'});
    if tail != "" && tail[0] == '#' {
      assert t[0] == '#';
      assert SplitOn(t, {'#'})[0] == "";
    } else {
      assert t == "";
    }
    assert q + SplitOn(t, {'#'})[0] == q;
  }

  /** Segments that a request path can consist of: clean parts that hold
      neither '?' nor '#'. */
  predicate CleanSegments(segs: seq<string>)
  {
    CleanParts(segs) && forall j :: 0 <= j < |segs| ==> Free(segs[j], {'?', '#'})
  }

  /** A URI made of clean segments, optionally followed by a query or a
      fragment, yields exactly those segments; no segments is the root "/". */
  lemma PathOfUri(segs: seq<string>, tail: string)
    requires CleanSegments(segs)
    requires tail == "" || tail[0] in {'?', '#'}
    ensures HasPathPart(Slashed(segs) + tail)
    ensures RequestPath(Slashed(segs) + tail) == segs
  {
    if segs != [] {
      JoinFree(segs, '/', {'?', '#'});
    }
    assert Free(Slashed(segs), {'?', '#'});
    PathTextOf(Slashed(segs), tail);
    PartsOfJoin(segs);
  }

  /** The path text of a delimiter-free word followed by a query or fragment
      is the word. */
  lemma PathTextOf(w: string, tail: string)
    requires w != "" && Free(w, {'?', '#'})
    requires tail == "" || tail[0] in {'?', '#'}
    ensures HasPathPart(w + tail) && PathText(w + tail) == w
  {
    var uri := w + tail;
    assert uri[0] == w[0];
    SplitOnHead(w, tail, {'?', '#'});
    if tail != "" {
      assert SplitOn(tail, {'?', '#'})[0] == "";
    }
    assert SplitOn(uri, {'?', '#'})[0] == w;
  }

  /** A URI that starts with '?' has its query taken as the path. */
  lemma QueryTakenAsPath()
    ensures HasPathPart("?a")
    ensures RequestPath("?a") == ["a"]
  {
    var uri := "?a";
    assert uri == "?" + "a";
    assert uri[1..] == "a";
    SplitOnWord("a", {'?', '#'});
    assert SplitOn(uri, {'?', '#'}) == ["", "a"];
    assert uri[1] !in {'?', '#'};
    assert PathText(uri) == "a";
    SplitWord("a", '/');
  }
}
