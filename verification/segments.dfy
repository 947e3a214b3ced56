/** The pattern compiler of Router.Filter and the parsing of the keys it
    produces, as the matcher reads them. A compiled key is one of
      "/lit"            a literal part,
      "*"               a wildcard,
      ":name[(re)]"     a named capture, optionally constrained by a regex,
      "?:name[(re)]"    an optional named capture,
      "(re)"            an unnamed regex capture;
    any other key starting with ':', '?', '*' or '(' is kept and never matches. */
module Segments {
  import opened Text

  /** First characters that Router.Filter keeps verbatim. */
  predicate Special(c: char)
  {
    c == ':' || c == '?' || c == '*' || c == '('
  }

  /** Removes the literal marker again. */
  function Untag(key: string): (r: string)
  {
    if |key| > 0 && key[0] == '/' then key[1..] else key
  }

  /** The key Router.Filter stores for one non-empty part of a pattern. */
  function Tag(part: string): (key: string)
    requires |part| > 0
    ensures Untag(key) == part
    ensures |key| > 0 && (key[0] == '/' <==> !Special(part[0]))
  {
    if Special(part[0]) then part else "/" + part
  }

  function TagAll(parts: seq<string>): (keys: seq<string>)
    requires forall j :: 0 <= j < |parts| ==> parts[j] != ""
    ensures |keys| == |parts|
  {
    seq(|parts|, j requires 0 <= j < |parts| => Tag(parts[j]))
  }

  /** The non-empty '/'-separated parts of the lower-cased pattern. */
  function PatternParts(pattern: string): (r: seq<string>)
  {
    DropEmpty(Split(ToLower(pattern), '/'))
  }

  /** The compiled form of a pattern: its parts, tagged, in order. */
  function Compiled(pattern: string): (r: seq<string>)
  {
    TagAll(PatternParts(pattern))
  }

  /** The loop of Router.Filter: lower-case, split on '/', skip empty parts,
      prefix '/' to every part that does not start with ':', '?', '*' or '('. */
  method CompilePattern(pattern: string) returns (keys: seq<string>)
    ensures keys == Compiled(pattern)
  {
    var lowered := ToLower(pattern);
    var pieces := Split(lowered, '/');
    keys := [];
    var i := 0;
    while i < |pieces|
      invariant 0 <= i <= |pieces|
      invariant keys == TagAll(DropEmpty(pieces[..i]))
    {
      var part := pieces[i];
      DropEmptySnoc(pieces[..i], part);
      assert pieces[..i + 1] == pieces[..i] + [part];
      if |part| != 0 {
        keys := keys + [Tag(part)];
      }
      i := i + 1;
    }
    assert pieces[..i] == pieces;
  }

  /** Every compiled key is a non-empty, lower-case, '/'-free part; a literal
      one carries exactly one leading '/', the others keep their marker
      character, and removing the tags gives the pattern's parts back. */
  lemma CompiledShape(pattern: string)
    ensures |Compiled(pattern)| == |PatternParts(pattern)|
    ensures forall j :: 0 <= j < |Compiled(pattern)| ==>
      var key, part := Compiled(pattern)[j], PatternParts(pattern)[j];
      |part| > 0 && Free(part, {'/'}) && IsLower(part) && Untag(key) == part &&
      (if Special(part[0]) then key == part else key == "/" + part)
  {
    var pieces := Split(ToLower(pattern), '/');
    SplitOnPiecesFree(ToLower(pattern), {'/'});
    LowerPieces(pattern, pieces);
    forall j | 0 <= j < |PatternParts(pattern)|
      ensures Free(PatternParts(pattern)[j], {'/'}) && IsLower(PatternParts(pattern)[j])
    {
      assert PatternParts(pattern)[j] in pieces;
    }
  }

  /** Every piece of a split of a lower-case string is lower-case. */
  lemma LowerPieces(s: string, pieces: seq<string>)
    requires pieces == Split(ToLower(s), '/')
    ensures forall p :: p in pieces ==> IsLower(p)
  {
    ToLowerIdempotent(s);
    forall p | p in pieces ensures IsLower(p) {
      PiecesAreInfixes(ToLower(s), {'/'}, p);
    }
  }

  /** Every piece of a split is a contiguous part of the string. */
  lemma {:induction false} PiecesAreInfixes(s: string, seps: set<char>, p: string)
    requires p in SplitOn(s, seps)
    ensures forall i :: 0 <= i < |p| ==> p[i] in multiset(s)
  {
    if |s| > 0 {
      var tail := SplitOn(s[1..], seps);
      assert multiset(s) == multiset{s[0]} + multiset(s[1..]) by {
        assert s == [s[0]] + s[1..];
      }
      if s[0] in seps {
        if p != "" { PiecesAreInfixes(s[1..], seps, p); }
      } else if p == [s[0]] + tail[0] {
        assert tail[0] in tail;
        PiecesAreInfixes(s[1..], seps, tail[0]);
        forall i | 0 <= i < |p| ensures p[i] in multiset(s) {
          if i > 0 { assert p[i] == tail[0][i - 1]; }
        }
      } else {
        assert p in tail;
        PiecesAreInfixes(s[1..], seps, p);
      }
    }
  }

  /** strings.Contains(key, "(") && strings.HasSuffix(key, ")"). */
  predicate Constrained(key: string)
  {
    '(' in key && key[|key| - 1] == ')'
  }

  /** strings.Index for one character. */
  function IndexOf(s: string, c: char): (i: nat)
    requires c in s
    ensures i < |s| && s[i] == c && c !in s[..i]
  {
    if s[0] == c then 0 else 1 + IndexOf(s[1..], c)
  }

  /** strings.LastIndex for one character. */
  function LastIndexOf(s: string, c: char): (i: nat)
    requires c in s
    ensures i < |s| && s[i] == c && c !in s[i + 1..]
  {
    if s[|s| - 1] == c then |s| - 1 else LastIndexOf(s[..|s| - 1], c)
  }

  /** The first submatch of `\((.+)\)` in a constrained key: the text between
      the first '(' and the final ')', or "" when nothing lies between them. */
  function ConstraintPattern(key: string): (r: string)
    requires Constrained(key)
  {
    var open := IndexOf(key, '(');
    if open + 1 < |key| - 1 then key[open + 1..|key| - 1] else ""
  }

  /** The first submatch of `\:(.+)\(`: the text between the first ':' and the
      last '(', or "" when nothing lies between them. */
  function ConstraintName(key: string): (r: string)
    requires ':' in key && '(' in key
  {
    var colon, open := IndexOf(key, ':'), LastIndexOf(key, '(');
    if colon + 1 < open then key[colon + 1..open] else ""
  }

  /** A key "<marker>name(re)" whose name has no '(' and whose regex has no
      '(' parses back into its name and its regex. A regex that contains a
      group moves the name's end to the group's '(' instead. */
  lemma ConstraintRoundTrip(marker: string, name: string, re: string)
    requires marker == ":" || marker == "?:"
    requires name != "" && re != "" && '(' !in name && '(' !in re
    ensures Constrained(marker + name + "(" + re + ")")
    ensures ConstraintPattern(marker + name + "(" + re + ")") == re
    ensures ConstraintName(marker + name + "(" + re + ")") == name
  {
    var key := marker + name + "(" + re + ")";
    var m := |marker|;
    assert key[m + |name|] == '(';
    assert key[..m + |name|] == marker + name;
    assert IndexOf(key, '(') == m + |name|;
    assert key[m + |name| + 1..|key| - 1] == re;
    assert key[m - 1] == ':' && ':' !in key[..m - 1];
    assert IndexOf(key, ':') == m - 1;
    assert key[m + |name| + 1..] == re + ")";
    assert LastIndexOf(key, '(') == m + |name|;
    assert key[m..m + |name|] == name;
  }

  predicate Paren(c: char)
  {
    c == '(' || c == ')'
  }

  /** strings.TrimFunc(key, c == '(' || c == ')'): strips every leading and
      every trailing parenthesis. */
  function TrimParens(key: string): (r: string)
    ensures |r| > 0 ==> !Paren(r[0]) && !Paren(r[|r| - 1])
  {
    TrimRight(TrimLeft(key))
  }

  function TrimLeft(s: string): (r: string)
    ensures |r| > 0 ==> !Paren(r[0])
    ensures |r| <= |s| && r == s[|s| - |r|..]
  {
    if |s| > 0 && Paren(s[0]) then TrimLeft(s[1..]) else s
  }

  function TrimRight(s: string): (r: string)
    ensures |r| > 0 ==> !Paren(r[|r| - 1])
    ensures |r| <= |s| && r == s[..|r|]
  {
    if |s| > 0 && Paren(s[|s| - 1]) then TrimRight(s[..|s| - 1]) else s
  }

  /** A regex key "(re)" gives back `re` when `re` neither starts nor ends with
      a parenthesis. */
  lemma TrimParensRoundTrip(re: string)
    requires re != "" && !Paren(re[0]) && !Paren(re[|re| - 1])
    ensures TrimParens("(" + re + ")") == re
  {
    var key := "(" + re + ")";
    var tail := re + ")";
    assert key[1..] == tail;
    assert TrimLeft(tail) == tail;
    assert TrimLeft(key) == tail;
    assert tail[..|tail| - 1] == re;
    assert TrimRight(re) == re;
    assert TrimRight(tail) == re;
  }
  /** Parts a normalised pattern or path consists of: non-empty, lower-case
      and free of '/'. */
  predicate CleanParts(parts: seq<string>)
  {
    forall j :: 0 <= j < |parts| ==> parts[j] != "" && IsLower(parts[j]) && Free(parts[j], {'/'})
  }

  /** The parts, each after a '/'; no parts give the root "/". */
  function Slashed(parts: seq<string>): (w: string)
    ensures |w| > 0 && w[0] == '/'
  {
    if parts == [] then "/" else "/" + JoinWith(parts, '/')
  }

  /** A pattern made of clean parts, each after a '/', has exactly those
      parts; the pattern "/" has none. */
  lemma PartsOfJoin(parts: seq<string>)
    requires CleanParts(parts)
    ensures PatternParts(Slashed(parts)) == parts
  {
    var w := Slashed(parts);
    if parts == [] {
      LowerFixed("/");
      assert "/" == "" + ['/'] + "";
      SplitWord("", '/');
      SplitAfterWord("", '/', "");
      assert Split("/", '/') == ["", ""];
    } else {
      JoinLower(parts, '/');
      LowerFixed(w);
      SplitPath(parts);
      DropEmptyClean(parts);
    }
  }

  /** Splitting "/" + the joined parts on '/' gives "" and the parts. */
  lemma SplitPath(parts: seq<string>)
    requires |parts| >= 1 && CleanParts(parts)
    ensures Split("/" + JoinWith(parts, '/'), '/') == [""] + parts
  {
    var all := [""] + parts;
    assert all[1..] == parts;
    assert JoinWith(all, '/') == "/" + JoinWith(parts, '/');
    forall j | 0 <= j < |all| ensures Free(all[j], {'/'}) {
      if j > 0 { assert all[j] == parts[j - 1]; }
    }
    SplitJoin(all, '/');
  }

  /** An optional capture part is compiled verbatim, behind a literal one. */
  lemma OptionalPartCompiles()
    ensures Compiled("/a/?:fmt") == ["/a", "?:fmt"]
  {
    var parts := ["a", "?:fmt"];
    assert Slashed(parts) == "/a/?:fmt";
    PartsOfJoin(parts);
    assert TagAll(parts)[0] == "/a" && TagAll(parts)[1] == "?:fmt";
  }
}
