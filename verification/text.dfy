/** String helpers with Go's semantics: strings.Split, strings.FieldsFunc,
    strings.ToLower (ASCII only) and the re-joining that inverts a split. */
module Text {

  /** strings.Split generalised to a set of one-character separators: every
      separator occurrence ends one piece, so n separators give n + 1 pieces. */
  function SplitOn(s: string, seps: set<char>): (parts: seq<string>)
    ensures |parts| >= 1
  {
    if |s| == 0 then [""]
    else
      var tail := SplitOn(s[1..], seps);
      if s[0] in seps then [""] + tail else [[s[0]] + tail[0]] + tail[1..]
  }

  /** strings.Split(s, string(sep)). */
  function Split(s: string, sep: char): (r: seq<string>)
  {
    SplitOn(s, {sep})
  }

  /** The pieces of `parts` that are not empty, in order. */
  function DropEmpty(parts: seq<string>): (r: seq<string>)
    ensures |r| <= |parts|
    ensures forall p :: p in r ==> p in parts && p != ""
    ensures forall j :: 0 <= j < |r| ==> r[j] != ""
    ensures forall p :: p in parts && p != "" ==> p in r
  {
    if parts == [] then []
    else if parts[0] == "" then DropEmpty(parts[1..])
    else [parts[0]] + DropEmpty(parts[1..])
  }

  /** strings.HasPrefix. */
  predicate HasPrefix(s: string, pre: string)
  {
    |pre| <= |s| && s[..|pre|] == pre
  }

  /** strings.HasSuffix. */
  predicate HasSuffix(s: string, suf: string)
  {
    |suf| <= |s| && s[|s| - |suf|..] == suf
  }

  /** DropEmpty works piece by piece, so it can be computed left to right. */
  lemma {:induction false} DropEmptySnoc(parts: seq<string>, p: string)
    ensures DropEmpty(parts + [p]) == DropEmpty(parts) + (if p == "" then [] else [p])
  {
    if parts != [] {
      DropEmptySnoc(parts[1..], p);
      assert (parts + [p])[1..] == parts[1..] + [p];
    }
  }

  /** strings.FieldsFunc(s, c in seps): the maximal non-empty runs of
      non-separator characters. */
  function Fields(s: string, seps: set<char>): (r: seq<string>)
  {
    DropEmpty(SplitOn(s, seps))
  }

  /** strings.Join(parts, string(sep)). */
  function JoinWith(parts: seq<string>, sep: char): (r: string)
    requires |parts| >= 1
  {
    if |parts| == 1 then parts[0] else parts[0] + [sep] + JoinWith(parts[1..], sep)
  }

  predicate Free(s: string, seps: set<char>)
  {
    forall i :: 0 <= i < |s| ==> s[i] !in seps
  }

  /** Every character of `s` is a separator (true of the empty string). */
  predicate OnlySeps(s: string, seps: set<char>)
  {
    forall i :: 0 <= i < |s| ==> s[i] in seps
  }

  /** ASCII lower-casing of one character. */
  function Lower(c: char): (r: char)
  {
    if 'A' <= c <= 'Z' then (c as int + 32) as char else c
  }

  function ToLower(s: string): (r: string)
    ensures |r| == |s|
  {
    seq(|s|, i requires 0 <= i < |s| => Lower(s[i]))
  }

  predicate IsLower(s: string)
  {
    forall i :: 0 <= i < |s| ==> !('A' <= s[i] <= 'Z')
  }

  /** No piece of a split contains a separator. */
  lemma {:induction false} SplitOnPiecesFree(s: string, seps: set<char>)
    ensures forall p :: p in SplitOn(s, seps) ==> Free(p, seps)
  {
    if |s| > 0 {
      SplitOnPiecesFree(s[1..], seps);
      var tail := SplitOn(s[1..], seps);
      if s[0] !in seps {
        var head := [s[0]] + tail[0];
        assert tail[0] in tail;
        assert Free(head, seps) by {
          forall i | 0 <= i < |head| ensures head[i] !in seps {
            if i > 0 { assert head[i] == tail[0][i - 1]; }
          }
        }
        forall p | p in SplitOn(s, seps) ensures Free(p, seps) {
          if p != head { assert p in tail[1..]; }
        }
      }
    }
  }

  /** Re-joining the pieces with the separator gives the string back. */
  lemma {:induction false} JoinSplit(s: string, sep: char)
    ensures JoinWith(Split(s, sep), sep) == s
  {
    if |s| > 0 {
      JoinSplit(s[1..], sep);
      var tail := Split(s[1..], sep);
      if s[0] == sep {
        assert Split(s, sep) == [""] + tail;
        assert ([""] + tail)[1..] == tail;
      } else {
        assert Split(s, sep) == [[s[0]] + tail[0]] + tail[1..];
        if |tail| > 1 {
          assert ([[s[0]] + tail[0]] + tail[1..])[1..] == tail[1..];
          assert JoinWith(tail, sep) == tail[0] + [sep] + JoinWith(tail[1..], sep);
        }
      }
    }
  }

  /** A separator-free word followed by the separator is one piece. */
  lemma {:induction false} SplitAfterWord(w: string, sep: char, rest: string)
    requires Free(w, {sep})
    ensures Split(w + [sep] + rest, sep) == [w] + Split(rest, sep)
  {
    if |w| == 0 {
      assert w + [sep] + rest == [sep] + rest;
      assert ([sep] + rest)[1..] == rest;
    } else {
      SplitAfterWord(w[1..], sep, rest);
      assert (w + [sep] + rest)[1..] == w[1..] + [sep] + rest;
      assert [w[0]] + w[1..] == w;
    }
  }

  /** A separator-free string is a single piece. */
  lemma {:induction false} SplitWord(w: string, sep: char)
    requires Free(w, {sep})
    ensures Split(w, sep) == [w]
  {
    if |w| > 0 {
      SplitWord(w[1..], sep);
      assert [w[0]] + w[1..] == w;
    }
  }

  /** Splitting a join of separator-free pieces gives the pieces back. */
  lemma {:induction false} SplitJoin(parts: seq<string>, sep: char)
    requires |parts| >= 1
    requires forall j :: 0 <= j < |parts| ==> Free(parts[j], {sep})
    ensures Split(JoinWith(parts, sep), sep) == parts
  {
    if |parts| == 1 {
      SplitWord(parts[0], sep);
    } else {
      SplitJoin(parts[1..], sep);
      SplitAfterWord(parts[0], sep, JoinWith(parts[1..], sep));
      assert [parts[0]] + parts[1..] == parts;
    }
  }

  /** FieldsFunc finds a field exactly when some character is not a separator. */
  lemma {:induction false} FieldsNonEmpty(s: string, seps: set<char>)
    ensures |Fields(s, seps)| > 0 <==> !OnlySeps(s, seps)
  {
    if |s| > 0 {
      FieldsNonEmpty(s[1..], seps);
      var tail := SplitOn(s[1..], seps);
      if s[0] in seps {
        assert SplitOn(s, seps) == [""] + tail;
        assert ([""] + tail)[1..] == tail;
        assert OnlySeps(s, seps) <==> OnlySeps(s[1..], seps) by {
          if OnlySeps(s[1..], seps) {
            forall i | 0 <= i < |s| ensures s[i] in seps {
              if i > 0 { assert s[i] == s[1..][i - 1]; }
            }
          }
        }
      } else {
        assert SplitOn(s, seps)[0] == [s[0]] + tail[0];
      }
    }
  }

  /** A string free of separators splits into itself alone. */
  lemma {:induction false} SplitOnWord(s: string, seps: set<char>)
    requires Free(s, seps)
    ensures SplitOn(s, seps) == [s]
  {
    if |s| > 0 {
      SplitOnWord(s[1..], seps);
      assert [s[0]] + s[1..] == s;
    }
  }

  /** Lower-casing is idempotent and leaves a lower-case string. */
  lemma ToLowerIdempotent(s: string)
    ensures IsLower(ToLower(s)) && ToLower(ToLower(s)) == ToLower(s)
  {
  }

  /** A separator-free word at the front of a string extends its first piece. */
  lemma {:induction false} SplitOnHead(w: string, rest: string, seps: set<char>)
    requires Free(w, seps)
    ensures SplitOn(w + rest, seps)[0] == w + SplitOn(rest, seps)[0]
  {
    if |w| > 0 {
      SplitOnHead(w[1..], rest, seps);
      assert (w + rest)[1..] == w[1..] + rest;
      assert [w[0]] + w[1..] == w;
    } else {
      assert w + rest == rest;
    }
  }

  /** Dropping empty pieces keeps a list without empty pieces as it is. */
  lemma {:induction false} DropEmptyClean(parts: seq<string>)
    requires forall j :: 0 <= j < |parts| ==> parts[j] != ""
    ensures DropEmpty(parts) == parts
  {
    if parts != [] {
      DropEmptyClean(parts[1..]);
    }
  }

  /** Joining pieces free of some characters, with a separator that is not one
      of them, gives a string free of them. */
  lemma {:induction false} JoinFree(parts: seq<string>, sep: char, bad: set<char>)
    requires |parts| >= 1 && sep !in bad
    requires forall j :: 0 <= j < |parts| ==> Free(parts[j], bad)
    ensures Free(JoinWith(parts, sep), bad)
  {
    if |parts| > 1 {
      JoinFree(parts[1..], sep, bad);
    }
  }

  /** Joining lower-case pieces with a lower-case separator is lower-case. */
  lemma {:induction false} JoinLower(parts: seq<string>, sep: char)
    requires |parts| >= 1 && !('A' <= sep <= 'Z')
    requires forall j :: 0 <= j < |parts| ==> IsLower(parts[j])
    ensures IsLower(JoinWith(parts, sep))
  {
    if |parts| > 1 {
      JoinLower(parts[1..], sep);
    }
  }

  /** Lower-casing leaves a lower-case string alone. */
  lemma LowerFixed(s: string)
    requires IsLower(s)
    ensures ToLower(s) == s
  {
  }
}
