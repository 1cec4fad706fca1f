/**
 * The string operations the grammar reader relies on, written out for the
 * patterns it uses: Python's `str.strip()`, `str.startswith`, `str.find`,
 * `str.split`, a `re.search` for the non-terminal pattern `<.+?>`, and the
 * `re.findall` that cuts an alternative into bracketed and bracket-free runs.
 */
module Text {
  import opened Common

  /** The characters Python's `str.isspace` accepts; `str.strip()` removes exactly these at both ends. */
  predicate IsSpace(c: char)
  {
    ('\t' <= c <= '\r') || ('\U{1C}' <= c <= ' ') || c == '\U{85}' || c == '\U{A0}'
    || c == '\U{1680}' || ('\U{2000}' <= c <= '\U{200A}') || c == '\U{2028}' || c == '\U{2029}'
    || c == '\U{202F}' || c == '\U{205F}' || c == '\U{3000}'
  }

  /** `s` without its leading white space. */
  function TrimStart(s: string): string
    decreases |s|
  {
    if s != [] && IsSpace(s[0]) then TrimStart(s[1..]) else s
  }

  /** The trimmed text is the shortest suffix that does not start with a space. */
  lemma {:induction false} TrimStartFacts(s: string)
    ensures var r := TrimStart(s);
            && |r| <= |s| && r == s[|s| - |r|..]
            && (forall i :: 0 <= i < |s| - |r| ==> IsSpace(s[i]))
            && (r != [] ==> !IsSpace(r[0]))
    decreases |s|
  {
    if s != [] && IsSpace(s[0]) {
      TrimStartFacts(s[1..]);
    }
  }

  /** `s` without its trailing white space. */
  function TrimEnd(s: string): string
    decreases |s|
  {
    if s != [] && IsSpace(s[|s| - 1]) then TrimEnd(s[..|s| - 1]) else s
  }

  /** The trimmed text is the shortest prefix that does not end with a space. */
  lemma {:induction false} TrimEndFacts(s: string)
    ensures var r := TrimEnd(s);
            && |r| <= |s| && r == s[..|r|]
            && (forall i :: |r| <= i < |s| ==> IsSpace(s[i]))
            && (r != [] ==> !IsSpace(r[|r| - 1]))
    decreases |s|
  {
    if s != [] && IsSpace(s[|s| - 1]) {
      TrimEndFacts(s[..|s| - 1]);
    }
  }

  /** Python `s.strip()`. */
  function Strip(s: string): string
  {
    TrimEnd(TrimStart(s))
  }

  /** A line is blank for the reader exactly when every character of it is white space. */
  lemma StripEmptyIffBlank(s: string)
    ensures Strip(s) == [] <==> forall i :: 0 <= i < |s| ==> IsSpace(s[i])
  {
    TrimStartFacts(s);
    TrimEndFacts(TrimStart(s));
  }

  /** Python `s.startswith(p)`. */
  predicate StartsWith(s: string, p: string)
  {
    |p| <= |s| && s[..|p|] == p
  }

  /** `sep` occurs in `s` at index `i`. */
  predicate OccursAt(s: string, sep: string, i: int)
  {
    0 <= i && i + |sep| <= |s| && s[i..i + |sep|] == sep
  }

  /** The first occurrence of `sep` in `s` at `i` or later, or -1. */
  function FindFrom(s: string, sep: string, i: nat): (r: int)
    requires |sep| > 0
    ensures r == -1 || (i <= r && OccursAt(s, sep, r))
    ensures forall k :: i <= k && (r == -1 || k < r) ==> !OccursAt(s, sep, k)
    decreases |s| - i
  {
    if i + |sep| > |s| then -1
    else if s[i..i + |sep|] == sep then i
    else FindFrom(s, sep, i + 1)
  }

  /** Python `s.find(sep)`: the index of the first occurrence, or -1 when there is none. */
  function Find(s: string, sep: string): int
    requires |sep| > 0
  {
    FindFrom(s, sep, 0)
  }

  /** Text in front of the first occurrence of `sep` contains no occurrence of it. */
  lemma PrefixBeforeFirst(s: string, sep: string, i: int)
    requires |sep| > 0 && 0 <= i <= |s|
    requires forall k :: 0 <= k < i ==> !OccursAt(s, sep, k)
    ensures Find(s[..i], sep) == -1
  {
    var t := s[..i];
    var r := Find(t, sep);
    if r != -1 {
      assert t[r..r + |sep|] == s[r..r + |sep|];
      assert OccursAt(s, sep, r);
    }
  }

  /** Python `s.split(sep)` for a non-empty separator: the pieces between non-overlapping occurrences, left to right. */
  function SplitOn(s: string, sep: string): (parts: seq<string>)
    requires |sep| > 0
    ensures |parts| >= 1
    decreases |s|
  {
    var i := Find(s, sep);
    if i < 0 then [s] else [s[..i]] + SplitOn(s[i + |sep|..], sep)
  }

  /** No piece of a split contains the separator. */
  lemma {:induction false} SplitPiecesLackSeparator(s: string, sep: string)
    requires |sep| > 0
    ensures forall k :: 0 <= k < |SplitOn(s, sep)| ==> Find(SplitOn(s, sep)[k], sep) == -1
    decreases |s|
  {
    var i := Find(s, sep);
    var parts := SplitOn(s, sep);
    if i >= 0 {
      var tail := SplitOn(s[i + |sep|..], sep);
      PrefixBeforeFirst(s, sep, i);
      SplitPiecesLackSeparator(s[i + |sep|..], sep);
      assert parts == [s[..i]] + tail;
      forall k | 0 <= k < |parts| ensures Find(parts[k], sep) == -1 {
        if k > 0 {
          assert parts[k] == tail[k - 1];
        }
      }
    } else {
      assert parts == [s];
    }
  }

  /** Python `sep.join(parts)`. */
  function JoinWith(parts: seq<string>, sep: string): string
    requires |parts| >= 1
  {
    if |parts| == 1 then parts[0] else parts[0] + sep + JoinWith(parts[1..], sep)
  }

  /** Python `"".join(parts)`. */
  function Concat(parts: seq<string>): string
  {
    if parts == [] then "" else parts[0] + Concat(parts[1..])
  }

  /** Splitting loses nothing: joining the pieces with the separator gives back the text. */
  lemma {:induction false} SplitJoin(s: string, sep: string)
    requires |sep| > 0
    ensures JoinWith(SplitOn(s, sep), sep) == s
    decreases |s|
  {
    var i := Find(s, sep);
    if i >= 0 {
      var rest := s[i + |sep|..];
      var tail := SplitOn(rest, sep);
      SplitJoin(rest, sep);
      assert SplitOn(s, sep) == [s[..i]] + tail;
      JoinCons(s[..i], tail, sep);
      assert s[i..i + |sep|] == sep;
      assert s == s[..i] + sep + rest;
    }
  }

  lemma JoinCons(head: string, tail: seq<string>, sep: string)
    requires |tail| >= 1
    ensures JoinWith([head] + tail, sep) == head + sep + JoinWith(tail, sep)
  {
    assert ([head] + tail)[1..] == tail;
  }

  /** A text without the separator is one piece. */
  lemma SplitWithoutSeparator(s: string, sep: string)
    requires |sep| > 0 && Find(s, sep) == -1
    ensures SplitOn(s, sep) == [s]
  {
  }

  /**
   * A match of `<.+?>` from `p` to `j`: `<` at `p`, `>` at `j`, at least one
   * character in between and no line break among those (`.` does not match `\n`).
   */
  predicate SpanAt(s: string, p: int, j: int)
  {
    0 <= p && p + 2 <= j < |s| && s[p] == '<' && s[j] == '>'
    && forall k :: p < k < j ==> s[k] != '\n'
  }

  /** Python `re.search("(<.+?>)", s)` finds a match. */
  predicate HasNTSpan(s: string)
  {
    exists p, j :: 0 <= p < |s| && 0 <= j < |s| && SpanAt(s, p, j)
  }

  /**
   * Where the lazy `.+?` after a `<` at `p` stops, scanning from `k`: the first
   * `>` at `p + 2` or later, or None when a line break or the end comes first.
   */
  function CloseFrom(s: string, p: nat, k: nat): (r: Option<nat>)
    requires p < k
    ensures r.Some? ==> k <= r.value < |s| && p + 2 <= r.value && s[r.value] == '>'
    ensures r.Some? ==> forall m :: k <= m < r.value ==> s[m] != '\n'
    ensures r.Some? ==> forall m :: k <= m < r.value ==> !(s[m] == '>' && p + 2 <= m)
    ensures r.None? ==> forall j :: k <= j < |s| && p + 2 <= j && s[j] == '>' ==>
                          exists m :: k <= m < j && s[m] == '\n'
    decreases |s| - k
  {
    if k >= |s| then None
    else if s[k] == '\n' then None
    else if s[k] == '>' && k >= p + 2 then Some(k)
    else CloseFrom(s, p, k + 1)
  }

  /** The `<` at `p` opens a match exactly when the lazy scan finds its `>`, and that `>` ends the shortest match. */
  lemma CloseFindsSpan(s: string, p: nat)
    requires p < |s| && s[p] == '<'
    ensures CloseFrom(s, p, p + 1).Some? <==> exists j :: 0 <= j < |s| && SpanAt(s, p, j)
    ensures CloseFrom(s, p, p + 1).Some? ==> SpanAt(s, p, CloseFrom(s, p, p + 1).value)
  {
    var c := CloseFrom(s, p, p + 1);
    if c.Some? {
      assert SpanAt(s, p, c.value);
    } else {
      forall j | 0 <= j < |s| ensures !SpanAt(s, p, j) {
      }
    }
  }

  /** The end of the bracket-free run starting at `p`. */
  function RunEnd(s: string, p: nat): (q: nat)
    requires p <= |s|
    ensures p <= q <= |s|
    ensures forall k :: p <= k < q ==> s[k] != '<' && s[k] != '>'
    ensures q < |s| ==> s[q] == '<' || s[q] == '>'
    decreases |s| - p
  {
    if p == |s| || s[p] == '<' || s[p] == '>' then p else RunEnd(s, p + 1)
  }

  /**
   * Python (3.7 or later) `re.findall("<.+?>|[^<>]*", s[p..])`, empty matches
   * included. A `<` that opens no match and a `>` give an empty match; the
   * engine then has to move past that character, which is thereby dropped.
   */
  function FindAllFrom(s: string, p: nat): seq<string>
    requires p <= |s|
    decreases |s| - p
  {
    if p == |s| then [""]
    else if s[p] == '<' && CloseFrom(s, p, p + 1).Some? then
      var j := CloseFrom(s, p, p + 1).value;
      [s[p..j + 1]] + FindAllFrom(s, j + 1)
    else if s[p] == '<' || s[p] == '>' then [""] + FindAllFrom(s, p + 1)
    else
      var q := RunEnd(s, p);
      [s[p..q]] + FindAllFrom(s, q)
  }

  /** Every piece the tokeniser returns is empty, a non-terminal span, or a non-empty bracket-free run. */
  predicate TokenShape(t: string)
  {
    t == "" || (t[0] == '<' && HasNTSpan(t))
    || (forall k :: 0 <= k < |t| ==> t[k] != '<' && t[k] != '>')
  }

  /** Text with no `<` holds no non-terminal span. */
  lemma NoBracketNoSpan(t: string)
    requires forall k :: 0 <= k < |t| ==> t[k] != '<'
    ensures !HasNTSpan(t)
  {
  }

  lemma {:induction false} FindAllShapes(s: string, p: nat)
    requires p <= |s|
    ensures forall i :: 0 <= i < |FindAllFrom(s, p)| ==> TokenShape(FindAllFrom(s, p)[i])
    decreases |s| - p
  {
    if p == |s| {
    } else if s[p] == '<' && CloseFrom(s, p, p + 1).Some? {
      var j := CloseFrom(s, p, p + 1).value;
      CloseFindsSpan(s, p);
      var t := s[p..j + 1];
      assert SpanAt(t, 0, j - p);
      FindAllShapes(s, j + 1);
    } else if s[p] == '<' || s[p] == '>' {
      FindAllShapes(s, p + 1);
    } else {
      FindAllShapes(s, RunEnd(s, p));
    }
  }

  /** If a match of `<.+?>` starts at `p0` or later, the tokeniser returns a piece holding a non-terminal span. */
  lemma {:induction false} FindAllKeepsSpan(s: string, p: nat, p0: nat, j0: nat)
    requires p <= p0 && SpanAt(s, p0, j0)
    ensures exists i :: 0 <= i < |FindAllFrom(s, p)| && HasNTSpan(FindAllFrom(s, p)[i])
    decreases |s| - p
  {
    var toks := FindAllFrom(s, p);
    if s[p] == '<' && CloseFrom(s, p, p + 1).Some? {
      var j := CloseFrom(s, p, p + 1).value;
      CloseFindsSpan(s, p);
      var t := s[p..j + 1];
      assert SpanAt(t, 0, j - p);
      assert toks[0] == t;
    } else if s[p] == '<' || s[p] == '>' {
      if p == p0 {
        CloseFindsSpan(s, p);
        assert false;
      }
      FindAllKeepsSpan(s, p + 1, p0, j0);
      var i :| 0 <= i < |FindAllFrom(s, p + 1)| && HasNTSpan(FindAllFrom(s, p + 1)[i]);
      assert toks[i + 1] == FindAllFrom(s, p + 1)[i];
    } else {
      var q := RunEnd(s, p);
      assert q <= p0;
      FindAllKeepsSpan(s, q, p0, j0);
      var i :| 0 <= i < |FindAllFrom(s, q)| && HasNTSpan(FindAllFrom(s, q)[i]);
      assert toks[i + 1] == FindAllFrom(s, q)[i];
    }
  }
}
