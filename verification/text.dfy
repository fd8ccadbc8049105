/** The handful of JavaScript string operations the dashboard relies on,
    stated over `seq<char>`: `split` and `join` on a one-character separator,
    `startsWith`, `replace` with a string pattern (first occurrence only),
    `substring(start)` and `trim`. */
module Text {
  import opened Optional

  /* ---------------------------------------------------------------------- */
  /* split / join                                                           */
  /* ---------------------------------------------------------------------- */

  /** The number of occurrences of `c` in `s`. */
  function Count(s: string, c: char): nat
  {
    if |s| == 0 then 0 else (if s[0] == c then 1 else 0) + Count(s[1..], c)
  }

  /** `s.split(sep)` for a one-character separator: the maximal
      separator-free segments of `s`, in order. There is always one more
      segment than there are separators, so `""` splits into `[""]`. */
  function Split(s: string, sep: char): (parts: seq<string>)
    ensures |parts| == Count(s, sep) + 1
    ensures forall i :: 0 <= i < |parts| ==> sep !in parts[i]
    decreases |s|
  {
    if |s| == 0 then [""]
    else
      var rest := Split(s[1..], sep);
      if s[0] == sep then [""] + rest
      else [[s[0]] + rest[0]] + rest[1..]
  }

  /** `parts.join(sep)`: the parts with one separator between neighbours;
      the empty array joins to `""`. The result opens with the first part,
      followed by a separator when there is a second part. */
  function Join(parts: seq<string>, sep: char): (r: string)
    ensures |parts| == 0 ==> r == ""
    ensures |parts| > 0 ==> StartsWith(r, parts[0])
    ensures |parts| > 1 ==> |r| > |parts[0]| && r[|parts[0]|] == sep
  {
    if |parts| == 0 then ""
    else if |parts| == 1 then parts[0]
    else parts[0] + [sep] + Join(parts[1..], sep)
  }

  /** Joining the segments of a split with the same separator gives back
      the original string. */
  lemma {:induction false} JoinSplit(s: string, sep: char)
    ensures Join(Split(s, sep), sep) == s
    decreases |s|
  {
    if |s| > 0 {
      var rest := Split(s[1..], sep);
      JoinSplit(s[1..], sep);
      assert s == [s[0]] + s[1..];
      var parts := Split(s, sep);
      if s[0] == sep {
        assert parts == [""] + rest;
        assert parts[1..] == rest;
        assert Join(parts, sep) == "" + [sep] + Join(rest, sep);
      } else {
        assert parts == [[s[0]] + rest[0]] + rest[1..];
        if |rest| == 1 {
          assert Join(parts, sep) == [s[0]] + rest[0];
        } else {
          assert parts[1..] == rest[1..];
          assert Join(parts, sep) == [s[0]] + rest[0] + [sep] + Join(rest[1..], sep);
          assert Join(rest, sep) == rest[0] + [sep] + Join(rest[1..], sep);
        }
      }
    }
  }

  /** A string without the separator is its own only segment. */
  lemma {:induction false} SplitWithoutSeparator(s: string, sep: char)
    requires sep !in s
    ensures Split(s, sep) == [s]
  {
    var parts := Split(s, sep);
    NoOccurrences(s, sep);
    assert |parts| == 1;
    JoinSplit(s, sep);
  }

  lemma {:induction false} NoOccurrences(s: string, c: char)
    requires c !in s
    ensures Count(s, c) == 0
    decreases |s|
  {
    if |s| > 0 {
      assert c !in s[1..];
      NoOccurrences(s[1..], c);
    }
  }

  /** Splitting distributes over a separator placed between two strings. */
  lemma {:induction false} SplitAround(a: string, b: string, sep: char)
    ensures Split(a + [sep] + b, sep) == Split(a, sep) + Split(b, sep)
    decreases |a|
  {
    var s := a + [sep] + b;
    if |a| == 0 {
      assert s == [sep] + b;
      assert s[1..] == b;
    } else {
      assert s[0] == a[0];
      assert s[1..] == a[1..] + [sep] + b;
      SplitAround(a[1..], b, sep);
    }
  }

  /** Splitting a join of separator-free parts gives back the parts: the
      two operations are inverse on non-empty part lists. */
  lemma {:induction false} SplitJoin(parts: seq<string>, sep: char)
    requires |parts| > 0
    requires forall i :: 0 <= i < |parts| ==> sep !in parts[i]
    ensures Split(Join(parts, sep), sep) == parts
    decreases |parts|
  {
    SplitWithoutSeparator(parts[0], sep);
    if |parts| > 1 {
      SplitJoin(parts[1..], sep);
      SplitAround(parts[0], Join(parts[1..], sep), sep);
      assert parts == [parts[0]] + parts[1..];
    }
  }

  /* ---------------------------------------------------------------------- */
  /* startsWith / replace / substring                                       */
  /* ---------------------------------------------------------------------- */

  /** `s.startsWith(p)`. */
  predicate StartsWith(s: string, p: string)
  {
    |p| <= |s| && s[..|p|] == p
  }

  /** `pat` occurs in `s` at position `k`. */
  predicate OccursAt(s: string, pat: string, k: int)
  {
    0 <= k && k + |pat| <= |s| && s[k..k + |pat|] == pat
  }

  /** `s.indexOf(pat, from)`, with `None` for JavaScript's `-1`: the first
      position at or after `from` where `pat` occurs. */
  function IndexFrom(s: string, pat: string, from: nat): (r: Option<nat>)
    requires from <= |s|
    ensures r.Some? ==> from <= r.value && OccursAt(s, pat, r.value)
    ensures r.Some? ==> forall k :: from <= k < r.value ==> !OccursAt(s, pat, k)
    ensures r.None? ==> forall k :: from <= k ==> !OccursAt(s, pat, k)
    decreases |s| - from
  {
    if OccursAt(s, pat, from) then Some(from)
    else if from == |s| then None
    else IndexFrom(s, pat, from + 1)
  }

  /** `s.replace(pat, rep)` with a string pattern: only the FIRST occurrence
      is replaced, and a string without `pat` is returned unchanged. */
  function ReplaceFirst(s: string, pat: string, rep: string): (r: string)
    ensures (forall k :: !OccursAt(s, pat, k)) ==> r == s
  {
    match IndexFrom(s, pat, 0)
    case None => s
    case Some(i) => s[..i] + rep + s[i + |pat|..]
  }

  /** Deleting the first occurrence of a prefix the string starts with
      removes exactly that prefix. */
  lemma ReplacePrefix(s: string, pat: string)
    requires StartsWith(s, pat)
    ensures ReplaceFirst(s, pat, "") == s[|pat|..]
  {
    assert OccursAt(s, pat, 0);
  }

  /** `s.substring(start)` for a non-negative start: a start past the end
      yields `""` instead of failing. */
  function SubstringFrom(s: string, start: nat): (r: string)
    ensures start <= |s| ==> s == s[..start] + r
    ensures start >= |s| ==> r == ""
  {
    if start >= |s| then "" else s[start..]
  }

  /* ---------------------------------------------------------------------- */
  /* trim                                                                   */
  /* ---------------------------------------------------------------------- */

  /** The characters `String.prototype.trim` strips: the ECMAScript
      WhiteSpace and LineTerminator code points (tab, vertical tab, form
      feed, the byte-order mark, the space separators of Unicode category
      Zs, line feed, carriage return, and the line and paragraph
      separators). */
  predicate IsWhitespace(c: char)
  {
    || c == '\t' || c == '\n' || c == '\U{0B}' || c == '\U{0C}' || c == '\r'
    || c == ' ' || c == '\U{A0}' || c == '\U{1680}'
    || ('\U{2000}' <= c <= '\U{200A}')
    || c == '\U{2028}' || c == '\U{2029}' || c == '\U{202F}' || c == '\U{205F}'
    || c == '\U{3000}' || c == '\U{FEFF}'
  }

  /** Every character of `w` is whitespace. */
  predicate AllWhitespace(w: string)
  {
    forall k :: 0 <= k < |w| ==> IsWhitespace(w[k])
  }

  lemma AllWhitespaceConcat(a: string, b: string)
    requires AllWhitespace(a) && AllWhitespace(b)
    ensures AllWhitespace(a + b)
  {
    forall k | 0 <= k < |a + b|
      ensures IsWhitespace((a + b)[k])
    {
      if k < |a| {
        assert (a + b)[k] == a[k];
      } else {
        assert (a + b)[k] == b[k - |a|];
      }
    }
  }

  /** `s` starts and ends with something other than whitespace (or is empty). */
  predicate IsTrimmed(s: string)
  {
    |s| > 0 ==> !IsWhitespace(s[0]) && !IsWhitespace(s[|s| - 1])
  }

  /** `s` with its leading whitespace removed: the longest suffix of `s`
      whose dropped part is all whitespace. */
  function TrimStart(s: string): (r: string)
    ensures |r| <= |s| && s == s[..|s| - |r|] + r
    ensures AllWhitespace(s[..|s| - |r|])
    ensures |r| > 0 ==> !IsWhitespace(r[0])
    decreases |s|
  {
    if |s| > 0 && IsWhitespace(s[0]) then
      var r := TrimStart(s[1..]);
      var dropped := s[1..][..|s| - 1 - |r|];
      assert s[1..] == dropped + r;
      assert s == [s[0]] + dropped + r;
      assert s[..|s| - |r|] == [s[0]] + dropped;
      assert AllWhitespace([s[0]]);
      AllWhitespaceConcat([s[0]], dropped);
      r
    else s
  }

  /** `s` with its trailing whitespace removed: the longest prefix of `s`
      whose dropped part is all whitespace. */
  function TrimEnd(s: string): (r: string)
    ensures |r| <= |s| && s == r + s[|r|..]
    ensures AllWhitespace(s[|r|..])
    ensures |r| > 0 ==> !IsWhitespace(r[|r| - 1])
    decreases |s|
  {
    if |s| > 0 && IsWhitespace(s[|s| - 1]) then
      var r := TrimEnd(s[..|s| - 1]);
      var dropped := s[..|s| - 1][|r|..];
      assert s[..|s| - 1] == r + dropped;
      assert s == r + dropped + [s[|s| - 1]];
      assert s[|r|..] == dropped + [s[|s| - 1]];
      assert AllWhitespace([s[|s| - 1]]);
      AllWhitespaceConcat(dropped, [s[|s| - 1]]);
      r
    else s
  }

  /** `r` sits at position `i` of `s` and everything of `s` around it is
      whitespace. */
  predicate IsWhitespaceFramed(s: string, r: string, i: int)
  {
    && 0 <= i <= |s| - |r|
    && s == s[..i] + r + s[i + |r|..]
    && AllWhitespace(s[..i])
    && AllWhitespace(s[i + |r|..])
  }

  /** Whitespace in front of `t`, where `t` is `r` followed by whitespace,
      frames `r`. */
  lemma FramedByParts(s: string, t: string, r: string)
    requires |t| <= |s| && s == s[..|s| - |t|] + t && AllWhitespace(s[..|s| - |t|])
    requires |r| <= |t| && t == r + t[|r|..] && AllWhitespace(t[|r|..])
    ensures IsWhitespaceFramed(s, r, |s| - |t|)
  {
    var i := |s| - |t|;
    var tail := t[|r|..];
    assert s[..i] + r + tail == s[..i] + (r + tail);
    assert s[i + |r|..] == tail;
  }

  /** Trimming the start and then the end leaves a window framed by
      whitespace. */
  lemma TrimFramed(s: string)
    ensures IsWhitespaceFramed(s, TrimEnd(TrimStart(s)), |s| - |TrimStart(s)|)
  {
    var t := TrimStart(s);
    FramedByParts(s, t, TrimEnd(t));
  }

  /** `s.trim()`: the window of `s` left after removing whitespace from both
      ends. Everything around the window is whitespace, and the window
      itself neither starts nor ends with whitespace. */
  function Trim(s: string): (r: string)
    ensures IsTrimmed(r)
    ensures exists i :: IsWhitespaceFramed(s, r, i)
  {
    TrimFramed(s);
    TrimEnd(TrimStart(s))
  }

  /** Trimming is idempotent. */
  lemma TrimIdempotent(s: string)
    ensures Trim(Trim(s)) == Trim(s)
  {
    var r := Trim(s);
    TrimmedIsFixed(r);
  }

  /** A string that is already trimmed is left alone by `Trim`. */
  lemma TrimmedIsFixed(s: string)
    requires IsTrimmed(s)
    ensures Trim(s) == s
  {
    assert TrimStart(s) == s;
    assert TrimEnd(s) == s;
  }
}
