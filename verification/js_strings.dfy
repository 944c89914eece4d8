/**
 The handful of JavaScript string operations the pipeline relies on:
 `String.prototype.trim`, `split` with a non-empty string separator,
 `Array.prototype.join`, and the `s || fallback` idiom. `IndexOf` is the
 first-occurrence search that `split` performs; the pipeline does not call
 `indexOf` itself.
 Strings are sequences of Unicode scalar values.
 */
module JsStrings {
  import opened Wrappers

  /** The WhiteSpace and LineTerminator characters of ECMA-262, which `trim` removes. */
  predicate IsWhitespace(c: char) {
    || c == ' ' || c == '\t' || c == '\n' || c == '\r'
    || c == '\U{000B}' || c == '\U{000C}' || c == '\U{00A0}' || c == '\U{1680}'
    || ('\U{2000}' <= c <= '\U{200A}')
    || c == '\U{2028}' || c == '\U{2029}' || c == '\U{202F}' || c == '\U{205F}'
    || c == '\U{3000}' || c == '\U{FEFF}'
  }

  /** The LineTerminator characters of ECMA-262: the ones a regular-expression `.` does not match. */
  predicate IsLineTerminator(c: char) {
    c == '\n' || c == '\r' || c == '\U{2028}' || c == '\U{2029}'
  }

  predicate AllWhitespace(s: string) {
    forall i :: 0 <= i < |s| ==> IsWhitespace(s[i])
  }

  /** A string that `trim` leaves unchanged: empty, or starting and ending with a visible character. */
  predicate IsTrimmed(s: string) {
    s == [] || (!IsWhitespace(s[0]) && !IsWhitespace(s[|s| - 1]))
  }

  /** The index of the first visible character at or after `i`, or `|s|` when there is none. */
  function SkipWhitespace(s: string, i: nat): (r: nat)
    requires i <= |s|
    ensures i <= r <= |s|
    ensures forall k :: i <= k < r ==> IsWhitespace(s[k])
    ensures r < |s| ==> !IsWhitespace(s[r])
    decreases |s| - i
  {
    if i < |s| && IsWhitespace(s[i]) then SkipWhitespace(s, i + 1) else i
  }

  /** The end of the last visible character before `j`, or 0 when there is none. */
  function SkipWhitespaceBack(s: string, j: nat): (r: nat)
    requires j <= |s|
    ensures r <= j
    ensures forall k :: r <= k < j ==> IsWhitespace(s[k])
    ensures r > 0 ==> !IsWhitespace(s[r - 1])
  {
    if j > 0 && IsWhitespace(s[j - 1]) then SkipWhitespaceBack(s, j - 1) else j
  }

  /**
   `s.trim()`: the middle of `s` left once the whitespace runs at both ends
   are cut off. Everything cut is whitespace, the result is empty exactly when
   `s` is blank, and an already trimmed string comes back unchanged.
   */
  function Trim(s: string): (r: string)
    ensures IsTrimmed(r)
    ensures r == [] <==> AllWhitespace(s)
    ensures IsTrimmed(s) ==> r == s
  {
    var a := SkipWhitespace(s, 0);
    var b := SkipWhitespaceBack(s, |s|);
    if a < b then
      assert s[a..b][0] == s[a] && s[a..b][b - a - 1] == s[b - 1];
      s[a..b]
    else
      ""
  }

  /** `trim` cuts only whitespace, and only at the two ends. */
  lemma TrimCutsOnlyWhitespace(s: string)
    ensures var r := Trim(s); var a := SkipWhitespace(s, 0);
            && a + |r| <= |s| && r == s[a..a + |r|]
            && (forall k :: 0 <= k < a ==> IsWhitespace(s[k]))
            && (forall k :: a + |r| <= k < |s| ==> IsWhitespace(s[k]))
  {
  }

  /** `value || fallback` for a string that may be absent: the empty string is falsy too. */
  function OrElse(value: Option<string>, fallback: string): (r: string)
    ensures value.Some? && value.value != "" ==> r == value.value
    ensures value.None? || value.value == "" ==> r == fallback
  {
    match value
    case Some(v) => if v != "" then v else fallback
    case None => fallback
  }

  /** `sep` occurs in `s` starting at index `i`. */
  predicate OccursAt(s: string, sep: string, i: nat) {
    i + |sep| <= |s| && s[i..i + |sep|] == sep
  }

  /** `sep` occurs nowhere in `s`. */
  predicate Lacks(s: string, sep: string) {
    forall i: nat :: i <= |s| ==> !OccursAt(s, sep, i)
  }

  function IndexOfFrom(s: string, sep: string, from: nat): (r: Option<nat>)
    ensures r.Some? ==> from <= r.value && OccursAt(s, sep, r.value)
    ensures r.Some? ==> forall j: nat :: from <= j < r.value ==> !OccursAt(s, sep, j)
    ensures r.None? ==> forall j: nat :: from <= j ==> !OccursAt(s, sep, j)
    decreases |s| - from
  {
    if from + |sep| > |s| then None
    else if OccursAt(s, sep, from) then Some(from)
    else IndexOfFrom(s, sep, from + 1)
  }

  /** The leftmost occurrence of `sep`, or none at all: the search behind `split` (what `s.indexOf(sep)` returns). */
  function IndexOf(s: string, sep: string): (r: Option<nat>)
    ensures r.Some? ==> OccursAt(s, sep, r.value)
    ensures r.Some? ==> forall j: nat :: j < r.value ==> !OccursAt(s, sep, j)
    ensures r.None? <==> Lacks(s, sep)
  {
    IndexOfFrom(s, sep, 0)
  }

  lemma PrefixBeforeFirstLacks(s: string, sep: string, i: nat)
    requires |sep| > 0 && i <= |s|
    requires forall j: nat :: j < i ==> !OccursAt(s, sep, j)
    ensures Lacks(s[..i], sep)
  {
    forall j: nat | j <= i
      ensures !OccursAt(s[..i], sep, j)
    {
      if j + |sep| <= i {
        assert !OccursAt(s, sep, j);
        assert s[..i][j..j + |sep|] == s[j..j + |sep|];
      }
    }
  }

  /**
   `s.split(sep)` for a non-empty separator: the pieces between the
   non-overlapping occurrences of `sep`, found left to right. There is always
   at least one piece, and no piece contains the separator.
   */
  function Split(s: string, sep: string): (parts: seq<string>)
    requires |sep| > 0
    ensures |parts| >= 1
    ensures forall k :: 0 <= k < |parts| ==> Lacks(parts[k], sep)
    decreases |s|
  {
    match IndexOf(s, sep)
    case None => [s]
    case Some(i) =>
      PrefixBeforeFirstLacks(s, sep, i);
      [s[..i]] + Split(s[i + |sep|..], sep)
  }

  /** `parts.join(sep)`: no parts give "", one part gives itself, and more parts start with the first one and its separator. */
  function Join(parts: seq<string>, sep: string): (r: string)
    ensures |parts| == 0 ==> r == ""
    ensures |parts| == 1 ==> r == parts[0]
    ensures |parts| > 1 ==> |parts[0]| + |sep| <= |r| && r[..|parts[0]| + |sep|] == parts[0] + sep
  {
    if |parts| == 0 then ""
    else if |parts| == 1 then parts[0]
    else
      var r := parts[0] + sep + Join(parts[1..], sep);
      assert r[..|parts[0]| + |sep|] == parts[0] + sep;
      r
  }

  /** The first piece of a split is the text before the first occurrence; the other pieces re-join to the text after it. */
  lemma SplitAtFirst(s: string, sep: string)
    requires |sep| > 0
    ensures match IndexOf(s, sep)
            case None => Split(s, sep) == [s]
            case Some(i) => Split(s, sep)[0] == s[..i] && Join(Split(s, sep)[1..], sep) == s[i + |sep|..]
  {
    match IndexOf(s, sep)
    case None =>
    case Some(i) =>
      JoinSplit(s[i + |sep|..], sep);
      assert Split(s, sep)[1..] == Split(s[i + |sep|..], sep);
  }

  /** Joining the pieces of a split with the same separator restores the string. */
  lemma {:induction false} JoinSplit(s: string, sep: string)
    requires |sep| > 0
    ensures Join(Split(s, sep), sep) == s
    decreases |s|
  {
    var found := IndexOf(s, sep);
    if found.Some? {
      var i := found.value;
      var rest := s[i + |sep|..];
      var tail := Split(rest, sep);
      assert Split(s, sep) == [s[..i]] + tail;
      JoinSplit(rest, sep);
      assert ([s[..i]] + tail)[1..] == tail;
      assert Join([s[..i]] + tail, sep) == s[..i] + sep + Join(tail, sep);
      assert s[i..i + |sep|] == sep;
      assert s == s[..i] + s[i..i + |sep|] + rest;
    }
  }

  /**
   A string that lacks the character `sep[d]`, where `sep[d]` does not occur
   earlier in `sep`, contains no occurrence of `sep`.
   */
  lemma LacksMarker(x: string, sep: string, d: nat)
    requires d < |sep| && sep[d] !in sep[..d] && sep[d] !in x
    ensures Lacks(x, sep)
  {
    forall j: nat | j <= |x|
      ensures !OccursAt(x, sep, j)
    {
      if j + |sep| <= |x| {
        assert x[j..j + |sep|][d] == x[j + d];
      }
    }
  }

  /**
   When `x` lacks the character `sep[d]` (and `sep[d]` does not occur earlier in
   `sep`), the first occurrence of `sep` in `x + sep + rest` is the one right
   after `x`: no occurrence can start inside `x` or straddle its end.
   */
  lemma FirstOccurrenceAfter(x: string, sep: string, rest: string, d: nat)
    requires d < |sep| && sep[d] !in sep[..d] && sep[d] !in x
    ensures IndexOf(x + sep + rest, sep) == Some(|x|)
  {
    var t := x + sep + rest;
    assert t[|x|..|x| + |sep|] == sep;
    assert OccursAt(t, sep, |x|);
    forall j: nat | j < |x|
      ensures !OccursAt(t, sep, j)
    {
      assert t[j..j + |sep|][d] == t[j + d];
      if j + d < |x| {
        assert t[j + d] == x[j + d];
      } else {
        var e := j + d - |x|;
        assert t[j + d] == sep[e];
        assert sep[e] == sep[..d][e];
      }
    }
  }

  /**
   When `x` contains no occurrence of `sep` and the last character of `sep`
   does not occur earlier in it, the first occurrence of `sep` in
   `x + sep + rest` is the one right after `x`: an occurrence starting inside
   `x` would either lie within `x` or end on a character of the appended `sep`
   other than its last.
   */
  lemma FirstOccurrenceAfterLacking(x: string, sep: string, rest: string)
    requires |sep| > 0 && Lacks(x, sep) && sep[|sep| - 1] !in sep[..|sep| - 1]
    ensures IndexOf(x + sep + rest, sep) == Some(|x|)
  {
    var t := x + sep + rest;
    var d := |sep| - 1;
    assert t[|x|..|x| + |sep|] == sep;
    assert OccursAt(t, sep, |x|);
    forall j: nat | j < |x|
      ensures !OccursAt(t, sep, j)
    {
      if j + |sep| <= |x| {
        assert !OccursAt(x, sep, j);
        assert t[j..j + |sep|] == x[j..j + |sep|];
      } else {
        assert t[j..j + |sep|][d] == t[j + d];
        var e := j + d - |x|;
        assert t[j + d] == sep[e];
        assert sep[e] == sep[..d][e];
      }
    }
  }

  /**
   Splitting a join restores the parts, provided no part contains the
   character `sep[d]` and `sep[d]` does not occur earlier in `sep`.
   */
  lemma {:induction false} SplitJoin(parts: seq<string>, sep: string, d: nat)
    requires |parts| >= 1
    requires d < |sep| && sep[d] !in sep[..d]
    requires forall k :: 0 <= k < |parts| ==> sep[d] !in parts[k]
    ensures Split(Join(parts, sep), sep) == parts
    decreases |parts|
  {
    if |parts| == 1 {
      LacksMarker(parts[0], sep, d);
    } else {
      var p0 := parts[0];
      var tail := Join(parts[1..], sep);
      var t := p0 + sep + tail;
      assert Join(parts, sep) == t;
      FirstOccurrenceAfter(p0, sep, tail, d);
      assert t[..|p0|] == p0;
      assert t[|p0| + |sep|..] == tail;
      assert Split(t, sep) == [p0] + Split(tail, sep);
      SplitJoin(parts[1..], sep, d);
      assert parts == [p0] + parts[1..];
    }
  }
}
