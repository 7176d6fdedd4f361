/**
 * The string built-ins that the client (JavaScript) and the server (Python)
 * apply to file names, recipient lists and generated text: lower-casing,
 * splitting on one separator character, joining, prefix and suffix tests,
 * and stripping whitespace from both ends.
 */
module Text {

  /** The characters ECMAScript counts as WhiteSpace or LineTerminator: what
      the regular-expression class `\s` matches and what `String.prototype.trim`
      removes. */
  predicate IsJsSpace(c: char) {
    c == '\t' || c == '\n' || c == '\U{000B}' || c == '\U{000C}' || c == '\r' || c == ' '
    || c == '\U{00A0}' || c == '\U{1680}' || ('\U{2000}' <= c <= '\U{200A}')
    || c == '\U{2028}' || c == '\U{2029}' || c == '\U{202F}' || c == '\U{205F}'
    || c == '\U{3000}' || c == '\U{FEFF}'
  }

  /** The characters for which Python's `str.isspace` holds: what `str.strip()`
      with no argument removes. */
  predicate IsPySpace(c: char) {
    ('\t' <= c <= '\r') || ('\U{001C}' <= c <= ' ') || c == '\U{0085}' || c == '\U{00A0}'
    || c == '\U{1680}' || ('\U{2000}' <= c <= '\U{200A}') || c == '\U{2028}' || c == '\U{2029}'
    || c == '\U{202F}' || c == '\U{205F}' || c == '\U{3000}'
  }

  /** Lower-casing of one character, on the ASCII letters. */
  function LowerChar(c: char): char {
    if 'A' <= c <= 'Z' then (c as int + 32) as char else c
  }

  /** `toLowerCase()` / `lower()`, on the ASCII letters. */
  function ToLower(s: string): string {
    seq(|s|, k requires 0 <= k < |s| => LowerChar(s[k]))
  }

  /** Lower-casing maps a character to a separator such as '.' or ',' only if it
      already was that separator. */
  lemma LowerCharKeepsPunctuation(c: char, sep: char)
    requires !('a' <= sep <= 'z') && !('A' <= sep <= 'Z')
    ensures LowerChar(c) == sep <==> c == sep
  {
    if 'A' <= c <= 'Z' {
      assert 'a' as int == 'A' as int + 32 && 'z' as int == 'Z' as int + 32;
      assert 'a' <= LowerChar(c) <= 'z';
    }
  }

  predicate StartsWith(s: string, prefix: string) {
    |prefix| <= |s| && s[..|prefix|] == prefix
  }

  predicate EndsWith(s: string, suffix: string) {
    |suffix| <= |s| && s[|s| - |suffix|..] == suffix
  }

  /** `sep.join(parts)`: the parts with one separator between neighbours. */
  function Join(parts: seq<string>, sep: char): string {
    if |parts| == 0 then ""
    else if |parts| == 1 then parts[0]
    else parts[0] + [sep] + Join(parts[1..], sep)
  }

  /** `s.split(sep)` for a one-character separator, as both JavaScript and
      Python define it: separator-free pieces, one more than there are
      separators, empty pieces included, nothing trimmed. */
  function Split(s: string, sep: char): (parts: seq<string>)
    ensures |parts| >= 1
    ensures forall k :: 0 <= k < |parts| ==> sep !in parts[k]
  {
    if |s| == 0 then [""]
    else
      var rest := Split(s[1..], sep);
      assert s == [s[0]] + s[1..];
      if s[0] == sep then [""] + rest
      else [[s[0]] + rest[0]] + rest[1..]
  }

  /** There is one more piece than there are separators in `s`. */
  lemma {:induction false} SplitCount(s: string, sep: char)
    ensures |Split(s, sep)| == multiset(s)[sep] + 1
  {
    if |s| > 0 {
      SplitCount(s[1..], sep);
      assert s == [s[0]] + s[1..];
      assert multiset(s) == multiset{s[0]} + multiset(s[1..]);
    }
  }

  /** Joining the pieces with the separator gives the string back: splitting
      loses nothing. */
  lemma {:induction false} JoinSplit(s: string, sep: char)
    ensures Join(Split(s, sep), sep) == s
  {
    if |s| > 0 {
      var rest := Split(s[1..], sep);
      JoinSplit(s[1..], sep);
      assert s == [s[0]] + s[1..];
      if s[0] == sep {
        assert ([""] + rest)[1..] == rest;
      } else {
        var parts := [[s[0]] + rest[0]] + rest[1..];
        assert parts[1..] == rest[1..];
        if |rest| > 1 {
          assert Join(rest, sep) == rest[0] + [sep] + Join(rest[1..], sep);
        }
      }
    }
  }

  /** Splitting what was joined gives the parts back, provided no part holds
      the separator and there is at least one part. */
  lemma {:induction false} SplitJoin(parts: seq<string>, sep: char)
    requires |parts| >= 1
    requires forall k :: 0 <= k < |parts| ==> sep !in parts[k]
    ensures Split(Join(parts, sep), sep) == parts
  {
    if |parts| == 1 {
      SplitSeparatorFree(parts[0], "", sep);
      assert Split("", sep) == [""];
      assert parts[0] + "" == parts[0];
      assert parts == [parts[0]];
    } else {
      var tail := Join(parts[1..], sep);
      SplitJoin(parts[1..], sep);
      var t := [sep] + tail;
      assert t[0] == sep && t[1..] == tail;
      assert Split(t, sep) == [""] + parts[1..];
      SplitSeparatorFree(parts[0], t, sep);
      assert parts[0] + [sep] + tail == parts[0] + t;
      assert parts[0] + "" == parts[0];
      assert parts == [parts[0]] + parts[1..];
    }
  }

  /** A separator-free prefix is glued to the first piece of what follows it. */
  lemma {:induction false} SplitSeparatorFree(p: string, t: string, sep: char)
    requires sep !in p
    ensures Split(p + t, sep) == [p + Split(t, sep)[0]] + Split(t, sep)[1..]
  {
    var st := Split(t, sep);
    if |p| == 0 {
      assert p + t == t;
      assert st == [st[0]] + st[1..];
      assert p + st[0] == st[0];
    } else {
      var s := p + t;
      assert s[0] == p[0] && s[1..] == p[1..] + t;
      SplitSeparatorFree(p[1..], t, sep);
      var rest := Split(s[1..], sep);
      assert rest == [p[1..] + st[0]] + st[1..];
      assert rest[1..] == st[1..];
      assert Split(s, sep) == [[s[0]] + rest[0]] + rest[1..];
      assert [p[0]] + (p[1..] + st[0]) == p + st[0];
    }
  }

  /** The last part of a join is a suffix of it, preceded by the separator
      whenever there are two parts or more. */
  lemma {:induction false} JoinEndsWithLast(parts: seq<string>, sep: char)
    requires |parts| >= 1
    ensures var j, last := Join(parts, sep), parts[|parts| - 1];
      && |last| <= |j| && j[|j| - |last|..] == last
      && (|parts| == 1 ==> j == last)
      && (|parts| > 1 ==> |last| < |j| && j[|j| - |last| - 1] == sep)
  {
    if |parts| > 1 {
      JoinEndsWithLast(parts[1..], sep);
      var j, tail := Join(parts, sep), Join(parts[1..], sep);
      assert j == (parts[0] + [sep]) + tail;
      var last := parts[|parts| - 1];
      assert j[|j| - |last|..] == tail[|tail| - |last|..];
      if |parts| == 2 {
        assert j[|j| - |last| - 1] == (parts[0] + [sep])[|parts[0]|];
      } else {
        assert j[|j| - |last| - 1] == tail[|tail| - |last| - 1];
      }
    }
  }

  /** `s.split(sep).pop()`. */
  function LastSegment(s: string, sep: char): string {
    var parts := Split(s, sep);
    parts[|parts| - 1]
  }

  /** The last segment is the text after the last separator, or the whole of
      `s` when it holds none. The three clauses determine it: it is the
      longest separator-free suffix of `s`. */
  lemma LastSegmentIsSuffix(s: string, sep: char)
    ensures var r := LastSegment(s, sep);
      && sep !in r
      && |r| <= |s| && s[|s| - |r|..] == r
      && (|r| < |s| ==> s[|s| - |r| - 1] == sep)
  {
    JoinSplit(s, sep);
    JoinEndsWithLast(Split(s, sep), sep);
  }

  /** A string without the separator is its own last segment. */
  lemma LastSegmentWithoutSeparator(s: string, sep: char)
    ensures sep !in s ==> LastSegment(s, sep) == s
  {
    LastSegmentIsSuffix(s, sep);
  }

  /** A string that ends with the separator followed by separator-free text
      `e` has `e` as its last segment. */
  lemma LastSegmentAfterSeparator(s: string, sep: char, e: string)
    requires sep !in e
    requires EndsWith(s, [sep] + e)
    ensures LastSegment(s, sep) == e
  {
    var r := LastSegment(s, sep);
    LastSegmentIsSuffix(s, sep);
    var n := |s|;
    assert s[n - |e| - 1..] == [sep] + e;
    assert s[n - |e| - 1] == sep;
    assert s[n - |e|..] == e;
  }

  /** `trimStart`-like: drops the leading characters for which `isSpace` holds. */
  function StripStart(s: string, isSpace: char -> bool): (r: string)
    ensures |r| <= |s| && r == s[|s| - |r|..]
    ensures forall k :: 0 <= k < |s| - |r| ==> isSpace(s[k])
    ensures r == [] || !isSpace(r[0])
  {
    if |s| > 0 && isSpace(s[0]) then StripStart(s[1..], isSpace) else s
  }

  /** `trimEnd`-like: drops the trailing characters for which `isSpace` holds. */
  function StripEnd(s: string, isSpace: char -> bool): (r: string)
    ensures |r| <= |s| && r == s[..|r|]
    ensures forall k :: |r| <= k < |s| ==> isSpace(s[k])
    ensures r == [] || !isSpace(r[|r| - 1])
  {
    if |s| > 0 && isSpace(s[|s| - 1]) then StripEnd(s[..|s| - 1], isSpace) else s
  }

  /** Whitespace stripped from both ends. */
  function Strip(s: string, isSpace: char -> bool): string {
    StripEnd(StripStart(s, isSpace), isSpace)
  }

  /** JavaScript's `String.prototype.trim`. */
  function JsTrim(s: string): string {
    Strip(s, IsJsSpace)
  }

  /** Python's `str.strip()` with no argument. */
  function PyStrip(s: string): string {
    Strip(s, IsPySpace)
  }

  /** Stripping yields a slice of the input with only whitespace around it. */
  lemma StripIsSlice(s: string, isSpace: char -> bool)
    ensures var r, i := Strip(s, isSpace), |s| - |StripStart(s, isSpace)|;
      && 0 <= i <= |s| - |r| && s[i..i + |r|] == r
      && (forall k :: 0 <= k < i ==> isSpace(s[k]))
      && (forall k :: i + |r| <= k < |s| ==> isSpace(s[k]))
  {
    var t := StripStart(s, isSpace);
    var r := StripEnd(t, isSpace);
    var i := |s| - |t|;
    assert s[i..i + |r|] == t[..|r|];
    forall k | i + |r| <= k < |s| ensures isSpace(s[k]) {
      assert s[k] == t[k - i] && isSpace(t[k - i]);
    }
  }

  /** What stripping leaves starts and ends with a non-whitespace character,
      so stripping it again changes nothing. */
  lemma StripIdempotent(s: string, isSpace: char -> bool)
    ensures var r := Strip(s, isSpace);
      && (r == [] || (!isSpace(r[0]) && !isSpace(r[|r| - 1])))
      && Strip(r, isSpace) == r
  {
    var t := StripStart(s, isSpace);
    var r := StripEnd(t, isSpace);
    if r != [] {
      assert r[0] == t[0];
    }
    StripStartStops(r, isSpace);
    StripEndStops(r, isSpace);
  }

  lemma StripStartStops(s: string, isSpace: char -> bool)
    requires s == [] || !isSpace(s[0])
    ensures StripStart(s, isSpace) == s
  {
  }

  lemma StripEndStops(s: string, isSpace: char -> bool)
    requires s == [] || !isSpace(s[|s| - 1])
    ensures StripEnd(s, isSpace) == s
  {
  }
}
