/**
 * The string utilities the modelled code relies on: blank tests, splitting on a
 * separator (Guava's Splitter and Java's String.split, which differ) and joining.
 */
module Text {
  import opened Outcomes

  /** A character with the Unicode White_Space property. */
  predicate IsWhitespace(c: char) {
    c == ' ' || c == '\t' || c == '\n' || c == '\U{000B}' || c == '\U{000C}' || c == '\r'
    || c == '\U{0085}' || c == '\U{00A0}' || c == '\U{1680}' || ('\U{2000}' <= c <= '\U{200A}')
    || c == '\U{2028}' || c == '\U{2029}' || c == '\U{202F}' || c == '\U{205F}' || c == '\U{3000}'
  }

  /** A non-null string that is empty or holds only whitespace. */
  predicate IsBlankText(s: string) {
    forall i :: 0 <= i < |s| ==> IsWhitespace(s[i])
  }

  /** Strings.isBlank: null, empty or whitespace only. */
  predicate IsBlank(s: Option<string>) {
    s.None? || IsBlankText(s.value)
  }

  /** Strings.isNonBlank. */
  predicate IsNonBlank(s: Option<string>) {
    !IsBlank(s)
  }

  /**
   * Guava's Splitter.on(sep).split(s): every part between two separators,
   * empty parts included, so there is always one part more than separators.
   */
  function SplitAll(s: string, sep: char): (parts: seq<string>)
    ensures |parts| > 0
    ensures forall i :: 0 <= i < |parts| ==> sep !in parts[i]
  {
    if |s| == 0 then [""]
    else
      var rest := SplitAll(s[1..], sep);
      if s[0] == sep then [""] + rest
      else [[s[0]] + rest[0]] + rest[1..]
  }

  /** Guava's Joiner.on(sep).join(parts). */
  function Join(parts: seq<string>, sep: char): string
    requires |parts| > 0
  {
    if |parts| == 1 then parts[0] else parts[0] + [sep] + Join(parts[1..], sep)
  }

  /** Joining the parts of a split gives back the original string. */
  lemma {:induction false} JoinSplitAll(s: string, sep: char)
    ensures Join(SplitAll(s, sep), sep) == s
  {
    if |s| > 0 {
      var rest := SplitAll(s[1..], sep);
      JoinSplitAll(s[1..], sep);
      if s[0] == sep {
        assert SplitAll(s, sep) == [""] + rest;
        assert ([""] + rest)[1..] == rest;
      } else {
        var parts := [[s[0]] + rest[0]] + rest[1..];
        assert SplitAll(s, sep) == parts;
        if |rest| == 1 {
          assert Join(parts, sep) == [s[0]] + rest[0];
        } else {
          assert parts[1..] == rest[1..];
          assert Join(rest, sep) == rest[0] + [sep] + Join(rest[1..], sep);
        }
        assert s == [s[0]] + s[1..];
      }
    }
  }

  lemma {:induction false} SplitAllNoSep(p: string, sep: char)
    requires sep !in p
    ensures SplitAll(p, sep) == [p]
  {
    if |p| > 0 {
      SplitAllNoSep(p[1..], sep);
      assert p == [p[0]] + p[1..];
    }
  }

  lemma {:induction false} SplitAllAfterPart(p: string, sep: char, t: string)
    requires sep !in p
    ensures SplitAll(p + [sep] + t, sep) == [p] + SplitAll(t, sep)
  {
    var s := p + [sep] + t;
    if |p| == 0 {
      assert s[0] == sep && s[1..] == t;
    } else {
      assert s[0] == p[0] && s[1..] == p[1..] + [sep] + t;
      SplitAllAfterPart(p[1..], sep, t);
      assert p == [p[0]] + p[1..];
    }
  }

  /** Splitting parts free of the separator after joining them gives the parts back. */
  lemma {:induction false} SplitAllJoin(parts: seq<string>, sep: char)
    requires |parts| > 0
    requires forall i :: 0 <= i < |parts| ==> sep !in parts[i]
    ensures SplitAll(Join(parts, sep), sep) == parts
  {
    if |parts| == 1 {
      SplitAllNoSep(parts[0], sep);
    } else {
      SplitAllJoin(parts[1..], sep);
      SplitAllAfterPart(parts[0], sep, Join(parts[1..], sep));
      assert parts == [parts[0]] + parts[1..];
    }
  }

  /** Drops the empty strings at the end of a list of parts. */
  function StripTrailingEmpty(parts: seq<string>): (r: seq<string>)
    ensures |r| <= |parts| && r == parts[..|r|]
    ensures forall i :: |r| <= i < |parts| ==> parts[i] == ""
    ensures r == [] || r[|r| - 1] != ""
  {
    if |parts| == 0 || parts[|parts| - 1] != "" then parts
    else StripTrailingEmpty(parts[..|parts| - 1])
  }

  /**
   * Java's s.split(regex) for a regex matching the single character sep: a string
   * without sep gives itself as the only part; otherwise the parts between
   * separators, with the trailing empty parts removed.
   */
  function JavaSplit(s: string, sep: char): (parts: seq<string>)
  {
    if sep !in s then [s] else StripTrailingEmpty(SplitAll(s, sep))
  }

  /** "a/b".split("/") is [a, b] when neither contains the separator and b is not empty. */
  lemma JavaSplitPair(a: string, b: string, sep: char)
    requires sep !in a && sep !in b && b != ""
    ensures JavaSplit(a + [sep] + b, sep) == [a, b]
  {
    var s := a + [sep] + b;
    assert s[|a|] == sep;
    SplitAllJoin([a, b], sep);
    assert Join([a, b], sep) == s by {
      assert Join([a, b][1..], sep) == b;
    }
  }
}
