/** Substring search and the anchored, case-insensitive prefix removal that
    the extractor applies to `tel:` and `mailto:` values (main.js:26,
    main.js:42-43). */
module Matching {
  import opened Whitespace

  /** Maps an ASCII capital letter to its small letter and leaves every other
      character alone. A `/…/i` pattern compiled without the `u` flag never
      folds a non-ASCII character onto an ASCII one, so for the all-ASCII
      patterns used here this is exactly the regular-expression engine's
      case-insensitive comparison. */
  function FoldAscii(c: char): char {
    if 'A' <= c <= 'Z' then (c as int + 32) as char else c
  }

  /** `c` and `d` are the same ASCII letter, one capital and one small. */
  predicate SameLetterOtherCase(c: char, d: char) {
    || ('A' <= c <= 'Z' && d as int == c as int + 32)
    || ('A' <= d <= 'Z' && c as int == d as int + 32)
  }

  /** Two characters fold alike exactly when they are equal or are the same
      ASCII letter in different case. When one of the two characters is
      ASCII, as every character of `tel:` and `mailto:` is, this is the
      comparison a `/…/i` pattern without the `u` flag makes. */
  lemma FoldAsciiSame(c: char, d: char)
    ensures FoldAscii(c) == FoldAscii(d) <==> c == d || SameLetterOtherCase(c, d)
  {
  }

  /** `s` begins with `p`, letters compared without regard to ASCII case. */
  predicate StartsWithIgnoringCase(s: string, p: string) {
    |p| <= |s| && forall i :: 0 <= i < |p| ==> FoldAscii(s[i]) == FoldAscii(p[i])
  }

  /** `s.replace(/^p/i, '')`: removes one leading occurrence of `p`, matched
      case-insensitively, and nothing else. The result is a suffix of `s`,
      and what was removed is either nothing or exactly as long as `p`;
      it is as long as `p` precisely when `s` starts with `p`. */
  function StripPrefixIgnoringCase(s: string, p: string): (r: string)
    ensures |r| <= |s| && r == s[|s| - |r|..]
    ensures |s| - |r| == 0 || |s| - |r| == |p|
    ensures StartsWithIgnoringCase(s, p) <==> |s| - |r| == |p|
  {
    if StartsWithIgnoringCase(s, p) then s[|p|..] else s
  }

  /** Removing the prefix splits `s` into the matched prefix and the result;
      without a match the result is `s` itself. */
  lemma StripPrefixSplits(s: string, p: string)
    ensures StartsWithIgnoringCase(s, p) ==> s == s[..|p|] + StripPrefixIgnoringCase(s, p)
    ensures !StartsWithIgnoringCase(s, p) ==> StripPrefixIgnoringCase(s, p) == s
  {
    if StartsWithIgnoringCase(s, p) {
      assert s == s[..|p|] + s[|p|..];
    }
  }

  /** Removing a prefix keeps a squeezed string squeezed and keeps its last
      character. */
  lemma StripPrefixKeepsShape(s: string, p: string)
    requires Squeezed(s) && Trimmed(s)
    ensures Squeezed(StripPrefixIgnoringCase(s, p))
    ensures NoTrailingWhitespace(StripPrefixIgnoringCase(s, p))
  {
    var r := StripPrefixIgnoringCase(s, p);
    SqueezedSuffix(s, |s| - |r|);
    if r != [] {
      assert r[|r| - 1] == s[|s| - 1];
    }
  }

  /** `p` occurs in `s` starting at index `i`. */
  predicate OccursAt(s: string, p: string, i: int) {
    0 <= i <= |s| - |p| && s[i..i + |p|] == p
  }

  /** `s.includes(p)`: `p` occurs somewhere in `s`. */
  predicate Contains(s: string, p: string) {
    exists i :: 0 <= i <= |s| - |p| && OccursAt(s, p, i)
  }

  /** A string containing some non-whitespace character is not blank, so
      trimming it cannot empty it. */
  lemma ContainsSolidNotBlank(s: string, p: string)
    requires Contains(s, p)
    requires p != [] && !IsWhitespace(p[0])
    ensures Trim(s) != ""
  {
    var i :| 0 <= i <= |s| - |p| && OccursAt(s, p, i);
    assert s[i] == s[i..i + |p|][0] == p[0];
  }
}
