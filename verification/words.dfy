/** An independent description of `clean`: the result is the list of
    whitespace-separated words of the input, joined by single spaces. */
module Words {
  import opened Whitespace

  /** No character of `w` is whitespace. */
  predicate Solid(w: string) {
    forall i :: 0 <= i < |w| ==> !IsWhitespace(w[i])
  }

  /** A word: a non-empty run of non-whitespace characters. */
  predicate IsWord(w: string) {
    w != [] && Solid(w)
  }

  /** The longest prefix of `s` free of whitespace. */
  function LeadingWord(s: string): (w: string)
    ensures |w| <= |s| && w == s[..|w|]
    ensures Solid(w)
    ensures |w| == |s| || IsWhitespace(s[|w|])
    decreases |s|
  {
    if s == [] || IsWhitespace(s[0]) then []
    else [s[0]] + LeadingWord(s[1..])
  }

  /** The maximal non-whitespace runs of `s`, left to right. */
  function WordsOf(s: string): seq<string>
    decreases |s|
  {
    if s == [] then []
    else if IsWhitespace(s[0]) then WordsOf(s[1..])
    else
      var w := LeadingWord(s);
      [w] + WordsOf(s[|w|..])
  }

  /** The words joined by one space each. */
  function JoinWords(ws: seq<string>): string
  {
    if ws == [] then ""
    else if |ws| == 1 then ws[0]
    else ws[0] + " " + JoinWords(ws[1..])
  }

  /** Every element of `WordsOf(s)` is a word. */
  lemma {:induction false} WordsAreWords(s: string)
    ensures forall k :: 0 <= k < |WordsOf(s)| ==> IsWord(WordsOf(s)[k])
    decreases |s|
  {
    if s != [] {
      if IsWhitespace(s[0]) {
        WordsAreWords(s[1..]);
      } else {
        var w := LeadingWord(s);
        WordsAreWords(s[|w|..]);
        assert WordsOf(s) == [w] + WordsOf(s[|w|..]);
      }
    }
  }

  /** Joined words never begin or end with whitespace, and are "" only for no words. */
  lemma {:induction false} JoinWordsTrimmed(ws: seq<string>)
    requires forall k :: 0 <= k < |ws| ==> IsWord(ws[k])
    ensures Trimmed(JoinWords(ws))
    ensures JoinWords(ws) == [] <==> ws == []
  {
    if |ws| > 1 {
      JoinWordsTrimmed(ws[1..]);
      var j := JoinWords(ws);
      var tail := JoinWords(ws[1..]);
      assert j == ws[0] + " " + tail;
      assert j[0] == ws[0][0];
      assert j[|j| - 1] == tail[|tail| - 1];
    }
  }

  /** Leading whitespace does not change the words. */
  lemma {:induction false} WordsAfterTrimStart(s: string)
    ensures WordsOf(TrimStart(s)) == WordsOf(s)
    decreases |s|
  {
    if s != [] && IsWhitespace(s[0]) {
      WordsAfterTrimStart(s[1..]);
    }
  }

  /** Collapsing passes a whitespace-free prefix through unchanged. */
  lemma {:induction false} CollapseSolidPrefix(w: string, t: string)
    requires Solid(w)
    ensures Collapse(w + t) == w + Collapse(t)
    decreases |w|
  {
    if w != [] {
      var s := w + t;
      assert s[0] == w[0] && !IsWhitespace(s[0]);
      assert s[1..] == w[1..] + t;
      assert Collapse(s) == [w[0]] + Collapse(w[1..] + t);
      CollapseSolidPrefix(w[1..], t);
      assert w == [w[0]] + w[1..];
    } else {
      assert w + t == t;
    }
  }

  /** Regrouping a concatenation of three strings. */
  lemma ConcatRegroup3(a: string, b: string, c: string)
    ensures a + (b + c) == a + b + c
  {
  }


  /** One space when `s` ends in whitespace, nothing otherwise. */
  function TrailingGap(s: string): (gap: string)
    ensures AllWhitespace(gap)
  {
    if s != [] && IsWhitespace(s[|s| - 1]) then " " else ""
  }

  /** A word followed only by whitespace collapses to the word and one space. */
  lemma CollapseWordThenBlank(w: string, rest: string)
    requires Solid(w) && rest != [] && AllWhitespace(rest)
    ensures Collapse(w + rest) == w + " "
  {
    CollapseSolidPrefix(w, rest);
    assert Collapse(rest) == " " + Collapse([]);
  }

  /** A word followed by whitespace and more text collapses to the word, one
      space, and the collapse of that text. */
  lemma CollapseWordThenGap(w: string, rest: string)
    requires Solid(w) && rest != [] && IsWhitespace(rest[0])
    ensures Collapse(w + rest) == w + " " + Collapse(TrimStart(rest))
  {
    CollapseSolidPrefix(w, rest);
    assert Collapse(rest) == " " + Collapse(TrimStart(rest));
    ConcatRegroup3(w, " ", Collapse(TrimStart(rest)));
  }

  /** Joining one more word in front adds it and one space. */
  lemma JoinWordsCons(w: string, ws: seq<string>)
    requires ws != []
    ensures JoinWords([w] + ws) == w + " " + JoinWords(ws)
  {
    assert ([w] + ws)[1..] == ws;
  }

  /** A non-empty tail decides the trailing gap of a concatenation. */
  lemma TrailingGapOfConcat(a: string, b: string)
    requires b != []
    ensures TrailingGap(a + b) == TrailingGap(b)
  {
    assert (a + b)[|a + b| - 1] == b[|b| - 1];
  }

  /** Dropping leading whitespace keeps the trailing gap unless nothing is left. */
  lemma TrailingGapOfTrimStart(s: string)
    requires TrimStart(s) != []
    ensures TrailingGap(TrimStart(s)) == TrailingGap(s)
  {
    var t := TrimStart(s);
    assert t[|t| - 1] == s[|s| - 1];
  }

  /** Collapsing a string that does not start with whitespace yields its
      joined words, followed by one space when it ended in whitespace. */
  lemma {:induction false} CollapseIsJoinedWords(s: string)
    requires s == [] || !IsWhitespace(s[0])
    ensures Collapse(s) == JoinWords(WordsOf(s)) + TrailingGap(s)
    decreases |s|
  {
    if s != [] {
      var w := LeadingWord(s);
      var rest := s[|w|..];
      assert s == w + rest;
      assert WordsOf(s) == [w] + WordsOf(rest);
      if rest == [] {
        CollapseSolidPrefix(w, rest);
        assert w + [] == w;
      } else {
        var t := TrimStart(rest);
        WordsAfterTrimStart(rest);
        TrailingGapOfConcat(w, rest);
        if t == [] {
          CollapseWordThenBlank(w, rest);
        } else {
          TrailingGapOfTrimStart(rest);
          var jt := JoinWords(WordsOf(t));
          calc {
            Collapse(s);
            { CollapseWordThenGap(w, rest); }
            w + " " + Collapse(t);
            { CollapseIsJoinedWords(t); }
            w + " " + (jt + TrailingGap(t));
            { ConcatRegroup3(w + " ", jt, TrailingGap(t)); }
            w + " " + jt + TrailingGap(t);
            { assert WordsOf(t) != []; JoinWordsCons(w, WordsOf(t)); }
            JoinWords(WordsOf(s)) + TrailingGap(s);
          }
        }
      }
    }
  }

  /** Leading whitespace in front of a string that starts solid is removed
      exactly. */
  lemma {:induction false} TrimStartBlankPrefix(a: string, x: string)
    requires AllWhitespace(a) && (x == [] || !IsWhitespace(x[0]))
    ensures TrimStart(a + x) == x
    decreases |a|
  {
    if a != [] {
      assert (a + x)[1..] == a[1..] + x;
      TrimStartBlankPrefix(a[1..], x);
    } else {
      assert a + x == x;
    }
  }

  /** Trailing whitespace behind a string that ends solid is removed exactly. */
  lemma {:induction false} TrimEndBlankSuffix(x: string, b: string)
    requires AllWhitespace(b) && NoTrailingWhitespace(x)
    ensures TrimEnd(x + b) == x
    decreases |b|
  {
    if b != [] {
      var b' := b[..|b| - 1];
      assert (x + b)[..|x + b| - 1] == x + b';
      TrimEndBlankSuffix(x, b');
    } else {
      assert x + b == x;
    }
  }

  /** Stripping all-whitespace borders off a trimmed core returns the core. */
  lemma TrimAround(a: string, j: string, b: string)
    requires AllWhitespace(a) && AllWhitespace(b) && Trimmed(j)
    ensures Trim(a + j + b) == j
  {
    if j == [] {
      assert AllWhitespace(a + j + b) by {
        forall i | 0 <= i < |a + j + b| ensures IsWhitespace((a + j + b)[i]) {
          if i >= |a| { assert (a + j + b)[i] == b[i - |a|]; }
        }
      }
    } else {
      assert a + j + b == a + (j + b);
      TrimStartBlankPrefix(a, j + b);
      TrimEndBlankSuffix(j, b);
    }
  }

  /** The collapsed form of `s` past its leading whitespace is its joined
      words followed by at most one space. */
  lemma CollapseAfterTrimStart(s: string)
    ensures Collapse(TrimStart(s)) == JoinWords(WordsOf(s)) + TrailingGap(TrimStart(s))
    ensures Trimmed(JoinWords(WordsOf(s)))
  {
    WordsAfterTrimStart(s);
    CollapseIsJoinedWords(TrimStart(s));
    WordsAreWords(s);
    JoinWordsTrimmed(WordsOf(s));
  }

  /** One space when `s` starts with whitespace, nothing otherwise. */
  function LeadingGap(s: string): (gap: string)
    ensures AllWhitespace(gap)
  {
    if s != [] && IsWhitespace(s[0]) then " " else ""
  }

  /** Collapsing turns the leading whitespace of `s` into at most one space. */
  lemma CollapseLeadingGap(s: string)
    ensures Collapse(s) == LeadingGap(s) + Collapse(TrimStart(s))
  {
    if s == [] || !IsWhitespace(s[0]) {
      assert "" + Collapse(s) == Collapse(s);
    }
  }

  /** `clean(s)` is exactly the words of `s` joined by single spaces. */
  lemma CleanIsJoinedWords(s: string)
    ensures Clean(s) == JoinWords(WordsOf(s))
  {
    var lead := LeadingGap(s);
    var j := JoinWords(WordsOf(s));
    var gap := TrailingGap(TrimStart(s));
    CollapseAfterTrimStart(s);
    CollapseLeadingGap(s);
    ConcatRegroup3(lead, j, gap);
    TrimAround(lead, j, gap);
  }
}
