/** Whitespace handling of the listing extractor: the character class shared
    by the `\s` regular-expression escape and `String.prototype.trim`, the
    trimming functions, and `clean`, which collapses every whitespace run to
    one space and trims both ends (main.js:6). */
module Whitespace {

  /** The code points that `\s` matches and `trim()` removes: the ECMAScript
      WhiteSpace and LineTerminator productions, with the space separators
      (general category Zs) of Unicode 6.3 and later. */
  predicate IsWhitespace(c: char) {
    || c == ' ' || ('\t' <= c <= '\r') || c == '\U{00A0}' || c == '\U{1680}'
    || ('\U{2000}' <= c <= '\U{200A}') || ('\U{2028}' <= c <= '\U{2029}')
    || c == '\U{202F}' || c == '\U{205F}' || c == '\U{3000}' || c == '\U{FEFF}'
  }

  /** Every character of `s` is whitespace (vacuously true of ""). */
  predicate AllWhitespace(s: string) {
    forall i :: 0 <= i < |s| ==> IsWhitespace(s[i])
  }

  /** The last character of `s`, if any, is not whitespace. */
  predicate NoTrailingWhitespace(s: string) {
    s == [] || !IsWhitespace(s[|s| - 1])
  }

  /** Neither end of `s` is whitespace. */
  predicate Trimmed(s: string) {
    s == [] || (!IsWhitespace(s[0]) && !IsWhitespace(s[|s| - 1]))
  }

  /** Every whitespace character of `s` is a plain space. */
  ghost predicate OnlySpaces(s: string) {
    forall i :: 0 <= i < |s| && IsWhitespace(s[i]) ==> s[i] == ' '
  }

  /** No two adjacent characters of `s` are both whitespace. */
  ghost predicate NoAdjacentWhitespace(s: string) {
    forall i, j :: 0 <= i < j < |s| && j == i + 1 ==> !(IsWhitespace(s[i]) && IsWhitespace(s[j]))
  }

  /** Every whitespace run of `s` is a single plain space. */
  ghost predicate Squeezed(s: string) {
    OnlySpaces(s) && NoAdjacentWhitespace(s)
  }

  /** The shape of every `clean` result: single spaces between words only. */
  ghost predicate Canonical(s: string) {
    Squeezed(s) && Trimmed(s)
  }

  /** Removes leading whitespace. The result is the suffix of `s` that starts
      at its first non-whitespace character. */
  function TrimStart(s: string): (r: string)
    ensures |r| <= |s| && r == s[|s| - |r|..]
    ensures forall i :: 0 <= i < |s| - |r| ==> IsWhitespace(s[i])
    ensures r == [] || !IsWhitespace(r[0])
    decreases |s|
  {
    if s != [] && IsWhitespace(s[0]) then TrimStart(s[1..]) else s
  }

  /** Removes trailing whitespace. The result is the prefix of `s` that ends
      at its last non-whitespace character. */
  function TrimEnd(s: string): (r: string)
    ensures |r| <= |s| && r == s[..|r|]
    ensures forall i :: |r| <= i < |s| ==> IsWhitespace(s[i])
    ensures r == [] || !IsWhitespace(r[|r| - 1])
    decreases |s|
  {
    if s != [] && IsWhitespace(s[|s| - 1]) then TrimEnd(s[..|s| - 1]) else s
  }

  /** `String.prototype.trim`: both ends stripped; "" exactly when `s` is
      blank. `TrimKeepsMiddle` shows what is kept. */
  function Trim(s: string): (r: string)
    ensures Trimmed(r)
    ensures r == [] <==> AllWhitespace(s)
  {
    var t := TrimStart(s);
    assert AllWhitespace(s) ==> t == [];
    assert t == [] ==> AllWhitespace(s) by {
      if t == [] {
        assert s[..|s|] == s;
      }
    }
    TrimEnd(t)
  }

  /** `trim()` keeps a stretch of `s` and drops only whitespace before and
      after it. */
  lemma TrimKeepsMiddle(s: string)
    ensures exists i ::
              && 0 <= i <= |s| - |Trim(s)|
              && Trim(s) == s[i..i + |Trim(s)|]
              && AllWhitespace(s[..i])
              && AllWhitespace(s[i + |Trim(s)|..])
  {
    var t := TrimStart(s);
    var r := TrimEnd(t);
    var i := |s| - |t|;
    assert t == s[i..];
    assert r == t[..|r|];
    assert r == s[i..i + |r|];
    var head, tail := s[..i], s[i + |r|..];
    forall k | 0 <= k < |head|
      ensures IsWhitespace(head[k])
    {
    }
    forall k | 0 <= k < |tail|
      ensures IsWhitespace(tail[k])
    {
      assert tail[k] == t[|r| + k];
    }
  }

  /** `s.replace(/\s+/g, ' ')`: every maximal whitespace run becomes one space. */
  function Collapse(s: string): string
    decreases |s|
  {
    if s == [] then []
    else if IsWhitespace(s[0]) then [' '] + Collapse(TrimStart(s))
    else [s[0]] + Collapse(s[1..])
  }

  /** Collapsing leaves no run of two whitespace characters and no whitespace
      other than plain spaces, keeps the emptiness and the class of the first
      character, and yields a blank string exactly for a blank input. */
  lemma {:induction false} CollapseShape(s: string)
    ensures Squeezed(Collapse(s))
    ensures s == [] <==> Collapse(s) == []
    ensures s != [] ==> (IsWhitespace(s[0]) <==> IsWhitespace(Collapse(s)[0]))
    ensures AllWhitespace(s) <==> AllWhitespace(Collapse(s))
    decreases |s|
  {
    if s == [] {
    } else if IsWhitespace(s[0]) {
      var t := TrimStart(s);
      var rest := Collapse(t);
      CollapseShape(t);
      assert Collapse(s) == [' '] + rest;
      assert AllWhitespace(s) <==> t == [] by {
        if t == [] { assert s[..|s|] == s; }
      }
      assert AllWhitespace(t) <==> t == [];
      assert AllWhitespace([' '] + rest) <==> AllWhitespace(rest) by {
        forall i | 0 <= i < |rest| ensures ([' '] + rest)[i + 1] == rest[i] { }
      }
    } else {
      var rest := Collapse(s[1..]);
      CollapseShape(s[1..]);
      assert Collapse(s) == [s[0]] + rest;
      assert !AllWhitespace([s[0]] + rest) by { assert ([s[0]] + rest)[0] == s[0]; }
    }
  }

  /** A suffix of a squeezed string is squeezed. */
  lemma SqueezedSuffix(s: string, k: nat)
    requires Squeezed(s) && k <= |s|
    ensures Squeezed(s[k..])
  {
    forall i | 0 <= i < |s[k..]| && IsWhitespace(s[k..][i])
      ensures s[k..][i] == ' ' && (i + 1 < |s[k..]| ==> !IsWhitespace(s[k..][i + 1]))
    {
      assert s[k..][i] == s[k + i];
      assert i + 1 < |s[k..]| ==> s[k..][i + 1] == s[k + i + 1];
    }
  }

  /** A prefix of a squeezed string is squeezed. */
  lemma SqueezedPrefix(s: string, k: nat)
    requires Squeezed(s) && k <= |s|
    ensures Squeezed(s[..k])
  {
    forall i | 0 <= i < k && IsWhitespace(s[..k][i])
      ensures s[..k][i] == ' ' && (i + 1 < k ==> !IsWhitespace(s[..k][i + 1]))
    {
      assert s[..k][i] == s[i];
      assert i + 1 < k ==> s[..k][i + 1] == s[i + 1];
    }
  }

  /** Trimming keeps a squeezed string squeezed. */
  lemma TrimKeepsSqueezed(c: string)
    requires Squeezed(c)
    ensures Squeezed(Trim(c))
  {
    var t := TrimStart(c);
    SqueezedSuffix(c, |c| - |t|);
    SqueezedPrefix(t, |TrimEnd(t)|);
  }

  /** `clean` (main.js:6): collapse whitespace runs, then trim. The result is
      in canonical form, and it is empty exactly when the input is blank. */
  function Clean(s: string): (r: string)
    ensures Canonical(r)
    ensures r == [] <==> AllWhitespace(s)
  {
    CollapseShape(s);
    TrimKeepsSqueezed(Collapse(s));
    Trim(Collapse(s))
  }

  /** A string already in canonical form is left alone by `Collapse`. */
  lemma {:induction false} CollapseSqueezed(s: string)
    requires Squeezed(s)
    ensures Collapse(s) == s
    decreases |s|
  {
    if s == [] {
    } else {
      assert Squeezed(s[1..]) by {
        forall i | 0 <= i < |s[1..]| && IsWhitespace(s[1..][i])
          ensures s[1..][i] == ' ' && (i + 1 < |s[1..]| ==> !IsWhitespace(s[1..][i + 1]))
        {
          assert s[1..][i] == s[i + 1];
        }
      }
      CollapseSqueezed(s[1..]);
      if IsWhitespace(s[0]) {
        assert TrimStart(s) == s[1..] by {
          assert |s| > 1 ==> !IsWhitespace(s[1]);
          assert |s| > 1 ==> s[1..][0] == s[1];
        }
        assert s == [' '] + s[1..];
      } else {
        assert s == [s[0]] + s[1..];
      }
    }
  }

  /** A string in canonical form is its own `clean`. */
  lemma CleanCanonical(s: string)
    requires Canonical(s)
    ensures Clean(s) == s
  {
    CollapseSqueezed(s);
    assert TrimStart(s) == s;
    assert TrimEnd(s) == s;
  }

  /** `clean` is idempotent: cleaning a cleaned string changes nothing. */
  lemma CleanIdempotent(s: string)
    ensures Clean(Clean(s)) == Clean(s)
  {
    CleanCanonical(Clean(s));
  }
}
