/** The title normaliser `WorldcatAPI.preprocess_string`: every ASCII
    punctuation character becomes a space, the text is lower-cased, runs of
    the space character collapse to one space, and surrounding whitespace is
    stripped. Query titles and record titles both go through it before they
    are compared. */
module Normalize {

  /** One of the 32 characters of Python's `string.punctuation`: the ASCII
      ranges `!`..`/`, `:`..`@`, `[`..`` ` `` and `{`..`~`. */
  predicate IsPunctuation(c: char) {
    ('!' <= c <= '/') || (':' <= c <= '@') || ('[' <= c <= '`') || ('{' <= c <= '~')
  }

  predicate IsUpper(c: char) {
    'A' <= c <= 'Z'
  }

  /** The characters `str.strip()` removes: ASCII tab to carriage return, the
      four ASCII separators U+001C..U+001F, space, and the Unicode spaces
      U+0085, U+00A0, U+1680, U+2000..U+200A, U+2028, U+2029, U+202F, U+205F
      and U+3000. */
  predicate IsWhitespace(c: char) {
    var n := c as int;
    || (9 <= n <= 13) || (28 <= n <= 32)
    || n == 0x85 || n == 0xA0 || n == 0x1680
    || (0x2000 <= n <= 0x200A)
    || n == 0x2028 || n == 0x2029 || n == 0x202F || n == 0x205F || n == 0x3000
  }

  /** Lower-casing of one character (ASCII letters only). */
  function LowerChar(c: char): (d: char)
    ensures !IsUpper(d)
    ensures IsPunctuation(d) <==> IsPunctuation(c)
    ensures !IsUpper(c) ==> d == c
  {
    if IsUpper(c) then (c as int + 32) as char else c
  }

  ghost predicate NoPunctuation(s: string) {
    forall i :: 0 <= i < |s| ==> !IsPunctuation(s[i])
  }

  ghost predicate NoUpper(s: string) {
    forall i :: 0 <= i < |s| ==> !IsUpper(s[i])
  }

  ghost predicate NoDoubleSpace(s: string) {
    forall i :: 0 <= i < |s| - 1 ==> !(s[i] == ' ' && s[i + 1] == ' ')
  }

  ghost predicate Trimmed(s: string) {
    |s| > 0 ==> !IsWhitespace(s[0]) && !IsWhitespace(s[|s| - 1])
  }

  /** The normal form every preprocessed title is in. */
  ghost predicate Normalized(s: string) {
    NoPunctuation(s) && NoUpper(s) && NoDoubleSpace(s) && Trimmed(s)
  }

  /** `x.translate(str.maketrans(string.punctuation, ' ' * 32))`. */
  function BlankPunctuation(s: string): (r: string)
    ensures |r| == |s|
    ensures NoPunctuation(r)
  {
    seq(|s|, i requires 0 <= i < |s| => if IsPunctuation(s[i]) then ' ' else s[i])
  }

  /** `str.lower()` on ASCII letters. */
  function Lower(s: string): (r: string)
    ensures |r| == |s|
    ensures NoUpper(r)
    ensures NoPunctuation(s) ==> NoPunctuation(r)
  {
    seq(|s|, i requires 0 <= i < |s| => LowerChar(s[i]))
  }

  /** Lower-casing leaves a string without upper-case letters unchanged. */
  lemma LowerKeepsLowerCase(s: string)
    requires NoUpper(s)
    ensures Lower(s) == s
  {
  }

  /** `re.sub(" +", " ", s)`: each maximal run of U+0020 becomes a single
      space; every other character, tabs and newlines included, is kept. */
  function CollapseSpaces(s: string): (r: string)
    ensures |r| <= |s|
    ensures |s| > 0 ==> |r| > 0 && r[0] == s[0] && r[|r| - 1] == s[|s| - 1]
    ensures NoDoubleSpace(r)
    ensures NoPunctuation(s) ==> NoPunctuation(r)
    ensures NoUpper(s) ==> NoUpper(r)
  {
    if |s| == 0 then []
    else if |s| > 1 && s[0] == ' ' && s[1] == ' ' then CollapseSpaces(s[1..])
    else [s[0]] + CollapseSpaces(s[1..])
  }

  /** Leading half of `str.strip()`: the longest suffix of `s` that does not
      start with whitespace. */
  function StripLeading(s: string): (r: string)
    ensures |r| <= |s| && r == s[|s| - |r|..]
    ensures |r| > 0 ==> !IsWhitespace(r[0])
  {
    if |s| > 0 && IsWhitespace(s[0]) then StripLeading(s[1..]) else s
  }

  /** Trailing half of `str.strip()`: the longest prefix of `s` that does
      not end with whitespace. */
  function StripTrailing(s: string): (r: string)
    ensures |r| <= |s| && r == s[..|r|]
    ensures |r| > 0 ==> !IsWhitespace(r[|r| - 1])
  {
    if |s| > 0 && IsWhitespace(s[|s| - 1]) then StripTrailing(s[..|s| - 1]) else s
  }

  /** `str.strip()`: neither starts nor ends with whitespace. */
  function Strip(s: string): (r: string)
    ensures Trimmed(r)
    ensures |r| <= |s|
  {
    StripTrailing(StripLeading(s))
  }

  /** `str.strip()` only removes characters at the two ends: its result is
      the slice of `s` after the leading whitespace. */
  lemma StripIsSlice(s: string)
    ensures var k := |s| - |StripLeading(s)|;
            k + |Strip(s)| <= |s| && Strip(s) == s[k..k + |Strip(s)|]
  {
    SliceOfSuffix(s, StripLeading(s), Strip(s));
  }

  /** The characters `StripLeading` drops are whitespace. */
  lemma {:induction false} LeadingIsWhitespace(s: string)
    ensures forall i :: 0 <= i < |s| - |StripLeading(s)| ==> IsWhitespace(s[i])
    decreases |s|
  {
    if |s| > 0 && IsWhitespace(s[0]) {
      LeadingIsWhitespace(s[1..]);
      forall i | 1 <= i < |s| - |StripLeading(s)|
        ensures IsWhitespace(s[i])
      {
        assert s[i] == s[1..][i - 1];
      }
    }
  }

  /** The characters `StripTrailing` drops are whitespace. */
  lemma {:induction false} TrailingIsWhitespace(s: string)
    ensures forall i :: |StripTrailing(s)| <= i < |s| ==> IsWhitespace(s[i])
    decreases |s|
  {
    if |s| > 0 && IsWhitespace(s[|s| - 1]) {
      TrailingIsWhitespace(s[..|s| - 1]);
      forall i | |StripTrailing(s)| <= i < |s| - 1
        ensures IsWhitespace(s[i])
      {
        assert s[i] == s[..|s| - 1][i];
      }
    }
  }

  /** A prefix of a suffix is a middle slice. */
  lemma SliceOfSuffix(s: string, t: string, r: string)
    requires |t| <= |s| && t == s[|s| - |t|..]
    requires |r| <= |t| && r == t[..|r|]
    ensures r == s[|s| - |t|..|s| - |t| + |r|]
  {
  }

  /** `WorldcatAPI.preprocess_string`. */
  function Preprocess(x: string): (r: string)
    ensures Normalized(r)
    ensures |r| <= |x|
  {
    var blanked := Lower(BlankPunctuation(x));
    var collapsed := CollapseSpaces(blanked);
    StripKeepsNormalForm(collapsed);
    Strip(collapsed)
  }

  /** Stripping a collapsed, lower-cased, punctuation-free text yields the
      normal form. */
  lemma StripKeepsNormalForm(t: string)
    requires NoDoubleSpace(t) && NoPunctuation(t) && NoUpper(t)
    ensures Normalized(Strip(t))
  {
    StripIsSlice(t);
    SliceKeepsNormalForm(t, Strip(t), |t| - |StripLeading(t)|);
  }

  /** A slice of a collapsed, lower-cased, punctuation-free text keeps those
      three properties. */
  lemma SliceKeepsNormalForm(t: string, r: string, k: nat)
    requires NoDoubleSpace(t)
    requires NoPunctuation(t) && NoUpper(t)
    requires k + |r| <= |t| && r == t[k..k + |r|]
    ensures NoPunctuation(r) && NoUpper(r) && NoDoubleSpace(r)
  {
    forall i | 0 <= i < |r| - 1
      ensures !(r[i] == ' ' && r[i + 1] == ' ')
    {
      assert r[i] == t[k + i] && r[i + 1] == t[k + i + 1];
    }
  }

  // ---------------------------------------------------------------------
  // Idempotence

  lemma {:induction false} CollapseSpacesFixesCollapsed(s: string)
    requires NoDoubleSpace(s)
    ensures CollapseSpaces(s) == s
    decreases |s|
  {
    if |s| > 0 {
      assert NoDoubleSpace(s[1..]) by {
        forall i | 0 <= i < |s[1..]| - 1 ensures !(s[1..][i] == ' ' && s[1..][i + 1] == ' ') {
          assert s[1..][i] == s[i + 1] && s[1..][i + 1] == s[i + 2];
        }
      }
      CollapseSpacesFixesCollapsed(s[1..]);
      assert !(|s| > 1 && s[0] == ' ' && s[1] == ' ');
      assert s == [s[0]] + s[1..];
    }
  }

  /** Preprocessing a preprocessed title changes nothing. */
  lemma PreprocessIdempotent(x: string)
    ensures Preprocess(Preprocess(x)) == Preprocess(x)
  {
    NormalizedIsFixpoint(Preprocess(x));
  }

  /** Every string in normal form is its own preprocessing: the normal form
      is exactly the set of possible outputs. */
  lemma NormalizedIsFixpoint(s: string)
    requires Normalized(s)
    ensures Preprocess(s) == s
  {
    assert BlankPunctuation(s) == s;
    assert Lower(BlankPunctuation(s)) == s;
    CollapseSpacesFixesCollapsed(s);
    assert StripLeading(s) == s;
    assert StripTrailing(s) == s;
  }

  // ---------------------------------------------------------------------
  // Nothing but whitespace is removed

  /** The text with every whitespace character removed. */
  function NonBlank(s: string): (r: string)
    ensures |r| <= |s|
  {
    if s == [] then []
    else (if IsWhitespace(s[0]) then [] else [s[0]]) + NonBlank(s[1..])
  }

  lemma {:induction false} NonBlankAppend(a: string, b: string)
    ensures NonBlank(a + b) == NonBlank(a) + NonBlank(b)
    decreases |a|
  {
    if a != [] {
      var head := if IsWhitespace(a[0]) then [] else [a[0]];
      assert (a + b)[0] == a[0];
      assert (a + b)[1..] == a[1..] + b;
      NonBlankAppend(a[1..], b);
      calc {
        NonBlank(a + b);
        head + NonBlank(a[1..] + b);
        head + (NonBlank(a[1..]) + NonBlank(b));
        (head + NonBlank(a[1..])) + NonBlank(b);
        NonBlank(a) + NonBlank(b);
      }
    } else {
      assert a + b == b;
    }
  }

  lemma {:induction false} CollapseSpacesKeepsNonBlank(s: string)
    ensures NonBlank(CollapseSpaces(s)) == NonBlank(s)
    decreases |s|
  {
    if |s| > 0 {
      CollapseSpacesKeepsNonBlank(s[1..]);
      if !(|s| > 1 && s[0] == ' ' && s[1] == ' ') {
        NonBlankAppend([s[0]], CollapseSpaces(s[1..]));
      }
    }
  }

  lemma {:induction false} StripLeadingKeepsNonBlank(s: string)
    ensures NonBlank(StripLeading(s)) == NonBlank(s)
    decreases |s|
  {
    if |s| > 0 && IsWhitespace(s[0]) {
      StripLeadingKeepsNonBlank(s[1..]);
    }
  }

  lemma {:induction false} StripTrailingKeepsNonBlank(s: string)
    ensures NonBlank(StripTrailing(s)) == NonBlank(s)
    decreases |s|
  {
    if |s| > 0 && IsWhitespace(s[|s| - 1]) {
      var init := s[..|s| - 1];
      StripTrailingKeepsNonBlank(init);
      assert s == init + [s[|s| - 1]];
      NonBlankAppend(init, [s[|s| - 1]]);
      assert NonBlank([s[|s| - 1]]) == [];
    }
  }

  /** Preprocessing only blanks punctuation, lower-cases, and removes
      whitespace: with all whitespace dropped, the output is the lower-cased,
      punctuation-blanked input. */
  lemma PreprocessKeepsText(x: string)
    ensures NonBlank(Preprocess(x)) == NonBlank(Lower(BlankPunctuation(x)))
  {
    var blanked := Lower(BlankPunctuation(x));
    var collapsed := CollapseSpaces(blanked);
    CollapseSpacesKeepsNonBlank(blanked);
    StripLeadingKeepsNonBlank(collapsed);
    StripTrailingKeepsNonBlank(StripLeading(collapsed));
  }

  // ---------------------------------------------------------------------
  // Words are preprocessed one by one

  /** A character that survives preprocessing as a word character: neither
      whitespace nor punctuation. */
  predicate IsWordChar(c: char) {
    !IsWhitespace(c) && !IsPunctuation(c)
  }

  /** Two texts joined by one space, where the first ends and the second
      starts with a word character, preprocess to the two preprocessed texts
      joined by one space: the normaliser keeps every word and separates
      words by exactly one space. */
  lemma PreprocessJoinsWords(u: string, v: string)
    requires |u| > 0 && IsWordChar(u[|u| - 1])
    requires |v| > 0 && IsWordChar(v[0])
    ensures Preprocess(u + " " + v) == Preprocess(u) + " " + Preprocess(v)
  {
    var bu, bv := Lower(BlankPunctuation(u)), Lower(BlankPunctuation(v));
    BlankedJoin(u, v);
    assert bu[|bu| - 1] == LowerChar(u[|u| - 1]);
    assert bv[0] == LowerChar(v[0]);
    CollapsedJoin(bu, bv);
    StrippedJoin(CollapseSpaces(bu), CollapseSpaces(bv));
  }

  /** Blanking and lower-casing keep the joining space. */
  lemma BlankedJoin(u: string, v: string)
    ensures Lower(BlankPunctuation(u + " " + v))
            == Lower(BlankPunctuation(u)) + (" " + Lower(BlankPunctuation(v)))
  {
    BlankedAppend(u + " ", v);
    BlankedAppend(u, " ");
    assert Lower(BlankPunctuation(" ")) == " ";
  }

  /** A single space between two characters that are not spaces survives
      collapsing. */
  lemma CollapsedJoin(a: string, b: string)
    requires |a| > 0 && a[|a| - 1] != ' '
    requires |b| > 0 && b[0] != ' '
    ensures CollapseSpaces(a + (" " + b)) == CollapseSpaces(a) + (" " + CollapseSpaces(b))
  {
    CollapseSpacesAppend(a, " " + b);
    assert (" " + b)[1..] == b;
  }

  /** Stripping a join of two texts that meet at non-whitespace strips only
      the outer ends. */
  lemma StrippedJoin(a: string, b: string)
    requires |a| > 0 && !IsWhitespace(a[|a| - 1])
    requires |b| > 0 && !IsWhitespace(b[0])
    ensures Strip(a + (" " + b)) == Strip(a) + " " + Strip(b)
  {
    var la := StripLeading(a);
    StripLeadingAppend(a, " " + b);
    LeadingIsWhitespace(a);
    assert |la| > 0 && la[|la| - 1] == a[|a| - 1];
    assert la + (" " + b) == (la + " ") + b;
    StripTrailingPrepend(la + " ", b);
    assert StripTrailing(la) == la;
    assert StripLeading(b) == b;
  }

  /** Blanking and lower-casing work character by character. */
  lemma BlankedAppend(a: string, b: string)
    ensures Lower(BlankPunctuation(a + b)) == Lower(BlankPunctuation(a)) + Lower(BlankPunctuation(b))
  {
    var l, r := Lower(BlankPunctuation(a + b)), Lower(BlankPunctuation(a)) + Lower(BlankPunctuation(b));
    forall i | 0 <= i < |l| ensures l[i] == r[i] {
      if i >= |a| { assert (a + b)[i] == b[i - |a|]; }
    }
  }

  /** Collapsing splits after a character that is not a space. */
  lemma {:induction false} CollapseSpacesAppend(a: string, t: string)
    requires |a| > 0 && a[|a| - 1] != ' '
    ensures CollapseSpaces(a + t) == CollapseSpaces(a) + CollapseSpaces(t)
    decreases |a|
  {
    if |a| == 1 {
      CollapseSpacesStep(a, t);
    } else {
      assert (a + t)[1..] == a[1..] + t;
      CollapseSpacesAppend(a[1..], t);
      CollapseSpacesStep(a, t);
    }
  }

  /** One step of `CollapseSpacesAppend`: the first character of `a`
      decides the same way in `a` and in `a + t`. */
  lemma CollapseSpacesStep(a: string, t: string)
    requires |a| > 0 && a[|a| - 1] != ' '
    requires |a| > 1 ==> CollapseSpaces(a[1..] + t) == CollapseSpaces(a[1..]) + CollapseSpaces(t)
    ensures CollapseSpaces(a + t) == CollapseSpaces(a) + CollapseSpaces(t)
  {
    var s := a + t;
    assert s[0] == a[0];
    assert s[1..] == a[1..] + t;
    if |a| == 1 {
      assert a[1..] == [] && s[1..] == t;
      assert CollapseSpaces(a) == [a[0]];
      assert CollapseSpaces(s) == [a[0]] + CollapseSpaces(t);
    } else if a[0] == ' ' && a[1] == ' ' {
      assert s[1] == a[1];
      assert CollapseSpaces(s) == CollapseSpaces(a[1..] + t);
    } else {
      assert CollapseSpaces(s) == [a[0]] + CollapseSpaces(a[1..] + t);
      AppendAssoc([a[0]], CollapseSpaces(a[1..]), CollapseSpaces(t));
    }
  }

  lemma AppendAssoc(x: string, y: string, z: string)
    ensures x + (y + z) == (x + y) + z
  {
  }

  /** Leading whitespace ends before a character that is not whitespace. */
  lemma {:induction false} StripLeadingAppend(a: string, t: string)
    requires |a| > 0 && !IsWhitespace(a[|a| - 1])
    ensures StripLeading(a + t) == StripLeading(a) + t
    decreases |a|
  {
    assert (a + t)[0] == a[0];
    if IsWhitespace(a[0]) {
      assert (a + t)[1..] == a[1..] + t;
      StripLeadingAppend(a[1..], t);
    }
  }

  /** Trailing whitespace starts after a character that is not whitespace. */
  lemma {:induction false} StripTrailingPrepend(t: string, b: string)
    requires |b| > 0 && !IsWhitespace(b[0])
    ensures StripTrailing(t + b) == t + StripTrailing(b)
    decreases |b|
  {
    assert (t + b)[|t + b| - 1] == b[|b| - 1];
    if IsWhitespace(b[|b| - 1]) {
      assert (t + b)[..|t + b| - 1] == t + b[..|b| - 1];
      StripTrailingPrepend(t, b[..|b| - 1]);
    }
  }
}
