/** The DOI pattern of app/util/regex.py, line 13: a word boundary, then
    a captured group of "10.", at least four digits, any number of groups
    of '.' and one or more digits, '/', and a non-empty suffix of
    non-whitespace characters other than the double quote, '&', the single
    quote, '<' and '>', then a word boundary.

    The captured group is recognised by a deterministic left-to-right
    scanner (Matches), proved equal to a declarative description of the
    accepted strings (DoiForm). No backtracking is needed: a digit run can
    only be followed by '.' or '/', neither of which is a digit, so a full
    match must take each run maximally. */
module Doi {
  import opened Chars

  /** A character the suffix may contain. */
  predicate IsSuffixChar(c: char) {
    !IsSpace(c) && c != '"' && c != '&' && c != '\'' && c != '<' && c != '>'
  }

  // ---------------------------------------------------------------------
  // The scanner
  // ---------------------------------------------------------------------

  /** Length of the maximal run of digits starting at i. */
  function DigitRun(s: string, i: nat): (n: nat)
    requires i <= |s|
    ensures i + n <= |s|
    ensures forall k | i <= k < i + n :: IsDigit(s[k])
    ensures i + n == |s| || !IsDigit(s[i + n])
    decreases |s| - i
  {
    if i < |s| && IsDigit(s[i]) then 1 + DigitRun(s, i + 1) else 0
  }

  /** Every character from i on may belong to the suffix. */
  predicate SuffixFrom(s: string, i: nat)
    requires i <= |s|
    decreases |s| - i
  {
    i == |s| || (IsSuffixChar(s[i]) && SuffixFrom(s, i + 1))
  }

  /** From i, right after a digit run of the registrant: either '/' and a
      non-empty suffix, or '.', a non-empty digit run, and more of the
      same. */
  predicate GroupsFrom(s: string, i: nat)
    requires i <= |s|
    decreases |s| - i
  {
    i < |s| &&
    if s[i] == '/' then
      i + 1 < |s| && SuffixFrom(s, i + 1)
    else
      s[i] == '.' && DigitRun(s, i + 1) > 0 && GroupsFrom(s, i + 1 + DigitRun(s, i + 1))
  }

  /** s as a whole is matched by the captured group of the pattern. */
  predicate Matches(s: string) {
    |s| >= 3 && s[..3] == "10." && DigitRun(s, 3) >= 4 && GroupsFrom(s, 3 + DigitRun(s, 3))
  }

  // ---------------------------------------------------------------------
  // The declarative description
  // ---------------------------------------------------------------------

  /** The registrant part: digits and dots only, at least four
      leading digits, a digit at the end and a digit after every dot. */
  predicate RegistrantForm(r: string) {
    && |r| >= 4
    && (forall k | 0 <= k < 4 :: IsDigit(r[k]))
    && (forall k | 0 <= k < |r| :: IsDigit(r[k]) || r[k] == '.')
    && IsDigit(r[|r| - 1])
    && (forall k, m | 0 <= k < |r| && 0 <= m < |r| && m == k + 1 :: r[k] == '.' ==> IsDigit(r[m]))
  }

  /** The suffix: non-empty, only suffix characters. */
  predicate SuffixForm(t: string) {
    |t| > 0 && forall k | 0 <= k < |t| :: IsSuffixChar(t[k])
  }

  /** "10.", a registrant, '/', and a suffix. */
  predicate DoiForm(s: string) {
    |s| >= 3 && s[..3] == "10." &&
    exists k | 3 < k < |s| :: s[k] == '/' && RegistrantForm(s[3..k]) && SuffixForm(s[k + 1..])
  }

  // ---------------------------------------------------------------------
  // The scanner recognises exactly the declarative form
  // ---------------------------------------------------------------------

  lemma MatchesIffDoiForm(s: string)
    ensures Matches(s) <==> DoiForm(s)
  {
    if Matches(s) {
      var k := MatchesShape(s);
    }
    if DoiForm(s) {
      var k :| 3 < k < |s| && s[k] == '/' && RegistrantForm(s[3..k]) && SuffixForm(s[k + 1..]);
      DoiFormMatches(s, k);
    }
  }

  /** An accepted string is "10.", a registrant, '/' and a suffix: at
      least four digits, then dot-separated digit groups, then a non-empty
      suffix with no whitespace and none of the five excluded characters. */
  lemma MatchesShape(s: string) returns (k: nat)
    requires Matches(s)
    ensures 3 < k < |s| && s[..3] == "10." && s[k] == '/'
    ensures RegistrantForm(s[3..k]) && SuffixForm(s[k + 1..])
  {
    var n := DigitRun(s, 3);
    assert RegistrantForm(s[3..3 + n]);
    k := GroupsSound(s, 3 + n);
  }

  lemma {:induction false} SuffixFromForm(s: string, i: nat)
    requires i <= |s|
    ensures SuffixFrom(s, i) <==> forall k | i <= k < |s| :: IsSuffixChar(s[k])
    decreases |s| - i
  {
    if i < |s| {
      SuffixFromForm(s, i + 1);
    }
  }

  /** Soundness, from a position i that ends a well-formed registrant. */
  lemma {:induction false} GroupsSound(s: string, i: nat) returns (k: nat)
    requires 3 < i <= |s| && GroupsFrom(s, i) && RegistrantForm(s[3..i])
    ensures 3 < k < |s| && s[k] == '/' && RegistrantForm(s[3..k]) && SuffixForm(s[k + 1..])
    decreases |s| - i
  {
    if s[i] == '/' {
      k := i;
      SuffixFromForm(s, i + 1);
      var t := s[k + 1..];
      forall m | 0 <= m < |t|
        ensures IsSuffixChar(t[m])
      {
        assert t[m] == s[k + 1 + m];
      }
    } else {
      var n := DigitRun(s, i + 1);
      var j := i + 1 + n;
      assert s[3..j] == s[3..i] + ['.'] + s[i + 1..j];
      RegistrantExtend(s[3..i], s[i + 1..j]);
      k := GroupsSound(s, j);
    }
  }

  /** A registrant followed by '.' and a non-empty digit group is a
      registrant. */
  lemma RegistrantExtend(r: string, d: string)
    requires RegistrantForm(r) && |d| > 0 && forall k | 0 <= k < |d| :: IsDigit(d[k])
    ensures RegistrantForm(r + ['.'] + d)
  {
    var t := r + ['.'] + d;
    assert t[|r| - 1] == r[|r| - 1];
    forall k, m | 0 <= k < |t| && 0 <= m < |t| && m == k + 1 && t[k] == '.'
      ensures IsDigit(t[m])
    {
      if m < |r| {
        assert t[k] == r[k] && t[m] == r[m];
      } else if m > |r| {
        assert t[m] == d[m - |r| - 1];
      }
    }
  }

  /** Completeness: the scanner accepts every string of the form. */
  lemma DoiFormMatches(s: string, k: nat)
    requires |s| >= 3 && s[..3] == "10." && 3 < k < |s| && s[k] == '/'
    requires RegistrantForm(s[3..k]) && SuffixForm(s[k + 1..])
    ensures Matches(s)
  {
    var r := s[3..k];
    var n := DigitRun(s, 3);
    if 3 + n < k {
      assert r[n] == s[3 + n];
    }
    GroupsComplete(s, k, 3 + n);
  }

  /** Completeness, from a position i inside the registrant region that
      ends a digit run: i is the '/' or a '.'. */
  lemma {:induction false} GroupsComplete(s: string, k: nat, i: nat)
    requires 3 < k < |s| && s[k] == '/'
    requires RegistrantForm(s[3..k]) && SuffixForm(s[k + 1..])
    requires 3 < i <= k && (i == k || s[i] == '.')
    ensures GroupsFrom(s, i)
    decreases k - i
  {
    var r := s[3..k];
    if i == k {
      SuffixFromForm(s, k + 1);
      forall m | k + 1 <= m < |s|
        ensures IsSuffixChar(s[m])
      {
        assert s[m] == s[k + 1..][m - k - 1];
      }
    } else {
      assert r[i - 3] == '.';
      assert i + 1 < k;
      assert IsDigit(r[i - 2]) && r[i - 2] == s[i + 1];
      var n := DigitRun(s, i + 1);
      var j := i + 1 + n;
      if j < k {
        assert r[j - 3] == s[j];
      }
      GroupsComplete(s, k, j);
    }
  }

  // ---------------------------------------------------------------------
  // The word boundaries around the group
  // ---------------------------------------------------------------------

  /** A word boundary at position p of text. */
  predicate WordBoundary(text: string, p: nat)
    requires p <= |text|
  {
    (p > 0 && IsWordChar(text[p - 1])) != (p < |text| && IsWordChar(text[p]))
  }

  /** The whole pattern matches text[i..j], group and both boundaries. */
  predicate DoiAt(text: string, i: nat, j: nat) {
    i <= j <= |text| && Matches(text[i..j]) && WordBoundary(text, i) && WordBoundary(text, j)
  }

  /** A DOI starts with the word character '1', so the leading boundary
      means it begins the text or follows a non-word character. */
  lemma DoiAtStart(text: string, i: nat, j: nat)
    ensures DoiAt(text, i, j) <==>
      i <= j <= |text| && Matches(text[i..j]) && (i == 0 || !IsWordChar(text[i - 1])) && WordBoundary(text, j)
  {
    if i <= j <= |text| && Matches(text[i..j]) {
      assert text[i] == text[i..j][..3][0];
    }
  }

  // ---------------------------------------------------------------------
  // Examples
  // ---------------------------------------------------------------------

  /** A DOI with a four-digit registrant. */
  lemma MatchesHandbook(s: string)
    requires s == "10.1000/182"
    ensures Matches(s)
  {
    assert s[..3] == "10.";
    var r := s[3..7];
    assert RegistrantForm(r);
    assert SuffixForm(s[8..]);
    DoiFormMatches(s, 7);
  }

  /** A registrant with sub-groups and a suffix that contains '/'. */
  lemma MatchesSubgroups(s: string)
    requires s == "10.12345.6/a/b"
    ensures Matches(s)
  {
    assert s[..3] == "10.";
    assert RegistrantForm(s[3..10]);
    assert SuffixForm(s[11..]);
    DoiFormMatches(s, 10);
  }

  /** Three registrant digits are too few. */
  lemma RejectsShortRegistrant(s: string)
    requires s == "10.123/x"
    ensures !Matches(s)
  {
    assert DigitRun(s, 6) == 0;
    assert DigitRun(s, 3) == 3;
  }

  /** The suffix may not hold whitespace. */
  lemma RejectsSpaceInSuffix(s: string)
    requires s == "10.1000/a b"
    ensures !Matches(s)
  {
    assert DigitRun(s, 7) == 0;
    assert DigitRun(s, 3) == 4;
    assert !SuffixFrom(s, 9);
  }
}
