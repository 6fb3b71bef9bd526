/** The email-shape test `^[^\s@]+@[^\s@]+\.[^\s@]+$`, which all three
    validating sites (the Pages function, the local development server and
    the signup form) apply to the normalised address. */
module EmailAddress {
  import opened Strings

  /** A run matched by `[^\s@]+`: non-empty, no whitespace, no `@`. */
  ghost predicate Atom(s: string) {
    |s| > 0 && forall k | 0 <= k < |s| :: !IsWhitespace(s[k]) && s[k] != '@'
  }

  /** The regular expression, read literally: the string splits as
      atom `@` atom `.` atom. The middle atom may itself contain dots, so the
      dot is any dot after the `@` that leaves an atom on both sides. */
  ghost predicate RegexSplit(s: string) {
    exists i, j | 0 < i < j < |s| - 1 ::
      && s[i] == '@' && s[j] == '.'
      && Atom(s[..i]) && Atom(s[i + 1..j]) && Atom(s[j + 1..])
  }

  /** The shape the regular expression accepts, stated as separate
      conditions: no whitespace anywhere; exactly one `@`, not at the start;
      and after it a `.` with at least one character on each side. */
  ghost predicate WellFormed(s: string) {
    && NoWhitespace(s)
    && exists i | 0 < i < |s| ::
         && s[i] == '@'
         && (forall k | 0 <= k < |s| && k != i :: s[k] != '@')
         && exists j | i + 1 < j < |s| - 1 :: s[j] == '.'
  }

  /** `[^\s@]*` over the whole string. */
  predicate NoSpaceOrAt(s: string) {
    s == [] || (!IsWhitespace(s[0]) && s[0] != '@' && NoSpaceOrAt(s[1..]))
  }

  /** The position of the first `@`, or the length when there is none. */
  function IndexOfAt(s: string): (i: nat)
    ensures i <= |s|
    ensures i < |s| ==> s[i] == '@'
  {
    if s == [] then 0 else if s[0] == '@' then 0 else 1 + IndexOfAt(s[1..])
  }

  /** A `.` that is neither the first nor the last character. */
  predicate HasInnerDot(d: string) {
    |d| >= 3 && (d[1] == '.' || HasInnerDot(d[1..]))
  }

  /** `EMAIL_REGEX.test(s)`, evaluated the way the pattern forces it: the
      only `@` the pattern allows splits the string, the part before it is
      a non-empty run without whitespace or `@`, and so is the part after
      it, which must also hold a dot that is not at its edges. */
  predicate MatchesEmailRegex(s: string)
    ensures MatchesEmailRegex(s) ==> |s| >= 5 && s[0] != '@'
  {
    var i := IndexOfAt(s);
    0 < i < |s| && NoSpaceOrAt(s[..i]) && NoSpaceOrAt(s[i + 1..]) && HasInnerDot(s[i + 1..])
  }

  lemma {:induction false} NoSpaceOrAtMeans(s: string)
    ensures NoSpaceOrAt(s) <==> forall k | 0 <= k < |s| :: !IsWhitespace(s[k]) && s[k] != '@'
  {
    if s != [] {
      NoSpaceOrAtMeans(s[1..]);
      assert forall k | 1 <= k < |s| :: s[k] == s[1..][k - 1];
    }
  }

  lemma {:induction false} IndexOfAtMeans(s: string)
    ensures IndexOfAt(s) < |s| ==> s[IndexOfAt(s)] == '@'
    ensures forall k | 0 <= k < IndexOfAt(s) :: s[k] != '@'
  {
    if s != [] && s[0] != '@' {
      IndexOfAtMeans(s[1..]);
      assert forall k | 1 <= k < |s| :: s[k] == s[1..][k - 1];
    }
  }

  lemma {:induction false} HasInnerDotMeans(d: string)
    ensures HasInnerDot(d) <==> exists j | 0 < j < |d| - 1 :: d[j] == '.'
  {
    if |d| >= 3 {
      HasInnerDotMeans(d[1..]);
      if exists j | 0 < j < |d| - 1 :: d[j] == '.' {
        var j :| 0 < j < |d| - 1 && d[j] == '.';
        if j > 1 {
          assert d[1..][j - 1] == '.';
        }
      }
      if HasInnerDot(d[1..]) {
        var j :| 0 < j < |d| - 2 && d[1..][j] == '.';
        assert d[j + 1] == '.';
      }
    }
  }

  /** The evaluated test accepts exactly the strings the pattern matches,
      and those are exactly the well-formed ones. */
  lemma {:induction false} MatchesEmailRegexCorrect(s: string)
    ensures MatchesEmailRegex(s) <==> RegexSplit(s)
    ensures MatchesEmailRegex(s) <==> WellFormed(s)
  {
    EmailRegexCharacterized(s);
    var i := IndexOfAt(s);
    IndexOfAtMeans(s);
    if 0 < i < |s| {
      NoSpaceOrAtMeans(s[..i]);
      NoSpaceOrAtMeans(s[i + 1..]);
      HasInnerDotMeans(s[i + 1..]);
      assert forall k | 0 <= k < i :: s[k] == s[..i][k];
      assert forall k | i + 1 <= k < |s| :: s[k] == s[i + 1..][k - i - 1];
      if MatchesEmailRegex(s) {
        var j :| 0 < j < |s[i + 1..]| - 1 && s[i + 1..][j] == '.';
        assert s[i + 1 + j] == '.';
        assert WellFormed(s);
      }
      if WellFormed(s) {
        var i' :| 0 < i' < |s| && s[i'] == '@'
          && (forall k | 0 <= k < |s| && k != i' :: s[k] != '@')
          && exists j | i' + 1 < j < |s| - 1 :: s[j] == '.';
        assert i' == i;
        var j :| i + 1 < j < |s| - 1 && s[j] == '.';
        assert s[i + 1..][j - i - 1] == '.';
      }
    }
  }

  lemma EmailRegexCharacterized(s: string)
    ensures RegexSplit(s) <==> WellFormed(s)
  {
    if RegexSplit(s) {
      SplitIsWellFormed(s);
    }
    if WellFormed(s) {
      WellFormedSplits(s);
    }
  }

  /** A string split as the pattern reads has the conditions of WellFormed. */
  lemma SplitIsWellFormed(s: string)
    requires RegexSplit(s)
    ensures WellFormed(s)
  {
    var i, j :| 0 < i < j < |s| - 1 && s[i] == '@' && s[j] == '.'
      && Atom(s[..i]) && Atom(s[i + 1..j]) && Atom(s[j + 1..]);
    forall k | 0 <= k < |s| ensures !IsWhitespace(s[k]) && (k != i ==> s[k] != '@') {
      if k < i {
        assert s[k] == s[..i][k];
      } else if i < k < j {
        assert s[k] == s[i + 1..j][k - i - 1];
      } else if j < k {
        assert s[k] == s[j + 1..][k - j - 1];
      }
    }
    assert i + 1 < j by {
      assert |s[i + 1..j]| > 0;
    }
  }

  /** A well-formed string splits as the pattern reads. */
  lemma WellFormedSplits(s: string)
    requires WellFormed(s)
    ensures RegexSplit(s)
  {
    var i :| 0 < i < |s| && s[i] == '@'
      && (forall k | 0 <= k < |s| && k != i :: s[k] != '@')
      && exists j | i + 1 < j < |s| - 1 :: s[j] == '.';
    var j :| i + 1 < j < |s| - 1 && s[j] == '.';
    assert Atom(s[..i]);
    assert Atom(s[i + 1..j]);
    assert Atom(s[j + 1..]);
  }

  /** Without an `@` nothing is accepted. */
  lemma RejectsWithoutAt(s: string)
    requires forall k | 0 <= k < |s| :: s[k] != '@'
    ensures !MatchesEmailRegex(s)
  {
    IndexOfAtMeans(s);
  }

  /** Two `@` signs are never accepted. */
  lemma RejectsTwoAts(s: string, p: nat, q: nat)
    requires p < q < |s| && s[p] == '@' && s[q] == '@'
    ensures !MatchesEmailRegex(s)
  {
    MatchesEmailRegexCorrect(s);
  }

  /** No dot after the `@` (or only at its edges) is never accepted. */
  lemma RejectsWithoutDomainDot(s: string, i: nat)
    requires i < |s| && s[i] == '@'
    requires forall j | i + 1 < j < |s| - 1 :: s[j] != '.'
    ensures !MatchesEmailRegex(s)
  {
    MatchesEmailRegexCorrect(s);
  }

  /** Every accepted string has no whitespace, so it contains no line break
      and is unchanged by trimming. */
  lemma AcceptedHasNoWhitespace(s: string)
    requires MatchesEmailRegex(s)
    ensures NoWhitespace(s)
    ensures Trim(s) == s
    ensures '\n' !in s && '\r' !in s
  {
    assert NoWhitespace(s) by { MatchesEmailRegexCorrect(s); }
    NoWhitespaceNoLineBreak(s);
    TrimNoWhitespace(s);
  }

  /** Two strings that agree position by position on whitespace, `@` and
      `.` are well-formed alike. */
  lemma WellFormedTransfer(s: string, t: string)
    requires |s| == |t|
    requires forall k | 0 <= k < |s| ::
               && (IsWhitespace(t[k]) <==> IsWhitespace(s[k]))
               && (t[k] == '@' <==> s[k] == '@')
               && (t[k] == '.' <==> s[k] == '.')
    requires WellFormed(s)
    ensures WellFormed(t)
  {
    var i :| 0 < i < |s| && s[i] == '@'
      && (forall k | 0 <= k < |s| && k != i :: s[k] != '@')
      && exists j | i + 1 < j < |s| - 1 :: s[j] == '.';
    var j :| i + 1 < j < |s| - 1 && s[j] == '.';
    assert t[i] == '@' && t[j] == '.';
  }

  /** Lower-casing does not change whether the test passes: `@`, `.` and
      whitespace are left where they are. */
  lemma RegexIgnoresCase(s: string)
    ensures MatchesEmailRegex(ToLower(s)) <==> MatchesEmailRegex(s)
  {
    var t := ToLower(s);
    forall k | 0 <= k < |s|
      ensures IsWhitespace(t[k]) <==> IsWhitespace(s[k])
      ensures t[k] == '@' <==> s[k] == '@'
      ensures t[k] == '.' <==> s[k] == '.'
    {
      LowerCharFacts(s[k]);
    }
    MatchesEmailRegexCorrect(s);
    MatchesEmailRegexCorrect(t);
    if WellFormed(s) {
      WellFormedTransfer(s, t);
    }
    if WellFormed(t) {
      WellFormedTransfer(t, s);
    }
  }

  lemma AcceptsExample()
    ensures MatchesEmailRegex("a@b.com")
  {
    var s := "a@b.com";
    assert s[1] == '@' && s[3] == '.';
    assert Atom(s[..1]) && Atom(s[2..3]) && Atom(s[4..]);
  }

  lemma RejectsExample()
    ensures !MatchesEmailRegex("not-an-email")
  {
    var s := "not-an-email";
    forall k | 0 <= k < |s| ensures s[k] != '@' {
    }
    RejectsWithoutAt(s);
  }
}
