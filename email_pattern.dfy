/**
 * The e-mail test of the registration form: the regular expression
 * `^[A-Z0-9._%+-]+@[A-Z0-9.-]+\.[A-Z]{2,}$` with the `i` flag, written out by hand.
 *
 * `Matches` is the scanning test; `PatternMatches` reads the expression piece by
 * piece (local part, `@`, domain, `.`, top-level domain) and the two are proved equal.
 * Without the `u` flag, JavaScript's case-insensitive matching folds only the ASCII
 * letters, so `[A-Z]` under `i` is exactly the 52 ASCII letters.
 */
module EmailPattern {

  /** `[A-Z]` under the `i` flag */
  predicate IsLetter(c: char) {
    'A' <= c <= 'Z' || 'a' <= c <= 'z'
  }

  predicate IsDigit(c: char) {
    '0' <= c <= '9'
  }

  /** `[A-Z0-9._%+-]`, the local part's class */
  predicate IsLocalChar(c: char) {
    IsLetter(c) || IsDigit(c) || c == '.' || c == '_' || c == '%' || c == '+' || c == '-'
  }

  /** `[A-Z0-9.-]`, the domain's class */
  predicate IsDomainChar(c: char) {
    IsLetter(c) || IsDigit(c) || c == '.' || c == '-'
  }

  predicate AllLocal(s: string) {
    forall k :: 0 <= k < |s| ==> IsLocalChar(s[k])
  }

  predicate AllDomain(s: string) {
    forall k :: 0 <= k < |s| ==> IsDomainChar(s[k])
  }

  predicate AllLetters(s: string) {
    forall k :: 0 <= k < |s| ==> IsLetter(s[k])
  }

  /** Index of the last occurrence of `c` in `s`, or -1 when there is none. */
  function LastIndexOf(s: string, c: char): (r: int)
    ensures -1 <= r < |s|
    ensures r >= 0 ==> s[r] == c
    ensures forall k :: r < k < |s| ==> s[k] != c
  {
    if |s| == 0 then -1
    else if s[|s| - 1] == c then |s| - 1
    else LastIndexOf(s[..|s| - 1], c)
  }

  /** `[A-Z0-9.-]+\.[A-Z]{2,}$`: the top-level domain holds no dot, so it starts after the last one. */
  predicate DomainMatches(d: string)
    ensures DomainMatches(d) ==> |d| >= 4 && d[|d| - 1] != '.'
  {
    var dot := LastIndexOf(d, '.');
    dot > 0 && |d| - dot >= 3 && AllDomain(d[..dot]) && AllLetters(d[dot + 1..])
  }

  /** The whole test: neither class holds `@`, so the local part ends at the last one. */
  predicate Matches(s: string)
    ensures Matches(s) ==> |s| >= 6 && s[0] != '@' && s[|s| - 1] != '@'
  {
    var at := LastIndexOf(s, '@');
    at > 0 && AllLocal(s[..at]) && DomainMatches(s[at + 1..])
  }

  /**
   * The expression read piece by piece: `s[..i]` matches `[A-Z0-9._%+-]+`, `s[i]` is
   * the `@`, `s[i+1..j]` matches `[A-Z0-9.-]+`, `s[j]` is the `\.` and `s[j+1..]`
   * matches `[A-Z]{2,}` up to the end of the input.
   */
  ghost predicate SplitsAt(s: string, i: int, j: int) {
    && 0 < i && i + 1 < j && j + 2 < |s|
    && s[i] == '@' && s[j] == '.'
    && AllLocal(s[..i]) && AllDomain(s[i + 1..j]) && AllLetters(s[j + 1..])
  }

  ghost predicate PatternMatches(s: string) {
    exists i, j :: SplitsAt(s, i, j)
  }

  /** What the scan accepts, the expression matches. */
  lemma MatchesImpliesPattern(s: string)
    requires Matches(s)
    ensures PatternMatches(s)
  {
    var at := LastIndexOf(s, '@');
    var d := s[at + 1..];
    var dot := LastIndexOf(d, '.');
    assert s[at + 1..at + 1 + dot] == d[..dot];
    assert s[at + 1 + dot + 1..] == d[dot + 1..];
    assert SplitsAt(s, at, at + 1 + dot);
  }

  /** What the expression matches, the scan accepts: the split is the one the scan finds. */
  lemma PatternImpliesMatches(s: string, i: int, j: int)
    requires SplitsAt(s, i, j)
    ensures LastIndexOf(s, '@') == i
    ensures LastIndexOf(s[i + 1..], '.') == j - i - 1
    ensures Matches(s)
  {
    forall k | i < k < |s| ensures s[k] != '@' {
      if k < j {
        assert s[i + 1..j][k - i - 1] == s[k];
      } else if k > j {
        assert s[j + 1..][k - j - 1] == s[k];
      }
    }
    var d := s[i + 1..];
    forall k | j - i - 1 < k < |d| ensures d[k] != '.' {
      assert s[j + 1..][k - (j - i)] == d[k];
    }
    assert d[j - i - 1] == '.';
    assert d[..j - i - 1] == s[i + 1..j];
    assert d[j - i..] == s[j + 1..];
  }

  /** The scanning test accepts exactly the strings the expression matches. */
  lemma MatchesIffPattern(s: string)
    ensures Matches(s) <==> PatternMatches(s)
  {
    if Matches(s) {
      MatchesImpliesPattern(s);
    }
    if PatternMatches(s) {
      var i, j :| SplitsAt(s, i, j);
      PatternImpliesMatches(s, i, j);
    }
  }

  /** A matching address holds exactly one `@`. */
  lemma MatchedAddressHasOneAt(s: string)
    requires Matches(s)
    ensures exists i :: 0 < i < |s| && s[i] == '@'
    ensures forall k, m :: 0 <= k < m < |s| && s[k] == '@' ==> s[m] != '@'
  {
    var at := LastIndexOf(s, '@');
    forall k | 0 <= k < at ensures s[k] != '@' {
      assert s[..at][k] == s[k];
    }
  }

  /** Addresses the expression matches, in either case. */
  lemma AcceptedExamples()
    ensures Matches("a@b.co")
    ensures Matches("A.B@C-D.RU")
  {
    assert SplitsAt("a@b.co", 1, 3);
    PatternImpliesMatches("a@b.co", 1, 3);
    assert SplitsAt("A.B@C-D.RU", 3, 7);
    PatternImpliesMatches("A.B@C-D.RU", 3, 7);
  }

  /** A domain without a dot, and a one-letter top-level domain, are refused. */
  lemma RefusedExamples()
    ensures !Matches("a@b")
    ensures !Matches("a@b.c")
  {
    assert LastIndexOf("a@b", '@') == 1;
    var s := "a@b.c";
    assert s[1] == '@' && s[2] != '@' && s[3] != '@' && s[4] != '@';
    assert LastIndexOf(s, '@') == 1;
    var d := s[2..];
    assert d == "b.c" && d[1] == '.' && d[2] != '.';
    assert LastIndexOf(d, '.') == 1;
  }
}
