/**
 * The e-mail check shared by the login and the registration forms: the regular
 * expression `^[^\s@]+@[^\s@]+\.[^\s@]+$` (cat-web/src/app/components/login/login.component.ts:52-55,
 * cat-web/src/app/components/registro/registro.component.ts:73-76), written as a predicate.
 */
module Email {
  import opened Wrappers
  import opened Text

  /** A character of the class `[^\s@]`. */
  predicate IsAddressChar(c: char) {
    !IsWhitespace(c) && c != '@'
  }

  predicate AllAddressChars(s: string) {
    forall k | 0 <= k < |s| :: IsAddressChar(s[k])
  }

  /**
   * One way for the pattern to match: `s[..at]`, `s[at + 1..dot]` and `s[dot + 1..]` are
   * the three non-empty `[^\s@]+` runs, `s[at]` is the `@` and `s[dot]` the `\.`.
   */
  ghost predicate PatternSplit(s: string, at: int, dot: int) {
    && 0 < at && at + 1 < dot && dot + 1 < |s|
    && s[at] == '@' && s[dot] == '.'
    && AllAddressChars(s[..at]) && AllAddressChars(s[at + 1..dot]) && AllAddressChars(s[dot + 1..])
  }

  /** The language of the regular expression, read off the pattern (backtracking picks any split). */
  ghost predicate MatchesEmailPattern(s: string) {
    exists at, dot :: PatternSplit(s, at, dot)
  }

  /** The domain part has a `.` with at least one character on each side. */
  predicate HasInnerDot(d: string) {
    exists j | 0 < j < |d| - 1 :: d[j] == '.'
  }

  /**
   * `isValidEmail`: a non-empty local part before the only `@`, and after it a domain
   * that has an inner `.`, with no white space and no second `@` anywhere.
   */
  function IsValidEmail(s: string): (r: bool)
    ensures r ==> |s| >= 5 && '@' in s
    ensures r ==> forall k | 0 <= k < |s| :: !IsWhitespace(s[k])
  {
    match IndexOf(s, '@')
    case None => false
    case Some(at) =>
      var ok := && 0 < at
        && AllAddressChars(s[..at])
        && AllAddressChars(s[at + 1..])
        && HasInnerDot(s[at + 1..]);
      assert ok ==> forall k | 0 <= k < |s| :: !IsWhitespace(s[k]) by {
        if ok {
          forall k | 0 <= k < |s| ensures !IsWhitespace(s[k]) {
            if k < at { assert s[k] == s[..at][k]; }
            else if k > at { assert s[k] == s[at + 1..][k - at - 1]; }
          }
        }
      }
      ok
  }

  /** The scan agrees with the regular expression on every string. */
  lemma EmailPatternAgrees(s: string)
    ensures IsValidEmail(s) <==> MatchesEmailPattern(s)
  {
    if IsValidEmail(s) { ScanFindsSplit(s); }
    if MatchesEmailPattern(s) {
      var at, dot :| PatternSplit(s, at, dot);
      SplitPassesScan(s, at, dot);
    }
  }

  /** A string the scan accepts has a split the pattern accepts. */
  lemma ScanFindsSplit(s: string)
    requires IsValidEmail(s)
    ensures MatchesEmailPattern(s)
  {
    var at := IndexOf(s, '@').value;
    var d := s[at + 1..];
    var j :| 0 < j < |d| - 1 && d[j] == '.';
    var dot := at + 1 + j;
    assert AllAddressChars(s[at + 1..dot]) by {
      assert s[at + 1..dot] == d[..j];
    }
    assert AllAddressChars(s[dot + 1..]) by {
      assert s[dot + 1..] == d[j + 1..];
    }
    assert PatternSplit(s, at, dot);
  }

  /** A split the pattern accepts passes the scan. */
  lemma SplitPassesScan(s: string, at: int, dot: int)
    requires PatternSplit(s, at, dot)
    ensures IsValidEmail(s)
  {
    assert '@' !in s[..at] by {
      assert forall k | 0 <= k < at :: IsAddressChar(s[..at][k]);
    }
    IndexOfFirst(s, '@', at);
    var d := s[at + 1..];
    assert AllAddressChars(d) by {
      assert d == s[at + 1..dot] + ['.'] + s[dot + 1..];
    }
    assert d[dot - at - 1] == '.';
  }

  /** The address the component tests accept. */
  lemma AcceptsTestAddress()
    ensures IsValidEmail("test@example.com")
  {
    var s := "test@example.com";
    assert AllAddressChars(s[..4]) by {
      assert s[..4] == "test";
      PrintableAddressChars("test");
    }
    assert AllAddressChars(s[5..12]) by {
      assert s[5..12] == "example";
      PrintableAddressChars("example");
    }
    assert AllAddressChars(s[13..]) by {
      assert s[13..] == "com";
      PrintableAddressChars("com");
    }
    SplitPassesScan(s, 4, 12);
  }

  /** Printable ASCII other than the space and `@` is never excluded by `[^\s@]`. */
  lemma PrintableAddressChars(s: string)
    requires forall k | 0 <= k < |s| :: '!' <= s[k] <= '~' && s[k] != '@'
    ensures AllAddressChars(s)
  {
  }

  /** The three malformed addresses the component tests reject. */
  lemma RejectsTestAddresses()
    ensures !IsValidEmail("invalid-email")
    ensures !IsValidEmail("test@")
    ensures !IsValidEmail("@example.com")
  {
    assert '@' !in "invalid-email";
    var s := "test@";
    assert s[..4] == "test";
    IndexOfFirst(s, '@', 4);
    assert s[5..] == [];
    IndexOfFirst("@example.com", '@', 0);
  }
}
