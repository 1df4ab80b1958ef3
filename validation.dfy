/** The two input patterns of registration and password change, read with the
    semantics `java.util.regex` gives them under `Matcher.matches()` (default
    flags: `.` stops at line terminators, `\s` is ASCII white space, `$` may
    match before a final line terminator, and the match must span the input). */
module Validation {
  import opened Common
  import opened JavaText

  /** Where Java's `$` (no MULTILINE) can match: at the end of the input, or just
      before a line terminator (or a final "\r\n") that ends it, but never
      between the two characters of a final "\r\n". */
  predicate EndAnchor(s: string, k: int)
  {
    || k == |s|
    || (k == |s| - 1 && 0 <= k && IsLineTerminator(s[k]) && !(0 < k && s[k - 1] == '\r' && s[k] == '\n'))
    || (k == |s| - 2 && 0 <= k && s[k] == '\r' && s[k + 1] == '\n')
  }

  /** The classes the password lookaheads ask for. */
  datatype CharClass = Digit | Lower | Upper | Symbol

  predicate InClass(c: char, cls: CharClass)
  {
    match cls
    case Digit => '0' <= c <= '9'
    case Lower => 'a' <= c <= 'z'
    case Upper => 'A' <= c <= 'Z'
    case Symbol => c in "@#$%^&+="
  }

  /** The lookahead `(?=.*[cls])` at the start: some character of the class
      occurs with no line terminator before it. */
  predicate DotStarFinds(s: string, cls: CharClass)
  {
    exists i | 0 <= i < |s| :: InClass(s[i], cls) && forall j | 0 <= j < i :: !IsLineTerminator(s[j])
  }

  /** The lookahead `(?=\S+$)` at the start: a non-empty run of non-space
      characters reaches a place where `$` matches. */
  predicate NonSpaceToEnd(s: string)
  {
    exists k | 1 <= k <= |s| :: (forall j | 0 <= j < k :: !IsRegexSpace(s[j])) && EndAnchor(s, k)
  }

  /** `.{lo,hi}$` under `matches()`: the dots must consume the whole input, since
      a match that stopped before a final terminator would not span it. */
  predicate DotsSpanInput(s: string, lo: nat, hi: nat)
  {
    lo <= |s| <= hi && forall j | 0 <= j < |s| :: !IsLineTerminator(s[j])
  }

  /** `patternMatchesPassword`:
      `^(?=.*[0-9])(?=.*[a-z])(?=.*[A-Z])(?=.*[@#$%^&+=])(?=\S+$).{8,20}$`. */
  predicate PatternMatchesPassword(s: string)
    ensures PatternMatchesPassword(s) ==>
              8 <= |s| <= 20 && Has(s, Digit) && Has(s, Lower) && Has(s, Upper) && Has(s, Symbol)
  {
    && DotStarFinds(s, Digit)
    && DotStarFinds(s, Lower)
    && DotStarFinds(s, Upper)
    && DotStarFinds(s, Symbol)
    && NonSpaceToEnd(s)
    && DotsSpanInput(s, 8, 20)
  }

  predicate Has(s: string, cls: CharClass)
  {
    exists i | 0 <= i < |s| :: InClass(s[i], cls)
  }

  /** The password policy in plain terms: 8 to 20 characters, at least one
      digit, one lower-case and one upper-case ASCII letter and one of
      `@#$%^&+=`, and no white space (`\s`) and no line terminator anywhere. */
  lemma PasswordPolicy(s: string)
    ensures PatternMatchesPassword(s) <==>
              && 8 <= |s| <= 20
              && Has(s, Digit) && Has(s, Lower) && Has(s, Upper) && Has(s, Symbol)
              && forall j | 0 <= j < |s| :: !IsRegexSpace(s[j]) && !IsLineTerminator(s[j])
  {
    if PatternMatchesPassword(s) {
      var k :| 1 <= k <= |s| && (forall j | 0 <= j < k :: !IsRegexSpace(s[j])) && EndAnchor(s, k);
      assert k == |s|;
      forall cls: CharClass ensures Has(s, cls) <== DotStarFinds(s, cls) {
        if DotStarFinds(s, cls) {
          var i :| 0 <= i < |s| && InClass(s[i], cls) && forall j | 0 <= j < i :: !IsLineTerminator(s[j]);
          assert InClass(s[i], cls);
        }
      }
    }
    if && 8 <= |s| <= 20
       && Has(s, Digit) && Has(s, Lower) && Has(s, Upper) && Has(s, Symbol)
       && forall j | 0 <= j < |s| :: !IsRegexSpace(s[j]) && !IsLineTerminator(s[j])
    {
      assert EndAnchor(s, |s|);
      forall cls: CharClass | Has(s, cls) ensures DotStarFinds(s, cls) {
        var i :| 0 <= i < |s| && InClass(s[i], cls);
        assert forall j | 0 <= j < i :: !IsLineTerminator(s[j]);
      }
    }
  }

  /** Too short or too long is rejected whatever characters are used. */
  lemma PasswordLengthBounds(s: string)
    requires |s| < 8 || 20 < |s|
    ensures !PatternMatchesPassword(s)
  {
  }

  /** "weak" is rejected and "Strong@123" accepted. */
  lemma PasswordExamples()
    ensures !PatternMatchesPassword("weak")
    ensures PatternMatchesPassword("Strong@123")
  {
    var p := "Strong@123";
    assert InClass(p[7], Digit) && InClass(p[1], Lower) && InClass(p[0], Upper) && InClass(p[6], Symbol);
    assert forall j | 0 <= j < |p| :: !IsRegexSpace(p[j]) && !IsLineTerminator(p[j]);
    PasswordPolicy(p);
  }

  /** `patternMatchesEmail`: `^(.+)@(\S+)$` under `matches()`. Some `@` has a
      non-empty prefix free of line terminators before it, and a non-empty run
      of non-space characters after it reaching the end of the input. */
  predicate PatternMatchesEmail(s: string)
    ensures PatternMatchesEmail(s) ==> 3 <= |s| && '@' in s[1..|s| - 1] && !IsRegexSpace(s[|s| - 1])
  {
    exists i | 1 <= i < |s| - 1 ::
      && s[i] == '@'
      && (forall j | 0 <= j < i :: !IsLineTerminator(s[j]))
      && (forall j | i < j < |s| :: !IsRegexSpace(s[j]))
  }

  /** An address without `@` is rejected. */
  lemma EmailNeedsAt(s: string)
    requires '@' !in s
    ensures !PatternMatchesEmail(s)
  {
  }

  /** An address whose every `@` is followed, somewhere later, by white space is
      rejected: the part after the `@` must run to the end without `\s`. */
  lemma EmailSpaceAfterAt(s: string)
    requires forall i | 0 <= i < |s| && s[i] == '@' :: exists j | i < j < |s| :: IsRegexSpace(s[j])
    ensures !PatternMatchesEmail(s)
  {
  }

  /** "not-an-email" and "test@ coffee.com" are rejected. */
  lemma EmailRejectsExamples()
    ensures !PatternMatchesEmail("not-an-email")
    ensures !PatternMatchesEmail("test@ coffee.com")
  {
    EmailNeedsAt("not-an-email");
    var bad := "test@ coffee.com";
    forall i | 0 <= i < |bad| && bad[i] == '@' ensures exists j | i < j < |bad| :: IsRegexSpace(bad[j]) {
      assert i == 4;
      assert IsRegexSpace(bad[5]);
    }
    EmailSpaceAfterAt(bad);
  }

  /** "a@b.com" and "Test@Coffee.com" are accepted. */
  lemma EmailAcceptsExamples()
    ensures PatternMatchesEmail("a@b.com")
    ensures PatternMatchesEmail("Test@Coffee.com")
  {
    var ok := "a@b.com";
    assert ok[1] == '@' && !IsLineTerminator(ok[0]);
    assert forall j | 1 < j < |ok| :: !IsRegexSpace(ok[j]);
    var ok2 := "Test@Coffee.com";
    assert ok2[4] == '@';
    assert forall j | 0 <= j < 4 :: !IsLineTerminator(ok2[j]);
    assert forall j | 4 < j < |ok2| :: !IsRegexSpace(ok2[j]);
  }

}
