/** The `java.lang.String` operations the services rely on, with Java's own
    definitions of blank, trimmed and (ASCII) lower case. */
module JavaText {
  import opened Common

  /** `Character.isWhitespace`: the Unicode space, line and paragraph separators
      other than the no-break spaces, plus U+0009..U+000D and U+001C..U+001F. */
  predicate IsJavaWhitespace(c: char)
  {
    || c == ' '
    || ('\t' <= c <= '\r')
    || ('\U{1C}' <= c <= '\U{1F}')
    || c == '\U{1680}'
    || ('\U{2000}' <= c <= '\U{2006}')
    || ('\U{2008}' <= c <= '\U{200A}')
    || c == '\U{2028}' || c == '\U{2029}'
    || c == '\U{205F}' || c == '\U{3000}'
  }

  /** `String.isBlank`: empty, or white space code points only. */
  predicate IsBlank(s: string)
  {
    forall i | 0 <= i < |s| :: IsJavaWhitespace(s[i])
  }

  /** A string is blank exactly when both of its parts are. */
  lemma {:induction false} BlankConcat(s: string, t: string)
    ensures IsBlank(s + t) <==> IsBlank(s) && IsBlank(t)
  {
    forall i | 0 <= i < |s|
      ensures (s + t)[i] == s[i]
    {
    }
    forall i | 0 <= i < |t|
      ensures (s + t)[|s| + i] == t[i]
    {
    }
  }

  /** Where `isBlank` draws the line: the empty string and the ASCII, line and
      ideographic spaces are blank; the three no-break spaces, U+0000 and a
      letter are not. */
  lemma BlankExamples()
    ensures IsBlank("") && IsBlank(" \t\n\U{B}\U{C}\r") && IsBlank("\U{2028}\U{2029}\U{3000}\U{1680}\U{2003}")
    ensures !IsBlank("\U{A0}") && !IsBlank("\U{2007}") && !IsBlank("\U{202F}")
    ensures !IsBlank("\U{0}") && !IsBlank(" a ")
  {
    assert "\U{A0}"[0] == '\U{A0}';
    assert "\U{2007}"[0] == '\U{2007}';
    assert "\U{202F}"[0] == '\U{202F}';
    assert "\U{0}"[0] == '\U{0}';
    assert " a "[1] == 'a';
  }

  /** The character class `\s` of `java.util.regex` without UNICODE_CHARACTER_CLASS:
      `[ \t\n\x0B\f\r]`. */
  predicate IsRegexSpace(c: char)
  {
    c == ' ' || ('\t' <= c <= '\r')
  }

  /** The line terminators of `java.util.regex` without UNIX_LINES: `.` does not
      match them and `$` may match just before a final one. */
  predicate IsLineTerminator(c: char)
  {
    c == '\n' || c == '\r' || c == '\U{85}' || c == '\U{2028}' || c == '\U{2029}'
  }

  /** The characters `String.trim` strips: code points at or below U+0020. */
  predicate IsTrimmable(c: char)
  {
    c <= ' '
  }

  /** How many characters `trim` drops from the front of `s`. */
  function LeadingTrimmable(s: string): (k: nat)
    ensures k <= |s|
    ensures forall i | 0 <= i < k :: IsTrimmable(s[i])
    ensures k < |s| ==> !IsTrimmable(s[k])
  {
    if |s| > 0 && IsTrimmable(s[0]) then 1 + LeadingTrimmable(s[1..]) else 0
  }

  /** How many characters `trim` drops from the back of `s`. */
  function TrailingTrimmable(s: string): (k: nat)
    ensures k <= |s|
    ensures forall i | |s| - k <= i < |s| :: IsTrimmable(s[i])
    ensures k < |s| ==> !IsTrimmable(s[|s| - k - 1])
  {
    if |s| > 0 && IsTrimmable(s[|s| - 1]) then 1 + TrailingTrimmable(s[..|s| - 1]) else 0
  }

  /** `String.trim`: `s` without its leading and trailing characters at or below
      U+0020. The result is the slice of `s` that starts after the trimmable
      prefix and is followed only by trimmable characters; both of its ends are
      kept characters, and it is empty exactly when every character is trimmable. */
  function Trim(s: string): (r: string)
    ensures |r| <= |s|
    ensures r == [] || (!IsTrimmable(r[0]) && !IsTrimmable(r[|r| - 1]))
    ensures r == [] <==> forall i | 0 <= i < |s| :: IsTrimmable(s[i])
    ensures LeadingTrimmable(s) + |r| <= |s|
    ensures r == s[LeadingTrimmable(s)..LeadingTrimmable(s) + |r|]
    ensures forall i | LeadingTrimmable(s) + |r| <= i < |s| :: IsTrimmable(s[i])
  {
    var a := LeadingTrimmable(s);
    if a == |s| then []
    else
      assert !IsTrimmable(s[a]);
      s[a..|s| - TrailingTrimmable(s)]
  }

  /** Trimming twice is trimming once. */
  lemma TrimIdempotent(s: string)
    ensures Trim(Trim(s)) == Trim(s)
  {
    var t := Trim(s);
    if t != [] {
      assert LeadingTrimmable(t) == 0;
      assert TrailingTrimmable(t) == 0;
    }
  }

  /** The lower case of one character, for ASCII letters only. */
  function LowerAscii(c: char): (d: char)
    ensures 'A' <= c <= 'Z' ==> 'a' <= d <= 'z' && d as int == c as int + 32
    ensures !('A' <= c <= 'Z') ==> d == c
  {
    if 'A' <= c <= 'Z' then (c as int + 32) as char else c
  }

  /** `String.toLowerCase`, restricted to ASCII: the upper-case ASCII letters are
      replaced by their lower-case partners and every other character is kept. */
  function ToLowerAscii(s: string): (r: string)
    ensures |r| == |s|
    ensures forall i | 0 <= i < |s| :: r[i] == s[i] || ('A' <= s[i] <= 'Z' && r[i] as int == s[i] as int + 32)
    ensures forall i | 0 <= i < |r| :: !('A' <= r[i] <= 'Z')
  {
    seq(|s|, i requires 0 <= i < |s| => LowerAscii(s[i]))
  }

  /** The normal form the auth service gives an e-mail address: trimmed, then lower case. */
  function NormalizeEmail(s: string): (r: string)
    ensures |r| <= |s|
    ensures r == [] <==> forall i | 0 <= i < |s| :: IsTrimmable(s[i])
    ensures |r| > 0 ==> !IsTrimmable(r[0]) && !IsTrimmable(r[|r| - 1])
    ensures forall i | 0 <= i < |r| :: !('A' <= r[i] <= 'Z')
  {
    ToLowerAscii(Trim(s))
  }

  /** Lower-casing keeps exactly the characters that `trim` would strip. */
  lemma LowerKeepsTrimmable(s: string)
    ensures forall i | 0 <= i < |s| :: IsTrimmable(ToLowerAscii(s)[i]) <==> IsTrimmable(s[i])
  {
  }

  /** A normalised address normalises to itself, so the address stored at
      registration is the one a login with that stored address looks up. */
  lemma NormalizeEmailIdempotent(s: string)
    ensures NormalizeEmail(NormalizeEmail(s)) == NormalizeEmail(s)
  {
    var t := Trim(s);
    var n := ToLowerAscii(t);
    LowerKeepsTrimmable(t);
    if n != [] {
      assert LeadingTrimmable(n) == 0;
      assert TrailingTrimmable(n) == 0;
      assert Trim(n) == n;
    } else {
      assert Trim(n) == [];
    }
    assert ToLowerAscii(n) == n;
  }
}
