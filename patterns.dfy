/**
 * The six compiled patterns of the detector, as predicates on ASCII strings.
 * Every pattern is used through `re.search`, whose result is truthy exactly
 * when some substring matches (Python's backtracking engine explores every
 * way of matching these patterns), so each predicate says "there are a start
 * index and split points at which the pattern's parts fit".  A word boundary
 * `\b` at position p holds when exactly one of s[p-1], s[p] is a word
 * character, a position outside the string counting as a non-word side.
 */
module Patterns {
  import opened PyStr

  predicate IsDigit(c: char) { '0' <= c <= '9' }

  predicate IsLetter(c: char) { 'A' <= c <= 'Z' || 'a' <= c <= 'z' }

  /** `\w` for ASCII text. */
  predicate IsWordChar(c: char) { IsLetter(c) || IsDigit(c) || c == '_' }

  /** The character classes the patterns use. */
  datatype CharClass =
    | Digit        // \d
    | Letter       // [a-zA-Z]
    | UpiUser      // [\w\.\-]
    | EmailLocal   // [A-Za-z0-9._%+-]
    | EmailDomain  // [A-Za-z0-9.-]
    | EmailTld     // [A-Z|a-z], whose '|' is a literal bar

  predicate InClass(c: char, k: CharClass)
  {
    match k
    case Digit => IsDigit(c)
    case Letter => IsLetter(c)
    case UpiUser => IsWordChar(c) || c == '.' || c == '-'
    case EmailLocal => IsLetter(c) || IsDigit(c) || c == '.' || c == '_' || c == '%' || c == '+' || c == '-'
    case EmailDomain => IsLetter(c) || IsDigit(c) || c == '.' || c == '-'
    case EmailTld => IsLetter(c) || c == '|'
  }

  /** Every character of s[lo..hi] is in class k. */
  predicate Span(s: string, lo: nat, hi: nat, k: CharClass)
    requires lo <= hi <= |s|
  {
    forall q :: lo <= q < hi ==> InClass(s[q], k)
  }

  /** `\b` at position p of s. */
  predicate IsBoundary(s: string, p: nat)
    requires p <= |s|
  {
    (0 < p && IsWordChar(s[p - 1])) != (p < |s| && IsWordChar(s[p]))
  }

  // ---------------------------------------------------------------- phone

  /** `\b[6-9]\d{9}\b` matches at index i. */
  predicate PhoneAt(s: string, i: nat)
  {
    i + 10 <= |s| && IsBoundary(s, i) && '6' <= s[i] <= '9'
    && Span(s, i + 1, i + 10, Digit) && IsBoundary(s, i + 10)
  }

  predicate PhoneMatch(s: string)
  {
    exists i: nat | i <= |s| :: PhoneAt(s, i)
  }

  // --------------------------------------------------------------- aadhar

  /** `\s?` consumes g characters at position p (g is 0 or 1). */
  predicate OptSpace(s: string, p: nat, g: nat)
    requires p + g <= |s|
  {
    g == 0 || (g == 1 && IsSpace(s[p]))
  }

  /** `\b\d{4}\s?\d{4}\s?\d{4}\b` matches at index i, the two optional
      whitespace characters taking g1 and g2 positions. */
  predicate AadharAt(s: string, i: nat, g1: nat, g2: nat)
  {
    g1 <= 1 && g2 <= 1 && i + 12 + g1 + g2 <= |s|
    && IsBoundary(s, i)
    && Span(s, i, i + 4, Digit)
    && OptSpace(s, i + 4, g1)
    && Span(s, i + 4 + g1, i + 8 + g1, Digit)
    && OptSpace(s, i + 8 + g1, g2)
    && Span(s, i + 8 + g1 + g2, i + 12 + g1 + g2, Digit)
    && IsBoundary(s, i + 12 + g1 + g2)
  }

  predicate AadharMatch(s: string)
  {
    exists i: nat, g1: nat, g2: nat | i <= |s| && g1 <= 1 && g2 <= 1 :: AadharAt(s, i, g1, g2)
  }

  // ------------------------------------------------------------- passport

  /** `[A-PR-WYa-pr-wy]`: a letter other than Q, X and Z, in either case. */
  predicate IsPassportLetter(c: char)
  {
    ('A' <= c <= 'P' || 'R' <= c <= 'W' || c == 'Y')
    || ('a' <= c <= 'p' || 'r' <= c <= 'w' || c == 'y')
  }

  /** `\b[A-PR-WYa-pr-wy][1-9]\d{6}\b` matches at index i. */
  predicate PassportAt(s: string, i: nat)
  {
    i + 8 <= |s| && IsBoundary(s, i) && IsPassportLetter(s[i])
    && '1' <= s[i + 1] <= '9' && Span(s, i + 2, i + 8, Digit)
    && IsBoundary(s, i + 8)
  }

  predicate PassportMatch(s: string)
  {
    exists i: nat | i <= |s| :: PassportAt(s, i)
  }

  // ------------------------------------------------------------------ upi

  /** `\b[\w\.\-]{2,}@[a-zA-Z]{2,}\b` matches s[i..k] with the '@' at j. */
  predicate UpiAt(s: string, i: nat, j: nat, k: nat)
  {
    i + 2 <= j && j + 3 <= k <= |s| && s[j] == '@'
    && IsBoundary(s, i) && Span(s, i, j, UpiUser)
    && Span(s, j + 1, k, Letter) && IsBoundary(s, k)
  }

  predicate UpiMatch(s: string)
  {
    exists i: nat, j: nat, k: nat | i <= j <= k <= |s| :: UpiAt(s, i, j, k)
  }

  // ---------------------------------------------------------------- email

  /** `\b[A-Za-z0-9._%+-]+@[A-Za-z0-9.-]+\.[A-Z|a-z]{2,}\b` matches s[i..l]
      with the '@' at j and the dot before the final label at k. */
  predicate EmailAt(s: string, i: nat, j: nat, k: nat, l: nat)
  {
    i < j && j + 1 < k && k + 3 <= l <= |s| && s[j] == '@' && s[k] == '.'
    && IsBoundary(s, i) && Span(s, i, j, EmailLocal)
    && Span(s, j + 1, k, EmailDomain) && Span(s, k + 1, l, EmailTld)
    && IsBoundary(s, l)
  }

  predicate EmailMatch(s: string)
  {
    exists i: nat, j: nat, k: nat, l: nat | i <= j <= k <= l <= |s| :: EmailAt(s, i, j, k, l)
  }

  // ------------------------------------------------------------------- ip

  /** `\b(?:\d{1,3}\.){3}\d{1,3}\b` matches at index i with groups of a, b,
      c and d digits. */
  predicate IpAt(s: string, i: nat, a: nat, b: nat, c: nat, d: nat)
  {
    1 <= a <= 3 && 1 <= b <= 3 && 1 <= c <= 3 && 1 <= d <= 3
    && i + a + b + c + d + 3 <= |s|
    && IsBoundary(s, i)
    && Span(s, i, i + a, Digit) && s[i + a] == '.'
    && Span(s, i + a + 1, i + a + 1 + b, Digit) && s[i + a + 1 + b] == '.'
    && Span(s, i + a + b + 2, i + a + b + 2 + c, Digit) && s[i + a + b + 2 + c] == '.'
    && Span(s, i + a + b + c + 3, i + a + b + c + d + 3, Digit)
    && IsBoundary(s, i + a + b + c + d + 3)
  }

  predicate IpMatch(s: string)
  {
    exists i: nat, a: nat, b: nat, c: nat, d: nat
      | i <= |s| && a <= 3 && b <= 3 && c <= 3 && d <= 3 :: IpAt(s, i, a, b, c, d)
  }

  // ------------------------------------------------------------ properties

  /** A phone match is a whole token: the ten digits are not part of a
      longer run of word characters on either side. */
  lemma PhoneMatchIsWholeToken(s: string, i: nat)
    requires PhoneAt(s, i)
    ensures i == 0 || !IsWordChar(s[i - 1])
    ensures i + 10 == |s| || !IsWordChar(s[i + 10])
  {
  }

  /** On a string of exactly ten characters, `search` succeeds iff the string
      is a digit 6-9 followed by nine digits. */
  lemma PhoneMatchTenChars(s: string)
    requires |s| == 10
    ensures PhoneMatch(s) <==> '6' <= s[0] <= '9' && Span(s, 1, 10, Digit)
  {
    if '6' <= s[0] <= '9' && Span(s, 1, 10, Digit) {
      assert PhoneAt(s, 0);
    }
  }

  /** A passport match needs at least eight characters. */
  lemma PassportMatchLength(s: string)
    requires PassportMatch(s)
    ensures |s| >= 8
  {
  }

  /** A upi_id match contains an '@'. */
  lemma UpiMatchHasAt(s: string)
    requires UpiMatch(s)
    ensures '@' in s
  {
    var i: nat, j: nat, k: nat :| i <= j <= k <= |s| && UpiAt(s, i, j, k);
    assert s[j] == '@';
  }

  /** An email match contains an '@'. */
  lemma EmailMatchHasAt(s: string)
    requires EmailMatch(s)
    ensures '@' in s
  {
    var i: nat, j: nat, k: nat, l: nat :| i <= j <= k <= l <= |s| && EmailAt(s, i, j, k, l);
    assert s[j] == '@';
  }

  /** An eleven-digit run holds no phone number: every candidate start lacks
      a boundary on one side. */
  lemma NoPhoneInElevenDigits(s: string)
    requires |s| == 11 && Span(s, 0, 11, Digit)
    ensures !PhoneMatch(s)
  {
    forall i: nat | i <= |s| ensures !PhoneAt(s, i) {
      if 1 <= i <= |s| - 1 {
        assert IsWordChar(s[i - 1]) && IsWordChar(s[i]);
      } else if i == 0 {
        assert IsWordChar(s[9]) && IsWordChar(s[10]);
      }
    }
  }

  lemma PhoneExample()
    ensures PhoneMatch("9876543210")
  {
    assert PhoneAt("9876543210", 0);
  }

  lemma AadharExamples()
    ensures AadharMatch("1234 5678 9012")
    ensures AadharMatch("123456789012")
  {
    assert AadharAt("1234 5678 9012", 0, 1, 1);
    assert AadharAt("123456789012", 0, 0, 0);
  }

  lemma PassportExample()
    ensures PassportMatch("P1234567")
  {
    assert PassportAt("P1234567", 0);
  }

  lemma UpiExample()
    ensures UpiMatch("user@upi")
  {
    assert UpiAt("user@upi", 0, 4, 8);
  }

  lemma EmailExample()
    ensures EmailMatch("jane@x.com")
  {
    assert EmailAt("jane@x.com", 0, 4, 6, 10);
  }

  lemma IpExample()
    ensures IpMatch("192.168.1.10")
  {
    assert IpAt("192.168.1.10", 0, 3, 3, 1, 2);
  }
}
