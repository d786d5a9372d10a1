/**
 * The input checks of the signup and login handlers: field presence
 * (JavaScript truthiness), the password length rule (`password.length`
 * counts UTF-16 code units) and the email pattern `^[^\s@]+@[^\s@]+\.[^\s@]+$`.
 */
module Validation {
  import opened Wrappers

  /** A field of the parsed JSON request body; None when it is absent or null. */
  type Field = Option<string>

  /** `!field` is false exactly when the field holds a non-empty string (" " and "0" are present). */
  predicate Present(f: Field) {
    f.Some? && f.value != ""
  }

  // ---------------------------------------------------------------------------
  // Password length

  const MinPasswordLength: nat := 6

  /** UTF-16 code units needed for one character: two for a character outside the Basic Multilingual Plane. */
  function CodeUnits(c: char): nat {
    if c as int < 0x1_0000 then 1 else 2
  }

  /** JavaScript's `s.length`: at least one code unit per character, at most two. */
  function Utf16Length(s: string): (n: nat)
    ensures |s| <= n <= 2 * |s|
  {
    if s == [] then 0 else CodeUnits(s[0]) + Utf16Length(s[1..])
  }

  /** A present field is one whose JavaScript `.length` is not zero: the empty string is the only falsy string. */
  lemma PresentIsNonZeroLength(f: Field)
    ensures Present(f) <==> f.Some? && Utf16Length(f.value) > 0
  {
  }

  predicate InBasicPlane(s: string) {
    forall i :: 0 <= i < |s| ==> s[i] as int < 0x1_0000
  }

  /**
   * `password.length < 6`: only passwords under six characters can be
   * rejected, and every password under three characters is.
   */
  predicate PasswordTooShort(password: string)
    ensures PasswordTooShort(password) ==> |password| < 6
    ensures |password| < 3 ==> PasswordTooShort(password)
  {
    Utf16Length(password) < MinPasswordLength
  }

  lemma {:induction false} Utf16LengthBounds(s: string)
    ensures |s| <= Utf16Length(s) <= 2 * |s|
    ensures Utf16Length(s) == |s| <==> InBasicPlane(s)
  {
    if s != [] {
      Utf16LengthBounds(s[1..]);
      if InBasicPlane(s[1..]) && s[0] as int < 0x1_0000 {
        assert InBasicPlane(s) by {
          forall i | 0 <= i < |s| ensures s[i] as int < 0x1_0000 {
            if i > 0 { assert s[i] == s[1..][i - 1]; }
          }
        }
      }
      if InBasicPlane(s) {
        assert InBasicPlane(s[1..]) by {
          forall i | 0 <= i < |s| - 1 ensures s[1..][i] as int < 0x1_0000 {
            assert s[1..][i] == s[i + 1];
          }
        }
      }
    }
  }

  /**
   * For text in the Basic Multilingual Plane the rule is "fewer than six
   * characters": five are rejected, six pass.
   */
  lemma {:induction false} PasswordTooShortInBasicPlane(password: string)
    requires InBasicPlane(password)
    ensures PasswordTooShort(password) <==> |password| < 6
  {
    Utf16LengthBounds(password);
  }

  /**
   * Outside the Basic Multilingual Plane a character counts twice: any
   * password of three or more characters passes when all of them are there.
   */
  lemma {:induction false} PasswordOfAstralCharacters(password: string)
    requires |password| >= 3
    requires forall i :: 0 <= i < |password| ==> password[i] as int >= 0x1_0000
    ensures !PasswordTooShort(password)
  {
    var tail := password[3..];
    Utf16LengthBounds(tail);
    assert password[1..][1..] == password[2..];
    assert password[2..][1..] == tail;
    assert Utf16Length(password[2..]) == 2 + Utf16Length(tail);
    assert Utf16Length(password[1..]) == 2 + Utf16Length(password[2..]);
  }

  // ---------------------------------------------------------------------------
  // Email format

  /**
   * The regular-expression class `\s`: the ECMAScript WhiteSpace characters
   * (tab, vertical tab, form feed, the byte-order mark and every Unicode
   * space separator) and the LineTerminator characters.
   */
  predicate IsRegexSpace(c: char) {
    c == '\t' || c == '\n' || c == '\U{000B}' || c == '\U{000C}' || c == '\r' ||
    c == ' ' || c == '\U{00A0}' || c == '\U{1680}' ||
    ('\U{2000}' <= c <= '\U{200A}') ||
    c == '\U{2028}' || c == '\U{2029}' || c == '\U{202F}' || c == '\U{205F}' ||
    c == '\U{3000}' || c == '\U{FEFF}'
  }

  /** The class `[^\s@]`. */
  predicate IsPartChar(c: char) {
    c != '@' && !IsRegexSpace(c)
  }

  predicate AllPartChars(s: string) {
    forall i :: 0 <= i < |s| ==> IsPartChar(s[i])
  }

  /**
   * The email splits as `local@host.tld` at position `at` (the `@`) and
   * `dot` (the literal `\.`), each of local, host and tld a non-empty run
   * of `[^\s@]`.
   */
  ghost predicate SplitsAt(email: string, at: int, dot: int) {
    0 < at && at + 1 < dot && dot + 1 < |email| &&
    email[at] == '@' && email[dot] == '.' &&
    AllPartChars(email[..at]) && AllPartChars(email[at + 1..dot]) && AllPartChars(email[dot + 1..])
  }

  /** The language of `^[^\s@]+@[^\s@]+\.[^\s@]+$`; its shortest words have five characters, as `a@b.c`. */
  ghost predicate MatchesEmailPattern(email: string)
    ensures MatchesEmailPattern(email) ==> |email| >= 5
  {
    exists at, dot :: SplitsAt(email, at, dot)
  }

  /** Position of the first `@`, if any. */
  function FirstAt(s: string): (r: Option<nat>)
    ensures r.Some? ==> r.value < |s| && s[r.value] == '@' && '@' !in s[..r.value]
    ensures r.None? ==> '@' !in s
  {
    if s == [] then None
    else if s[0] == '@' then Some(0)
    else match FirstAt(s[1..])
      case None => None
      case Some(i) =>
        assert s[..i + 1] == [s[0]] + s[1..][..i];
        Some(i + 1)
  }

  /** A `.` with at least one character on each side. */
  predicate HasInnerDot(domain: string) {
    exists k :: 0 < k < |domain| - 1 && domain[k] == '.'
  }

  /**
   * `emailRegex.test(email)`: one `@`, a non-empty local part and a domain,
   * neither holding `@` or whitespace, and a `.` inside the domain.
   */
  predicate EmailRegexTest(email: string)
    ensures EmailRegexTest(email) ==> '@' in email && |email| >= 5
  {
    match FirstAt(email)
    case None => false
    case Some(at) =>
      var local, domain := email[..at], email[at + 1..];
      local != [] && AllPartChars(local) && AllPartChars(domain) && HasInnerDot(domain)
  }

  lemma AllPartCharsSlice(s: string, i: int, j: int)
    requires 0 <= i <= j <= |s| && AllPartChars(s)
    ensures AllPartChars(s[i..j])
  {
  }

  lemma SliceOfSuffix(s: string, a: int, i: int, j: int)
    requires 0 <= a <= |s| && 0 <= i <= j <= |s| - a
    ensures s[a..][i..j] == s[a + i..a + j]
  {
  }

  /** The test decides exactly the language of the regular expression. */
  lemma {:induction false} EmailRegexTestIsPattern(email: string)
    ensures EmailRegexTest(email) <==> MatchesEmailPattern(email)
  {
    if EmailRegexTest(email) {
      var at := FirstAt(email).value;
      var domain := email[at + 1..];
      var k :| 0 < k < |domain| - 1 && domain[k] == '.';
      var dot := at + 1 + k;
      AllPartCharsSlice(domain, 0, k);
      AllPartCharsSlice(domain, k + 1, |domain|);
      SliceOfSuffix(email, at + 1, 0, k);
      SliceOfSuffix(email, at + 1, k + 1, |domain|);
      assert SplitsAt(email, at, dot);
    }
    if MatchesEmailPattern(email) {
      var at, dot :| SplitsAt(email, at, dot);
      assert '@' !in email[..at] by {
        forall i | 0 <= i < at ensures email[..at][i] != '@' {
          assert IsPartChar(email[..at][i]);
        }
      }
      assert FirstAt(email) == Some(at);
      var domain := email[at + 1..];
      assert AllPartChars(domain) by {
        forall i | 0 <= i < |domain| ensures IsPartChar(domain[i]) {
          if at + 1 + i < dot {
            assert domain[i] == email[at + 1..dot][i];
          } else if at + 1 + i > dot {
            assert domain[i] == email[dot + 1..][at + i - dot];
          }
        }
      }
      assert domain[dot - at - 1] == '.';
    }
  }

  /** An accepted email holds exactly one `@` and no whitespace at all. */
  lemma {:induction false} AcceptedEmailShape(email: string)
    requires MatchesEmailPattern(email)
    ensures multiset(email)['@'] == 1
    ensures forall i :: 0 <= i < |email| ==> !IsRegexSpace(email[i])
  {
    EmailRegexTestIsPattern(email);
    var at := FirstAt(email).value;
    var local, domain := email[..at], email[at + 1..];
    assert email == local + [email[at]] + domain;
    NoAtInPartChars(local);
    NoAtInPartChars(domain);
    assert multiset(local)['@'] == 0 && multiset(domain)['@'] == 0;
    forall i | 0 <= i < |email| ensures !IsRegexSpace(email[i]) {
      if i < at {
        assert email[i] == local[i];
      } else if i > at {
        assert email[i] == domain[i - at - 1];
      }
    }
  }

  lemma NoAtInPartChars(s: string)
    requires AllPartChars(s)
    ensures '@' !in s
  {
  }
}
