/**
  The static rule catalog of the form validator: each entry pairs a pattern
  with the message shown when a value does not match it.

  The patterns are JavaScript regular expressions without the `u`, `s` and `m`
  flags, so:
  - `.` matches one UTF-16 code unit that is not a line terminator
    (LF, CR, U+2028, U+2029), and a character above U+FFFF is two code units;
  - `^` and `$` anchor at the ends of the whole string;
  - a lookahead such as `(?=.*[a-z])` with no anchor succeeds when it succeeds
    at any position of the string.
 */
module Checks {

  predicate IsLineTerminator(c: char) {
    c == '\n' || c == '\r' || c == '\U{2028}' || c == '\U{2029}'
  }

  /** True when `.` matches every character of `s`. */
  predicate SingleLine(s: string) {
    forall i :: 0 <= i < |s| ==> !IsLineTerminator(s[i])
  }

  /** Length of a JavaScript string: the number of UTF-16 code units. */
  function Utf16Length(s: string): nat {
    if s == [] then 0 else (if s[0] as int >= 0x1_0000 then 2 else 1) + Utf16Length(s[1..])
  }

  predicate IsLatinLetter(c: char) {
    ('a' <= c <= 'z') || ('A' <= c <= 'Z')
  }

  /** `а-яА-ЯёЁ`: the basic Russian alphabet. */
  predicate IsCyrillicLetter(c: char) {
    ('\U{0430}' <= c <= '\U{044F}') || ('\U{0410}' <= c <= '\U{042F}') || c == '\U{0451}' || c == '\U{0401}'
  }

  predicate IsDigit(c: char) {
    '0' <= c <= '9'
  }

  /** The class `[a-zA-Zа-яА-ЯёЁ-]`. */
  predicate IsAlphabeticChar(c: char) {
    IsLatinLetter(c) || IsCyrillicLetter(c) || c == '-'
  }

  /** The class `[a-zA-Zа-яА-ЯёЁ0-9_-]`. */
  predicate IsAlphanumericChar(c: char) {
    IsAlphabeticChar(c) || IsDigit(c) || c == '_'
  }

  /** Some character of `s` lies in the range `lo-hi`. */
  predicate ContainsIn(s: string, lo: char, hi: char) {
    exists i :: 0 <= i < |s| && lo <= s[i] <= hi
  }

  /** The lookahead `(?=.{n,})`: at some position, `n` code units without a line terminator follow. */
  predicate HasLineOfAtLeast(s: string, n: nat) {
    exists i, j | 0 <= i <= j <= |s| :: SingleLine(s[i..j]) && Utf16Length(s[i..j]) >= n
  }

  /**
    A rule's pattern. The catalog's patterns are spelled out; EMAIL, PHONE and
    any other regular expression a caller supplies are opaque string tests.
   */
  datatype Pattern =
    | MinLength       // /^.{3,}$/
    | MaxLength       // /^.{0,25}$/
    | Alphabetic      // /^[a-zA-Zа-яА-ЯёЁ-]*$/
    | Alphanumeric    // /^[a-zA-Zа-яА-ЯёЁ0-9_-]*$/
    | Required        // /^.{1,}$/
    | LowerCase       // /(?=.*[a-z])/
    | UpperCase       // /(?=.*[A-Z])/
    | Numeric         // /(?=.*[0-9])/
    | MinLength8      // /(?=.{8,})/
    | Opaque(test: string -> bool)

  /** A catalog entry: the pattern `exp` and the message `err`. */
  datatype Rule = Rule(exp: Pattern, err: string)

  /**
    `regExp.test(value)`. A value the two character classes accept has no line
    terminator and, for ALPHABETIC, no digit or underscore; every pattern that
    demands a character rejects the empty string.
   */
  predicate Matches(p: Pattern, s: string): (b: bool)
    ensures b && (p.Alphabetic? || p.Alphanumeric?) ==> SingleLine(s)
    ensures b && p.Alphabetic? ==> forall i :: 0 <= i < |s| ==> !IsDigit(s[i]) && s[i] != '_'
    ensures b && (p.MinLength? || p.Required? || p.LowerCase? || p.UpperCase? || p.Numeric? || p.MinLength8?) ==> s != []
  {
    match p
    case MinLength => SingleLine(s) && Utf16Length(s) >= 3
    case MaxLength => SingleLine(s) && Utf16Length(s) <= 25
    case Alphabetic => forall i :: 0 <= i < |s| ==> IsAlphabeticChar(s[i])
    case Alphanumeric => forall i :: 0 <= i < |s| ==> IsAlphanumericChar(s[i])
    case Required => SingleLine(s) && Utf16Length(s) >= 1
    case LowerCase => ContainsIn(s, 'a', 'z')
    case UpperCase => ContainsIn(s, 'A', 'Z')
    case Numeric => ContainsIn(s, '0', '9')
    case MinLength8 => HasLineOfAtLeast(s, 8)
    case Opaque(test) => test(s)
  }

  const MIN_LENGTH := Rule(MinLength, "Минимальная длина - 3 символа")
  const MAX_LENGTH := Rule(MaxLength, "Максимальная длина - 25 символов")
  const ALPHABETIC := Rule(Alphabetic, "Только буквы")
  const ALPHANUMERIC := Rule(Alphanumeric, "Недопустимые символы")
  const REQUIRED := Rule(Required, "Не может быть пустым")
  const EMAIL_ERR := "Недопустимый формат email"
  const PHONE_ERR := "Недопустимый формат номера"
  const USE_LOWER_CASE := Rule(LowerCase, "Используйте хотя бы одну строчную букву")
  const USE_UPPER_CASE := Rule(UpperCase, "Используйте хотя бы одну заглавную букву")
  const USE_NUMERIC := Rule(Numeric, "Используйте хотя бы одну цифру")
  const MIN_LENGTH_8 := Rule(MinLength8, "Пароль должен быть не короче 8 символов")

  /** The EMAIL entry, its regular expression given as a test. */
  function Email(test: string -> bool): Rule
  {
    Rule(Opaque(test), EMAIL_ERR)
  }

  /** The PHONE entry, its regular expression given as a test. */
  function Phone(test: string -> bool): Rule
  {
    Rule(Opaque(test), PHONE_ERR)
  }

  /** The PASSWORD_STRENGTH sub-catalog, in declaration order. */
  const PASSWORD_STRENGTH := [USE_LOWER_CASE, USE_UPPER_CASE, USE_NUMERIC, MIN_LENGTH_8]

  /** Every message of the catalog is a non-empty string. */
  lemma CatalogMessagesNonEmpty(test: string -> bool)
    ensures forall r :: r in [MIN_LENGTH, MAX_LENGTH, ALPHABETIC, ALPHANUMERIC, REQUIRED, Email(test), Phone(test)] + PASSWORD_STRENGTH ==> r.err != ""
  {
  }

  lemma {:induction false} Utf16LengthBounds(s: string)
    ensures |s| <= Utf16Length(s) <= 2 * |s|
    ensures (forall i :: 0 <= i < |s| ==> s[i] as int < 0x1_0000) ==> Utf16Length(s) == |s|
  {
    if s != [] {
      Utf16LengthBounds(s[1..]);
    }
  }

  lemma {:induction false} Utf16LengthAppend(a: string, b: string)
    ensures Utf16Length(a + b) == Utf16Length(a) + Utf16Length(b)
  {
    if a == [] {
      assert a + b == b;
    } else {
      assert (a + b)[1..] == a[1..] + b;
      Utf16LengthAppend(a[1..], b);
    }
  }

  /** A substring is never longer than the whole string. */
  lemma Utf16LengthSlice(s: string, i: nat, j: nat)
    requires i <= j <= |s|
    ensures Utf16Length(s[i..j]) <= Utf16Length(s)
  {
    assert s == s[..i] + s[i..j] + s[j..];
    Utf16LengthAppend(s[..i] + s[i..j], s[j..]);
    Utf16LengthAppend(s[..i], s[i..j]);
  }

  /** On a string without line terminators, the unanchored `(?=.{n,})` is a plain length test. */
  lemma LineOfAtLeastSingleLine(s: string, n: nat)
    requires SingleLine(s)
    ensures HasLineOfAtLeast(s, n) <==> Utf16Length(s) >= n
  {
    if Utf16Length(s) >= n {
      assert s[0..|s|] == s;
    }
    if HasLineOfAtLeast(s, n) {
      var i, j :| 0 <= i <= j <= |s| && SingleLine(s[i..j]) && Utf16Length(s[i..j]) >= n;
      Utf16LengthSlice(s, i, j);
    }
  }

  /**
    On a single-line string whose characters lie in the Basic Multilingual
    Plane, MIN_LENGTH, MAX_LENGTH and REQUIRED are plain length bounds.
   */
  lemma LengthRules(s: string)
    requires SingleLine(s)
    requires forall i :: 0 <= i < |s| ==> s[i] as int < 0x1_0000
    ensures Matches(MIN_LENGTH.exp, s) <==> |s| >= 3
    ensures Matches(MAX_LENGTH.exp, s) <==> |s| <= 25
    ensures Matches(REQUIRED.exp, s) <==> |s| >= 1
    ensures Matches(MIN_LENGTH_8.exp, s) <==> |s| >= 8
  {
    Utf16LengthBounds(s);
    LineOfAtLeastSingleLine(s, 8);
  }

  /** ALPHABETIC accepts only values ALPHANUMERIC accepts too. */
  lemma AlphabeticWithinAlphanumeric(s: string)
    requires Matches(ALPHABETIC.exp, s)
    ensures Matches(ALPHANUMERIC.exp, s)
  {
  }

  /** Cyrillic letters, `ё` and `-` are letters here; digits, `_` and spaces separate the two classes. */
  lemma CharacterClassExamples()
    ensures Matches(ALPHABETIC.exp, "ёж-Я") && Matches(ALPHABETIC.exp, "")
    ensures !Matches(ALPHABETIC.exp, "ё1") && Matches(ALPHANUMERIC.exp, "ё1_")
    ensures !Matches(ALPHANUMERIC.exp, "a b")
  {
    assert !IsAlphabeticChar("ё1"[1]);
    assert !IsAlphanumericChar("a b"[1]);
  }

  /** A line terminator makes every length rule fail, whatever the length. */
  lemma LineTerminatorFailsLengthRules(s: string, k: nat)
    requires k < |s| && IsLineTerminator(s[k])
    ensures !Matches(MIN_LENGTH.exp, s) && !Matches(MAX_LENGTH.exp, s) && !Matches(REQUIRED.exp, s)
  {
  }

  /**
    The four password sub-rules accept a single-line string exactly when it
    holds a lower-case letter, an upper-case letter and a digit and has at
    least eight code units.
   */
  lemma PasswordStrength(s: string)
    requires SingleLine(s)
    ensures (forall k :: 0 <= k < |PASSWORD_STRENGTH| ==> Matches(PASSWORD_STRENGTH[k].exp, s))
        <==> ContainsIn(s, 'a', 'z') && ContainsIn(s, 'A', 'Z') && ContainsIn(s, '0', '9') && Utf16Length(s) >= 8
  {
    LineOfAtLeastSingleLine(s, 8);
    assert Matches(PASSWORD_STRENGTH[0].exp, s) == ContainsIn(s, 'a', 'z');
    assert Matches(PASSWORD_STRENGTH[1].exp, s) == ContainsIn(s, 'A', 'Z');
    assert Matches(PASSWORD_STRENGTH[2].exp, s) == ContainsIn(s, '0', '9');
    assert Matches(PASSWORD_STRENGTH[3].exp, s) == HasLineOfAtLeast(s, 8);
  }

  /** "abc12345" fails USE_UPPER_CASE and passes the other three sub-rules. */
  lemma PasswordWithoutUpperCase()
    ensures !Matches(USE_UPPER_CASE.exp, "abc12345")
    ensures Matches(USE_LOWER_CASE.exp, "abc12345") && Matches(USE_NUMERIC.exp, "abc12345")
    ensures Matches(MIN_LENGTH_8.exp, "abc12345")
  {
    var s := "abc12345";
    assert 'a' <= s[0] <= 'z';
    assert '0' <= s[3] <= '9';
    assert s[0..8] == s;
    assert SingleLine(s);
  }

  /** "Abc12345" passes all four sub-rules. */
  lemma PasswordAccepted()
    ensures forall k :: 0 <= k < |PASSWORD_STRENGTH| ==> Matches(PASSWORD_STRENGTH[k].exp, "Abc12345")
  {
    var s := "Abc12345";
    assert 'A' <= s[0] <= 'Z';
    assert 'a' <= s[1] <= 'z';
    assert '0' <= s[3] <= '9';
    assert s[0..8] == s;
    assert SingleLine(s);
  }
}
