/** The password-strength validation attribute (class StrongPasswordAttribute). */
module Validator {

  /** The object handed to IsValid: a string, or anything else (null included). */
  datatype Value = Text(s: string) | NonText

  /** The four regular-expression character classes the attribute tests:
      `[A-Z]`, `[a-z]`, `[0-9]` and `[^a-zA-Z0-9]`. */
  datatype CharClass = Upper | Lower | Digit | NonAlphanumeric

  predicate InClass(ch: char, k: CharClass) {
    match k
    case Upper => 'A' <= ch <= 'Z'
    case Lower => 'a' <= ch <= 'z'
    case Digit => '0' <= ch <= '9'
    case NonAlphanumeric => !('a' <= ch <= 'z' || 'A' <= ch <= 'Z' || '0' <= ch <= '9')
  }

  /** Regex.IsMatch(s, "[...]"): some character of `s` is in the class. */
  predicate IsMatch(s: string, k: CharClass) {
    exists i :: 0 <= i < |s| && InClass(s[i], k)
  }

  const MinLength := 8

  /** A value is a strong password when it is a string of at least eight characters
      with an upper-case letter, a lower-case letter, a digit and a special character. */
  predicate IsValid(value: Value) {
    match value
    case NonText => false
    case Text(password) =>
      && |password| >= MinLength
      && IsMatch(password, Upper)
      && IsMatch(password, Lower)
      && IsMatch(password, Digit)
      && IsMatch(password, NonAlphanumeric)
  }

  const ErrorMessage := "The password must be at least 8 characters long and include an uppercase letter, a lowercase letter, a digit, and a special character."

  /** The validation message; the field name is not used. */
  function FormatErrorMessage(name: string): string {
    ErrorMessage
  }

  /** The message is the same whatever the field is called. */
  lemma FormatErrorMessageIgnoresName(a: string, b: string)
    ensures FormatErrorMessage(a) == FormatErrorMessage(b) == ErrorMessage
    ensures |FormatErrorMessage(a)| > 0
  {
  }

  /** How many characters of `s` are in class `k`: an independent reading of the class tests. */
  function Count(s: string, k: CharClass): (n: nat)
    ensures n <= |s|
  {
    if s == [] then 0 else (if InClass(s[0], k) then 1 else 0) + Count(s[1..], k)
  }

  /** A class matches exactly when at least one character is counted in it. */
  lemma {:induction false} IsMatchIffCounted(s: string, k: CharClass)
    ensures IsMatch(s, k) <==> Count(s, k) > 0
  {
    if s != [] {
      IsMatchIffCounted(s[1..], k);
      if IsMatch(s[1..], k) {
        var i :| 0 <= i < |s[1..]| && InClass(s[1..][i], k);
        assert InClass(s[i + 1], k);
      }
      if IsMatch(s, k) && !InClass(s[0], k) {
        var i :| 0 <= i < |s| && InClass(s[i], k);
        assert InClass(s[1..][i - 1], k);
      }
    }
  }

  /** The four classes partition the characters: every character is counted in exactly one. */
  lemma {:induction false} ClassesPartition(s: string)
    ensures Count(s, Upper) + Count(s, Lower) + Count(s, Digit) + Count(s, NonAlphanumeric) == |s|
  {
    if s != [] {
      ClassesPartition(s[1..]);
    }
  }

  /** Validity restated with counts: at least eight characters, at least one of each class. */
  lemma IsValidByCounts(password: string)
    ensures IsValid(Text(password)) <==>
      && |password| >= MinLength
      && Count(password, Upper) >= 1
      && Count(password, Lower) >= 1
      && Count(password, Digit) >= 1
      && Count(password, NonAlphanumeric) >= 1
  {
    IsMatchIffCounted(password, Upper);
    IsMatchIffCounted(password, Lower);
    IsMatchIffCounted(password, Digit);
    IsMatchIffCounted(password, NonAlphanumeric);
  }

  /** Anything that is not a string is rejected. */
  lemma NonTextIsInvalid()
    ensures !IsValid(NonText)
  {
  }

  /** Any password shorter than eight characters is rejected, whatever it contains. */
  lemma ShortIsInvalid(password: string)
    requires |password| < MinLength
    ensures !IsValid(Text(password))
  {
  }

  /** The classes are ASCII-only: a character beyond ASCII is special, never a letter or digit. */
  lemma NonAsciiIsSpecial(ch: char)
    requires ch as int > 0x7F
    ensures InClass(ch, NonAlphanumeric)
    ensures !InClass(ch, Upper) && !InClass(ch, Lower) && !InClass(ch, Digit)
  {
  }

  /** So a Polish letter alone satisfies the special-character test, and an upper-case
      Polish letter does not satisfy the upper-case test. */
  lemma PolishLettersAreSpecial()
    ensures IsValid(Text("Zażółć12"))
    ensures !IsValid(Text("Łódź1234!"))
  {
    var p := "Zażółć12";
    assert InClass(p[0], Upper) && InClass(p[1], Lower) && InClass(p[6], Digit) && InClass(p[2], NonAlphanumeric);
    var q := "Łódź1234!";
    assert forall i :: 0 <= i < |q| ==> !InClass(q[i], Upper);
  }

  /** Appending characters to a strong password keeps it strong. */
  lemma AppendKeepsValid(password: string, suffix: string)
    requires IsValid(Text(password))
    ensures IsValid(Text(password + suffix))
  {
    var s := password + suffix;
    forall k: CharClass ensures IsMatch(s, k) <== IsMatch(password, k) {
      if IsMatch(password, k) {
        var i :| 0 <= i < |password| && InClass(password[i], k);
        assert s[i] == password[i];
      }
    }
  }

  /** The three reference cases: too short, no special character, and strong. */
  lemma Examples()
    ensures !IsValid(Text("abc"))
    ensures !IsValid(Text("Abcdefg1"))
    ensures IsValid(Text("Abcdefg1!"))
  {
    var weak := "Abcdefg1";
    assert forall i :: 0 <= i < |weak| ==> !InClass(weak[i], NonAlphanumeric);
    var strong := "Abcdefg1!";
    assert InClass(strong[0], Upper) && InClass(strong[1], Lower) && InClass(strong[7], Digit);
    assert InClass(strong[8], NonAlphanumeric);
  }
}
