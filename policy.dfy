/** The field rules of the registration request (`UserCreate` in
    app/modules/user/routes.py): the username shape and the password strength
    validator. Email syntax is library-defined and enters as a predicate
    parameter `isEmail`. */
module UserPolicy {
  import opened Wrappers

  const MinUsernameLength := 3
  const MaxUsernameLength := 50
  const MinPasswordLength := 8

  // Character classes, restricted to ASCII.
  predicate IsDigit(c: char) { '0' <= c <= '9' }
  predicate IsLetter(c: char) { 'a' <= c <= 'z' || 'A' <= c <= 'Z' }
  predicate IsUsernameChar(c: char) { IsLetter(c) || IsDigit(c) || c == '_' }

  /** `any(p(c) for c in s)`: scans left to right and stops at the first hit. */
  function Any(s: string, p: char -> bool): (r: bool)
    ensures r <==> exists i :: 0 <= i < |s| && p(s[i])
  {
    if s == [] then false
    else if p(s[0]) then true
    else
      var rest := Any(s[1..], p);
      assert forall i :: 1 <= i < |s| ==> s[i] == s[1..][i - 1];
      rest
  }

  predicate AllUsernameChars(s: string) {
    forall i :: 0 <= i < |s| ==> IsUsernameChar(s[i])
  }

  /** The username rule as intended: 3 to 50 characters, all of them from
      `[A-Za-z0-9_]`. This is the rule the rest of the model applies. */
  predicate ValidUsername(s: string) {
    MinUsernameLength <= |s| <= MaxUsernameLength && AllUsernameChars(s)
  }

  /** The username rule as written: the length bounds plus Python's
      `re.match("^[a-zA-Z0-9_]+$", s)`. In Python's regular expressions `$`
      matches at the end of the string and also just before a final newline,
      so the run of username characters may be followed by one "\n". */
  predicate UsernameAcceptedAsWritten(s: string) {
    && MinUsernameLength <= |s| <= MaxUsernameLength
    && exists k :: 1 <= k <= |s| && AllUsernameChars(s[..k]) && (k == |s| || (k == |s| - 1 && s[k] == '\n'))
  }

  /** The as-written rule accepts exactly the valid usernames and, besides
      them, a valid-shaped stem of 2 to 49 characters followed by "\n". */
  lemma UsernameAsWrittenCharacterised(s: string)
    ensures UsernameAcceptedAsWritten(s) <==>
      (ValidUsername(s) ||
       (MinUsernameLength <= |s| <= MaxUsernameLength && s[|s| - 1] == '\n' && AllUsernameChars(s[..|s| - 1])))
  {
    if ValidUsername(s) {
      assert s[..|s|] == s;
      assert AllUsernameChars(s[..|s|]);
    }
    if MinUsernameLength <= |s| <= MaxUsernameLength && s[|s| - 1] == '\n' && AllUsernameChars(s[..|s| - 1]) {
      assert 1 <= |s| - 1;
    }
    if UsernameAcceptedAsWritten(s) {
      var k :| 1 <= k <= |s| && AllUsernameChars(s[..k]) && (k == |s| || (k == |s| - 1 && s[k] == '\n'));
      if k == |s| {
        assert s[..k] == s;
      }
    }
  }

  /** The discrepancy on a concrete input: "abc\n" passes the as-written rule
      but is not a valid username. */
  lemma TrailingNewlineUsernameAccepted()
    ensures UsernameAcceptedAsWritten("abc\n") && !ValidUsername("abc\n")
  {
    var s := "abc\n";
    assert AllUsernameChars(s[..3]) by {
      assert s[..3] == "abc";
    }
    assert !IsUsernameChar(s[3]);
  }

  /** The intended rule admits no newline anywhere in a username, and every
      username it admits passes the as-written rule too. */
  lemma ValidUsernameHasNoNewline(s: string)
    requires ValidUsername(s)
    ensures forall i :: 0 <= i < |s| ==> s[i] != '\n'
    ensures UsernameAcceptedAsWritten(s)
  {
    assert s[..|s|] == s;
  }

  /** Usernames of the test suite and of a sample session, accepted or
      refused by the intended rule. */
  lemma UsernameExamples()
    ensures ValidUsername("alice") && ValidUsername("testuser") && ValidUsername("newuser")
    ensures ValidUsername("anotheruser") && ValidUsername("weakpassworduser")
    ensures ValidUsername("weakpassworduser2") && ValidUsername("weakpassworduser3")
    ensures !ValidUsername("ab") && !ValidUsername("bad name")
  {
    UsernameCharsOf("alice");
    UsernameCharsOf("testuser");
    UsernameCharsOf("newuser");
    UsernameCharsOf("anotheruser");
    UsernameCharsOf("weakpassworduser");
    UsernameCharsOf("weakpassworduser2");
    UsernameCharsOf("weakpassworduser3");
    assert !IsUsernameChar("bad name"[3]);
  }

  /** A string of lower-case letters and digits has only username characters. */
  lemma UsernameCharsOf(s: string)
    requires forall i :: 0 <= i < |s| ==> 'a' <= s[i] <= 'z' || '0' <= s[i] <= '9'
    ensures AllUsernameChars(s)
  {
  }

  /** Why a password is rejected, in the order the validator checks. */
  datatype PasswordError = TooShort | NoDigit | NoLetter

  /** The password-strength rule: at least 8 characters, a digit and a letter. */
  ghost predicate StrongPassword(p: string) {
    && |p| >= MinPasswordLength
    && (exists i :: 0 <= i < |p| && IsDigit(p[i]))
    && (exists i :: 0 <= i < |p| && IsLetter(p[i]))
  }

  /** `validate_password`: the first failing check decides the error. */
  function PasswordCheck(p: string): (r: Option<PasswordError>)
    ensures r == None <==> StrongPassword(p)
    ensures r == Some(TooShort) <==> |p| < MinPasswordLength
    ensures r == Some(NoDigit) <==> |p| >= MinPasswordLength && forall i :: 0 <= i < |p| ==> !IsDigit(p[i])
    ensures r == Some(NoLetter) <==>
      && |p| >= MinPasswordLength
      && (exists i :: 0 <= i < |p| && IsDigit(p[i]))
      && (forall i :: 0 <= i < |p| ==> !IsLetter(p[i]))
  {
    if |p| < MinPasswordLength then Some(TooShort)
    else if !Any(p, IsDigit) then Some(NoDigit)
    else if !Any(p, IsLetter) then Some(NoLetter)
    else None
  }

  /** The message of the `ValueError` each check raises. */
  function PasswordMessage(e: PasswordError): string {
    match e
    case TooShort => "Password must be at least 8 characters long"
    case NoDigit => "Password must contain at least one digit"
    case NoLetter => "Password must contain at least one letter"
  }

  /** The validator itself: a strong password is returned unchanged, and a
      weak one raises the message of the first check it fails. */
  function ValidatePassword(p: string): (r: Result<string, string>)
    ensures r == Success(p) <==> StrongPassword(p)
    ensures r == Failure("Password must be at least 8 characters long") <==> |p| < MinPasswordLength
    ensures r == Failure("Password must contain at least one digit") <==>
      |p| >= MinPasswordLength && forall i :: 0 <= i < |p| ==> !IsDigit(p[i])
    ensures r == Failure("Password must contain at least one letter") <==>
      && |p| >= MinPasswordLength
      && (exists i :: 0 <= i < |p| && IsDigit(p[i]))
      && (forall i :: 0 <= i < |p| ==> !IsLetter(p[i]))
  {
    match PasswordCheck(p)
    case None => Success(p)
    case Some(e) => Failure(PasswordMessage(e))
  }

  /** Passwords the test suite tries, with the check that rejects each. */
  lemma PasswordExamples()
    ensures PasswordCheck("12345678") == Some(NoLetter)
    ensures PasswordCheck("abcdefgh") == Some(NoDigit)
    ensures PasswordCheck("abc123") == Some(TooShort)
    ensures PasswordCheck("testpassword123") == None
    ensures PasswordCheck("Testpass1") == None
  {
    DigitsOnlyExample();
    LettersOnlyExample();
    Accepted("testpassword123", 12, 0);
    Accepted("Testpass1", 8, 0);
  }

  lemma DigitsOnlyExample()
    ensures PasswordCheck("12345678") == Some(NoLetter)
  {
    DigitsOnlyRejected("12345678");
  }

  lemma LettersOnlyExample()
    ensures PasswordCheck("abcdefgh") == Some(NoDigit)
  {
    LettersOnlyRejected("abcdefgh");
  }

  /** A long enough password of digits only has a digit but no letter. */
  lemma DigitsOnlyRejected(p: string)
    requires |p| >= MinPasswordLength
    requires forall i :: 0 <= i < |p| ==> IsDigit(p[i])
    ensures PasswordCheck(p) == Some(NoLetter)
  {
    assert IsDigit(p[0]);
  }

  /** A long enough password of letters only is refused for lack of a digit. */
  lemma LettersOnlyRejected(p: string)
    requires |p| >= MinPasswordLength
    requires forall i :: 0 <= i < |p| ==> IsLetter(p[i])
    ensures PasswordCheck(p) == Some(NoDigit)
  {
  }

  lemma Accepted(p: string, digit: nat, letter: nat)
    requires |p| >= MinPasswordLength && digit < |p| && letter < |p|
    requires IsDigit(p[digit]) && IsLetter(p[letter])
    ensures PasswordCheck(p) == None
  {
  }

  /** One field of the request that failed validation. */
  datatype FieldError = BadUsername | BadEmail | BadPassword(reason: PasswordError)

  /** Position of a field in the request model; errors are reported in this order. */
  function FieldRank(e: FieldError): nat {
    match e
    case BadUsername => 0
    case BadEmail => 1
    case BadPassword(_) => 2
  }

  /** Validation of a `UserCreate` body: every field is checked and every
      failing field is reported, in declaration order. */
  function ValidationErrors(username: string, email: string, password: string, isEmail: string -> bool): (errs: seq<FieldError>)
    ensures errs == [] <==> ValidUsername(username) && isEmail(email) && StrongPassword(password)
    ensures BadUsername in errs <==> !ValidUsername(username)
    ensures BadEmail in errs <==> !isEmail(email)
    ensures (exists i :: 0 <= i < |errs| && errs[i].BadPassword?) <==> !StrongPassword(password)
    ensures forall i :: 0 <= i < |errs| && errs[i].BadPassword? ==> PasswordCheck(password) == Some(errs[i].reason)
    ensures forall i, j :: 0 <= i < j < |errs| ==> FieldRank(errs[i]) < FieldRank(errs[j])
  {
    var u := if ValidUsername(username) then [] else [BadUsername];
    var e := if isEmail(email) then [] else [BadEmail];
    var p := match PasswordCheck(password) case None => [] case Some(reason) => [BadPassword(reason)];
    assert forall i :: 0 <= i < |u + e| ==> !(u + e)[i].BadPassword?;
    assert p != [] ==> (u + e + p)[|u + e|] == p[0];
    u + e + p
  }
}
