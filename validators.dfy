/**
  Sign-up and login input validation (functions/util/validators.js): each
  field that fails a check gets one message in an `errors` object, and the
  input is `valid` when `errors` has no key.
 */
module Validators {
  import opened JsString

  datatype SignupData = SignupData(email: string, password: string, confirmPassword: string, handle: string)

  datatype LoginData = LoginData(email: string, password: string)

  /** `{ errors, valid }`: error messages keyed by field name. */
  datatype Validation = Validation(errors: map<string, string>, valid: bool)

  const MustNotBeEmpty := "Must not be empty"
  const MustBeValidEmail := "Must be a valid email address"
  const MustExceedSix := "Must exceed 6 characters"
  const PasswordsMustMatch := "Passwords must match"

  /** `isEmpty`: the string trims to "", that is, it is all whitespace. */
  function IsEmpty(s: string): (r: bool)
    ensures r <==> forall i | 0 <= i < |s| :: IsWhitespace(s[i])
  {
    TrimEmptyIffBlank(s);
    Trim(s) == ""
  }

  // The email pattern of `isEmail`, written out part by part:
  //   local "@" domain, where local is a dot-atom or a quoted string and domain
  //   is a bracketed dotted quad or a host name ending in a label of two letters or more.

  predicate IsDigit(c: char) { '0' <= c <= '9' }

  predicate IsLetter(c: char) { 'a' <= c <= 'z' || 'A' <= c <= 'Z' }

  /** `[^<>()\[\]\\.,;:\s@"]` */
  predicate IsAtomChar(c: char) {
    !IsWhitespace(c) && c !in "<>()[]\\.,;:@\""
  }

  /** The characters of `p` all satisfy `ok`. */
  predicate AllChars(p: string, ok: char -> bool) {
    forall j | 0 <= j < |p| :: ok(p[j])
  }

  /** `[^...]+(\.[^...]+)*`: non-empty runs of atom characters joined by single dots. */
  predicate IsDotAtom(l: string) {
    var parts := Split(l, '.');
    forall i | 0 <= i < |parts| :: parts[i] != "" && AllChars(parts[i], IsAtomChar)
  }

  /** `".+"`: a quote, at least one character that is not a line terminator, a quote. */
  predicate IsQuotedString(l: string) {
    |l| >= 3 && l[0] == '"' && l[|l| - 1] == '"' && forall i | 1 <= i < |l| - 1 :: !IsLineTerminator(l[i])
  }

  predicate IsLocalPart(l: string) {
    IsDotAtom(l) || IsQuotedString(l)
  }

  /** `\[[0-9]{1,3}\.[0-9]{1,3}\.[0-9]{1,3}\.[0-9]{1,3}\]` */
  predicate IsAddressLiteral(d: string) {
    && |d| >= 2 && d[0] == '[' && d[|d| - 1] == ']'
    && var parts := Split(d[1..|d| - 1], '.');
    && |parts| == 4
    && forall i | 0 <= i < 4 :: 1 <= |parts[i]| <= 3 && AllChars(parts[i], IsDigit)
  }

  predicate IsLabelChar(c: char) { IsLetter(c) || IsDigit(c) || c == '-' }

  /** `([a-zA-Z\-0-9]+\.)+[a-zA-Z]{2,}` */
  predicate IsHostName(d: string) {
    var parts := Split(d, '.');
    && |parts| >= 2
    && (forall i | 0 <= i < |parts| - 1 :: parts[i] != "" && AllChars(parts[i], IsLabelChar))
    && |parts[|parts| - 1]| >= 2
    && AllChars(parts[|parts| - 1], IsLetter)
  }

  predicate IsDomain(d: string) {
    IsAddressLiteral(d) || IsHostName(d)
  }

  /** The position of the last `c` in `s`, or -1. */
  function LastIndexOf(s: string, c: char): (k: int)
    ensures -1 <= k < |s|
    ensures k >= 0 ==> s[k] == c
    ensures forall i | k < i < |s| :: s[i] != c
  {
    if s == [] then -1
    else if s[|s| - 1] == c then |s| - 1
    else LastIndexOf(s[..|s| - 1], c)
  }

  /**
    `isEmail`: the whole string is a local part, "@", and a domain. A domain
    never holds '@' (see `DomainHasNoAtSign`), so the only place to cut is the last '@'.
   */
  predicate IsEmail(s: string): (b: bool)
    ensures b ==> exists k | 0 <= k < |s| :: s[k] == '@' && IsLocalPart(s[..k]) && IsDomain(s[k + 1..])
  {
    var k := LastIndexOf(s, '@');
    if k >= 0 && IsLocalPart(s[..k]) && IsDomain(s[k + 1..]) then
      assert s[k] == '@' && IsLocalPart(s[..k]) && IsDomain(s[k + 1..]);
      true
    else false
  }

  /** A string without '@' is never an email address. */
  lemma NoAtSignNoEmail(s: string)
    requires '@' !in s
    ensures !IsEmail(s)
  {
  }

  /** Every character of a domain is a digit, a letter, '-', '.', '[' or ']'; never '@'. */
  lemma DomainHasNoAtSign(d: string)
    requires IsDomain(d)
    ensures '@' !in d
  {
    if IsAddressLiteral(d) {
      var inner := d[1..|d| - 1];
      JoinSplit(inner, '.');
      var parts := Split(inner, '.');
      forall i | 0 <= i < |parts| ensures '@' !in parts[i] {
        assert AllChars(parts[i], IsDigit);
      }
      JoinHasNoChar(parts, '.', '@');
      assert d == ['['] + inner + [']'];
    } else {
      JoinSplit(d, '.');
      var parts := Split(d, '.');
      forall i | 0 <= i < |parts| ensures '@' !in parts[i] {
        if i < |parts| - 1 {
          assert AllChars(parts[i], IsLabelChar);
        } else {
          assert AllChars(parts[i], IsLetter);
        }
      }
      JoinHasNoChar(parts, '.', '@');
    }
  }

  /** A character in neither the parts nor the separator is not in their join. */
  lemma {:induction false} JoinHasNoChar(parts: seq<string>, sep: char, c: char)
    requires |parts| >= 1 && c != sep
    requires forall i | 0 <= i < |parts| :: c !in parts[i]
    ensures c !in Join(parts, sep)
  {
    if |parts| > 1 {
      JoinHasNoChar(parts[1..], sep, c);
    }
  }

  /**
    The pattern is exactly "local part, '@', domain": the cut at the last '@'
    agrees with a cut at any '@' that makes both sides match.
   */
  lemma EmailAtAnyCut(s: string, k: int)
    requires 0 <= k < |s| && s[k] == '@'
    requires IsLocalPart(s[..k]) && IsDomain(s[k + 1..])
    ensures IsEmail(s)
  {
    DomainHasNoAtSign(s[k + 1..]);
    assert forall i | k < i < |s| :: s[i] == s[k + 1..][i - k - 1];
  }

  /** A non-empty run of letters is a dot-atom. */
  lemma LettersAreDotAtom(name: string)
    requires name != [] && AllChars(name, IsLetter)
    ensures IsDotAtom(name)
  {
    assert forall j | 0 <= j < |name| :: name[j] != '.' && IsAtomChar(name[j]);
    SplitSepFree(name, '.');
  }

  /** `host.tld` with a non-empty letter-only host and a letter-only tld of two or more is a host name. */
  lemma LettersAreHostName(host: string, tld: string)
    requires host != [] && AllChars(host, IsLetter)
    requires |tld| >= 2 && AllChars(tld, IsLetter)
    ensures IsHostName(host + "." + tld)
  {
    assert host + "." + tld == host + ['.'] + tld;
    assert forall j | 0 <= j < |host| :: host[j] != '.';
    assert forall j | 0 <= j < |tld| :: tld[j] != '.';
    SplitSepFree(tld, '.');
    SplitAfterPiece(host, tld, '.');
  }

  /** `name@host.tld`, each part made of letters and the tld at least two long, is accepted. */
  lemma SimpleAddressIsEmail(name: string, host: string, tld: string)
    requires name != [] && AllChars(name, IsLetter)
    requires host != [] && AllChars(host, IsLetter)
    requires |tld| >= 2 && AllChars(tld, IsLetter)
    ensures IsEmail(name + "@" + host + "." + tld)
  {
    var s := name + "@" + host + "." + tld;
    assert s[..|name|] == name && s[|name|] == '@' && s[|name| + 1..] == host + "." + tld;
    LettersAreDotAtom(name);
    LettersAreHostName(host, tld);
    EmailAtAnyCut(s, |name|);
  }

  /**
    `validateSignupData`: one message for email (blank, else malformed), one for
    password (blank, else shorter than 6 UTF-16 code units), one when the two
    passwords differ, one for a blank handle.
   */
  method ValidateSignupData(userData: SignupData) returns (result: Validation)
    ensures "email" in result.errors <==> IsEmpty(userData.email) || !IsEmail(userData.email)
    ensures "email" in result.errors ==>
      result.errors["email"] == if IsEmpty(userData.email) then MustNotBeEmpty else MustBeValidEmail
    ensures "password" in result.errors <==> IsEmpty(userData.password) || Utf16Length(userData.password) < 6
    ensures "password" in result.errors ==>
      result.errors["password"] == if IsEmpty(userData.password) then MustNotBeEmpty else MustExceedSix
    ensures "confirmPassword" in result.errors <==> userData.password != userData.confirmPassword
    ensures "confirmPassword" in result.errors ==> result.errors["confirmPassword"] == PasswordsMustMatch
    ensures "handle" in result.errors <==> IsEmpty(userData.handle)
    ensures "handle" in result.errors ==> result.errors["handle"] == MustNotBeEmpty
    ensures result.errors.Keys <= {"email", "password", "confirmPassword", "handle"}
    ensures result.valid <==> result.errors == map[]
    ensures result.valid <==>
      && !IsEmpty(userData.email) && IsEmail(userData.email)
      && !IsEmpty(userData.password) && Utf16Length(userData.password) >= 6
      && userData.password == userData.confirmPassword
      && !IsEmpty(userData.handle)
  {
    var errors: map<string, string> := map[];
    if IsEmpty(userData.email) {
      errors := errors["email" := MustNotBeEmpty];
    } else if !IsEmail(userData.email) {
      errors := errors["email" := MustBeValidEmail];
    }
    if IsEmpty(userData.password) {
      errors := errors["password" := MustNotBeEmpty];
    } else if Utf16Length(userData.password) < 6 {
      errors := errors["password" := MustExceedSix];
    }
    if userData.password != userData.confirmPassword {
      errors := errors["confirmPassword" := PasswordsMustMatch];
    }
    if IsEmpty(userData.handle) {
      errors := errors["handle" := MustNotBeEmpty];
    }
    result := Validation(errors, |errors| == 0);
  }

  /** `validateLoginData`: only emptiness of email and password is checked. */
  method ValidateLoginData(user: LoginData) returns (result: Validation)
    ensures "email" in result.errors <==> IsEmpty(user.email)
    ensures "password" in result.errors <==> IsEmpty(user.password)
    ensures forall k | k in result.errors :: result.errors[k] == MustNotBeEmpty
    ensures result.errors.Keys <= {"email", "password"}
    ensures result.valid <==> result.errors == map[]
    ensures result.valid <==> !IsEmpty(user.email) && !IsEmpty(user.password)
  {
    var errors: map<string, string> := map[];
    if IsEmpty(user.email) {
      errors := errors["email" := MustNotBeEmpty];
    }
    if IsEmpty(user.password) {
      errors := errors["password" := MustNotBeEmpty];
    }
    result := Validation(errors, |errors| == 0);
  }
}
