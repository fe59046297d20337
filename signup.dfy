/**
 * The client-side checks of the registration page
 * (staticfiles/js/signup.js): the password strength meter, the e-mail and
 * phone patterns, and `validateForm`, which reports one message per faulty
 * field and lets the form through only when there is none. Lengths are
 * JavaScript's `.length`, in UTF-16 code units; the regular expressions
 * carry no `u` flag, so their character classes are ASCII.
 */
module SignupValidation {
  import opened Wrappers
  import opened Text
  import opened FormErrors

  /** `/[a-z]/.test(p)`. */
  predicate HasLower(p: string) {
    exists k :: 0 <= k < |p| && IsAsciiLower(p[k])
  }

  /** `/[A-Z]/.test(p)`. */
  predicate HasUpper(p: string) {
    exists k :: 0 <= k < |p| && IsAsciiUpper(p[k])
  }

  /** `/[0-9]/.test(p)`. */
  predicate HasDigit(p: string) {
    exists k :: 0 <= k < |p| && IsDigit(p[k])
  }

  predicate IsAsciiAlnum(c: char) {
    IsAsciiLower(c) || IsAsciiUpper(c) || IsDigit(c)
  }

  /** `/[^a-zA-Z0-9]/.test(p)`. */
  predicate HasOther(p: string) {
    exists k :: 0 <= k < |p| && !IsAsciiAlnum(p[k])
  }

  function Point(b: bool): nat {
    if b then 1 else 0
  }

  /**
   * The strength score (lines 125-132): one point for each of eight or more
   * units, twelve or more units, a lower-case letter, an upper-case letter,
   * a digit, and any other character.
   */
  function Strength(p: string): (n: nat)
    ensures n <= 6
  {
    Point(Utf16Length(p) >= 8) + Point(Utf16Length(p) >= 12)
    + Point(HasLower(p)) + Point(HasUpper(p)) + Point(HasDigit(p)) + Point(HasOther(p))
  }

  /** The meter's three levels, with the class name and text the page shows. */
  datatype StrengthLevel = Weak | Medium | Strong {
    function Name(): string {
      match this
      case Weak => "weak"
      case Medium => "medium"
      case Strong => "strong"
    }

    function Text(): string {
      match this
      case Weak => "Weak password"
      case Medium => "Medium strength"
      case Strong => "Strong password"
    }

    function Rank(): nat {
      match this
      case Weak => 0
      case Medium => 1
      case Strong => 2
    }
  }

  /** The level of a score (lines 134-140). */
  function LevelOf(score: int): (l: StrengthLevel)
    ensures l == Weak <==> score <= 2
    ensures l == Medium <==> 3 <= score <= 4
    ensures l == Strong <==> score >= 5
  {
    if score <= 2 then Weak else if score <= 4 then Medium else Strong
  }

  /** `calculatePasswordStrength(password)` (lines 124-141): the counter raised test by test. */
  method CalculatePasswordStrength(password: string) returns (level: StrengthLevel)
    ensures level == LevelOf(Strength(password))
  {
    var strength := 0;
    var length := Utf16Length(password);
    if length >= 8 { strength := strength + 1; }
    if length >= 12 { strength := strength + 1; }
    if exists k :: 0 <= k < |password| && IsAsciiLower(password[k]) { strength := strength + 1; }
    if exists k :: 0 <= k < |password| && IsAsciiUpper(password[k]) { strength := strength + 1; }
    if exists k :: 0 <= k < |password| && IsDigit(password[k]) { strength := strength + 1; }
    if exists k :: 0 <= k < |password| && !IsAsciiAlnum(password[k]) { strength := strength + 1; }
    if strength <= 2 {
      level := Weak;
    } else if strength <= 4 {
      level := Medium;
    } else {
      level := Strong;
    }
  }

  /** A password of fewer than eight units scores at most 4, so it is never strong. */
  lemma ShortPasswordNeverStrong(p: string)
    requires Utf16Length(p) < 8
    ensures Strength(p) <= 4
    ensures LevelOf(Strength(p)) != Strong
  {
  }

  /** A character found in `p` is still found in `p + q`. */
  lemma FoundInLonger(p: string, q: string)
    ensures HasLower(p) ==> HasLower(p + q)
    ensures HasUpper(p) ==> HasUpper(p + q)
    ensures HasDigit(p) ==> HasDigit(p + q)
    ensures HasOther(p) ==> HasOther(p + q)
  {
    forall k | 0 <= k < |p|
      ensures (p + q)[k] == p[k]
    {
    }
  }

  /** Typing more characters never lowers the score. */
  lemma StrengthMonotone(p: string, q: string)
    ensures Strength(p) <= Strength(p + q)
  {
    Utf16LengthAppend(p, q);
    FoundInLonger(p, q);
  }

  /** ... nor the level the meter shows. */
  lemma LevelMonotone(p: string, q: string)
    ensures LevelOf(Strength(p)).Rank() <= LevelOf(Strength(p + q)).Rank()
  {
    StrengthMonotone(p, q);
  }

  /** Neither whitespace (`\s`) nor '@': the class `[^\s@]`. */
  predicate EmailChar(c: char) {
    c != '@' && !IsSpace(JavaScript, c)
  }

  /**
   * `/^[^\s@]+@[^\s@]+\.[^\s@]+$/` matching with the '@' at index `i` and
   * the '.' at index `j`: each of the three runs is non-empty and every
   * other character is in `[^\s@]`.
   */
  ghost predicate EmailPatternAt(e: string, i: int, j: int) {
    && 0 < i && i + 1 < j && j + 1 < |e|
    && e[i] == '@' && e[j] == '.'
    && forall k :: 0 <= k < |e| && k != i ==> EmailChar(e[k])
  }

  /** The regular expression of line 253 matches `e`. */
  ghost predicate MatchesEmailRegex(e: string) {
    exists i, j :: EmailPatternAt(e, i, j)
  }

  /**
   * `isValidEmail(email)` (lines 252-255), computed: no whitespace, a
   * non-empty part before the first '@', no second '@', and a '.' strictly
   * inside what follows.
   */
  function IsValidEmail(e: string): bool {
    var local := Before(e, '@');
    if local == [] || |local| == |e| then false
    else
      var domain := e[|local| + 1..];
      && (forall k :: 0 <= k < |e| ==> !IsSpace(JavaScript, e[k]))
      && '@' !in domain
      && |domain| >= 3
      && '.' in domain[1..|domain| - 1]
  }

  /** The computed test agrees with the regular expression, both ways. */
  lemma IsValidEmailMatchesRegex(e: string)
    ensures IsValidEmail(e) <==> MatchesEmailRegex(e)
  {
    var local := Before(e, '@');
    var i := |local|;
    assert e[..i] == local;
    if IsValidEmail(e) {
      var domain := e[i + 1..];
      var middle := domain[1..|domain| - 1];
      var m :| 0 <= m < |middle| && middle[m] == '.';
      var j := i + 2 + m;
      assert e[j] == '.';
      forall k | 0 <= k < |e| && k != i
        ensures EmailChar(e[k])
      {
        if k < i {
          assert e[k] == local[k];
        } else {
          assert e[k] == domain[k - i - 1];
        }
      }
      assert EmailPatternAt(e, i, j);
    }
    if MatchesEmailRegex(e) {
      var a, j :| EmailPatternAt(e, a, j);
      assert i == a;
      var domain := e[i + 1..];
      assert '@' !in domain by {
        forall k | 0 <= k < |domain|
          ensures domain[k] != '@'
        {
          assert domain[k] == e[i + 1 + k];
        }
      }
      var middle := domain[1..|domain| - 1];
      assert middle[j - i - 2] == '.';
      assert forall k :: 0 <= k < |e| ==> !IsSpace(JavaScript, e[k]);
    }
  }

  /** Digits, whitespace, '-', '+', '(' and ')': the class `[\d\s\-\+\(\)]`. */
  predicate PhoneChar(c: char) {
    IsDigit(c) || IsSpace(JavaScript, c) || c == '-' || c == '+' || c == '(' || c == ')'
  }

  /** `phone.replace(/\D/g, '')`: the digits, in order. */
  function DigitsOf(s: string): (d: string)
    ensures AllDigits(d) && |d| <= |s|
  {
    if s == [] then []
    else DigitsOf(s[..|s| - 1]) + (if IsDigit(s[|s| - 1]) then [s[|s| - 1]] else [])
  }

  /** `isValidPhone(phone)` (lines 257-260). */
  predicate IsValidPhone(p: string) {
    && p != []
    && (forall k :: 0 <= k < |p| ==> PhoneChar(p[k]))
    && |DigitsOf(p)| >= 10
  }

  lemma {:induction false} DigitsOfAppend(a: string, b: string)
    ensures DigitsOf(a + b) == DigitsOf(a) + DigitsOf(b)
    decreases |b|
  {
    if b == [] {
      assert a + b == a;
    } else {
      var front, c := b[..|b| - 1], b[|b| - 1];
      DigitsOfAppend(a, front);
      assert (a + b)[..|a + b| - 1] == a + front;
      assert (a + b)[|a + b| - 1] == c;
      var kept := if IsDigit(c) then [c] else [];
      assert DigitsOf(a + b) == DigitsOf(a + front) + kept;
      assert DigitsOf(b) == DigitsOf(front) + kept;
    }
  }

  /** Text made only of digits keeps all of them. */
  lemma {:induction false} DigitsOfAllDigits(s: string)
    requires AllDigits(s)
    ensures DigitsOf(s) == s
  {
    if s != [] {
      DigitsOfAllDigits(s[..|s| - 1]);
    }
  }

  /** Ten or more bare digits form a valid phone number; any valid one has at least ten characters. */
  lemma TenDigitsArePhone(p: string)
    ensures AllDigits(p) && |p| >= 10 ==> IsValidPhone(p)
    ensures IsValidPhone(p) ==> |p| >= 10
  {
    if AllDigits(p) {
      DigitsOfAllDigits(p);
    }
  }

  /** Inserting or removing one space, dash, plus or parenthesis never changes validity. */
  lemma PhoneSeparatorIrrelevant(a: string, c: char, b: string)
    requires c == ' ' || c == '-' || c == '+' || c == '(' || c == ')'
    ensures IsValidPhone(a + [c] + b) <==> IsValidPhone(a + b)
  {
    DigitsOfAppend(a + [c], b);
    DigitsOfAppend(a, [c]);
    DigitsOfAppend(a, b);
    assert DigitsOf([c]) == DigitsOf([]) + [];
    var long, short := a + [c] + b, a + b;
    if forall k :: 0 <= k < |short| ==> PhoneChar(short[k]) {
      forall k | 0 <= k < |long|
        ensures PhoneChar(long[k])
      {
        if k < |a| {
          assert long[k] == short[k];
        } else if k > |a| {
          assert long[k] == short[k - 1];
        }
      }
    }
    if forall k :: 0 <= k < |long| ==> PhoneChar(long[k]) {
      forall k | 0 <= k < |short|
        ensures PhoneChar(short[k])
      {
        if k < |a| {
          assert short[k] == long[k];
        } else {
          assert short[k] == long[k + 1];
        }
      }
    }
  }

  /** The registration form's inputs; `role` is the role picked on the page (`selectedRole`). */
  datatype SignupForm = SignupForm(
    username: string,
    email: string,
    password: string,
    confirmPassword: string,
    phone: string,
    companyName: string,
    role: string,
    termsChecked: bool)

  /** The fields `validateForm` reports on. */
  datatype SignupField = Username | Email | Password | ConfirmPassword | Phone | CompanyName | Terms

  /** Lines 175-182. */
  function UsernameError(username: string): Option<string> {
    if Blank(username) then Some("Username is required")
    else if Utf16Length(username) < 3 then Some("Username must be at least 3 characters")
    else None
  }

  /** Lines 185-192. */
  function EmailError(email: string): Option<string> {
    if Blank(email) then Some("Email is required")
    else if !IsValidEmail(email) then Some("Please enter a valid email address")
    else None
  }

  /** Lines 195-202. */
  function PasswordError(password: string): Option<string> {
    if password == [] then Some("Password is required")
    else if Utf16Length(password) < 8 then Some("Password must be at least 8 characters")
    else None
  }

  /** Lines 205-212. */
  function ConfirmError(password: string, confirmPassword: string): Option<string> {
    if confirmPassword == [] then Some("Please confirm your password")
    else if password != confirmPassword then Some("Passwords do not match")
    else None
  }

  /** Lines 215-222. */
  function PhoneError(phone: string): Option<string> {
    if Blank(phone) then Some("Phone number is required")
    else if !IsValidPhone(phone) then Some("Please enter a valid phone number")
    else None
  }

  /** Lines 225-231: only an employer must name a company. */
  function CompanyError(role: string, companyName: string): Option<string> {
    if role == "employer" && Blank(companyName) then Some("Company name is required") else None
  }

  /** Lines 234-239. */
  function TermsError(termsChecked: bool): Option<string> {
    if !termsChecked then Some("You must agree to the terms and conditions") else None
  }

  /** Every message `validateForm` shows, in the order it checks the fields. */
  function Report(f: SignupForm): seq<(SignupField, string)> {
    Tagged(Username, UsernameError(f.username))
    + Tagged(Email, EmailError(f.email))
    + Tagged(Password, PasswordError(f.password))
    + Tagged(ConfirmPassword, ConfirmError(f.password, f.confirmPassword))
    + Tagged(Phone, PhoneError(f.phone))
    + Tagged(CompanyName, CompanyError(f.role, f.companyName))
    + Tagged(Terms, TermsError(f.termsChecked))
  }

  /** The form the page lets through: the seven conditions, stated on their own. */
  ghost predicate Accepted(f: SignupForm) {
    && !Blank(f.username) && Utf16Length(f.username) >= 3
    && MatchesEmailRegex(f.email)
    && Utf16Length(f.password) >= 8
    && f.confirmPassword == f.password
    && IsValidPhone(f.phone)
    && (f.role == "employer" ==> !Blank(f.companyName))
    && f.termsChecked
  }

  /** Whitespace holds no digits. */
  lemma {:induction false} AllSpaceHasNoDigits(s: string)
    requires AllSpace(JavaScript, s)
    ensures DigitsOf(s) == []
  {
    if s != [] {
      AllSpaceHasNoDigits(s[..|s| - 1]);
    }
  }

  /** A valid phone number or e-mail address is never blank, so their "required" tests never fire. */
  lemma ValidIsNotBlank(phone: string, email: string)
    ensures IsValidPhone(phone) ==> !Blank(phone)
    ensures MatchesEmailRegex(email) ==> !Blank(email)
  {
    if IsValidPhone(phone) && AllSpace(JavaScript, phone) {
      AllSpaceHasNoDigits(phone);
    }
    if MatchesEmailRegex(email) {
      var i, j :| EmailPatternAt(email, i, j);
      assert EmailChar(email[0]);
    }
  }

  /** The e-mail and phone checks each pass exactly on a valid value. */
  lemma FieldChecksPass(f: SignupForm)
    ensures EmailError(f.email).None? <==> MatchesEmailRegex(f.email)
    ensures PhoneError(f.phone).None? <==> IsValidPhone(f.phone)
    ensures PasswordError(f.password).None? <==> Utf16Length(f.password) >= 8
  {
    IsValidEmailMatchesRegex(f.email);
    ValidIsNotBlank(f.phone, f.email);
  }

  /** No field has a message exactly when the form is accepted. */
  lemma NoErrorsIffAccepted(f: SignupForm)
    ensures Report(f) == [] <==> Accepted(f)
  {
    FieldChecksPass(f);
    assert Report(f) == [] <==>
             && UsernameError(f.username).None? && EmailError(f.email).None?
             && PasswordError(f.password).None? && ConfirmError(f.password, f.confirmPassword).None?
             && PhoneError(f.phone).None? && CompanyError(f.role, f.companyName).None?
             && TermsError(f.termsChecked).None?;
  }

  /**
   * `validateForm()` (lines 163-242): the fields are checked in turn, and a
   * faulty one adds its message and clears `isValid`.
   */
  method ValidateForm(f: SignupForm) returns (isValid: bool, errors: seq<(SignupField, string)>)
    ensures errors == Report(f)
    ensures isValid <==> errors == []
    ensures isValid <==> Accepted(f)
  {
    isValid := true;
    errors := [];
    errors, isValid := ShowError(errors, isValid, Username, UsernameError(f.username));
    errors, isValid := ShowError(errors, isValid, Email, EmailError(f.email));
    errors, isValid := ShowError(errors, isValid, Password, PasswordError(f.password));
    errors, isValid := ShowError(errors, isValid, ConfirmPassword, ConfirmError(f.password, f.confirmPassword));
    errors, isValid := ShowError(errors, isValid, Phone, PhoneError(f.phone));
    errors, isValid := ShowError(errors, isValid, CompanyName, CompanyError(f.role, f.companyName));
    errors, isValid := ShowError(errors, isValid, Terms, TermsError(f.termsChecked));
    NoErrorsIffAccepted(f);
  }
}
