/**
 * The client-side checks of the sign-in page (static/js/login.js):
 * `validateForm`, run on submit, and `validateField`, run when an input
 * loses focus. Lengths are JavaScript's `.length`, in UTF-16 code units.
 */
module LoginValidation {
  import opened Wrappers
  import opened Text
  import opened FormErrors

  /** The fields `validateForm` reports on. */
  datatype LoginField = UsernameOrEmail | Password

  /** Lines 89-93. */
  function UsernameError(username: string): Option<string> {
    if Blank(username) then Some("Username or email is required") else None
  }

  /** Lines 96-103: the password is measured as typed, untrimmed. */
  function PasswordError(password: string): Option<string> {
    if password == [] then Some("Password is required")
    else if Utf16Length(password) < 6 then Some("Password must be at least 6 characters")
    else None
  }

  /** Every message `validateForm` shows, in order. */
  function Report(username: string, password: string): seq<(LoginField, string)> {
    Tagged(UsernameOrEmail, UsernameError(username)) + Tagged(Password, PasswordError(password))
  }

  /**
   * `validateForm()` (lines 77-106): the form goes through exactly when the
   * username is not blank and the password has at least six units.
   */
  method ValidateForm(username: string, password: string) returns (isValid: bool, errors: seq<(LoginField, string)>)
    ensures errors == Report(username, password)
    ensures isValid <==> errors == []
    ensures isValid <==> !Blank(username) && Utf16Length(password) >= 6
    ensures Blank(username) ==> !isValid && errors[0] == (UsernameOrEmail, "Username or email is required")
  {
    isValid := true;
    errors := [];
    errors, isValid := ShowError(errors, isValid, UsernameOrEmail, UsernameError(username));
    errors, isValid := ShowError(errors, isValid, Password, PasswordError(password));
  }

  /**
   * `validateField(field)` (lines 133-154) for an input with this id, this
   * `required` attribute and this raw value: false for a required input that
   * is blank, and for a password of one to five units once trimmed.
   */
  function ValidateField(id: string, required: bool, raw: string): (ok: bool)
    ensures !ok <==>
              var value := Strip(JavaScript, raw);
              (required && value == []) || (id == "password" && 1 <= Utf16Length(value) <= 5)
  {
    var value := Strip(JavaScript, raw);
    if required && value == [] then false
    else if id == "password" && value != [] && Utf16Length(value) < 6 then false
    else true
  }

  /** On a required password without surrounding whitespace, the focus check and the submit check agree. */
  lemma FieldAgreesWithFormOnCleanPassword(password: string)
    requires NoEdgeSpace(JavaScript, password)
    ensures ValidateField("password", true, password) <==> PasswordError(password).None?
  {
    StripNoEdgeSpace(JavaScript, password);
  }

  /**
   * The focus check measures the trimmed value and the submit check the raw
   * one: " abcde" passes on submit but is refused on leaving the field.
   */
  lemma PaddedPasswordDisagrees()
    ensures PasswordError(" abcde").None?
    ensures !ValidateField("password", true, " abcde")
  {
    assert " abcde" == [' '] + "abcde";
    StripLeadingSpace(JavaScript, ' ', "abcde");
    assert "abcde"[..4] == "abcd" && "abcd"[..3] == "abc" && "abc"[..2] == "ab" && "ab"[..1] == "a";
    assert Utf16Length("abcde") == 5;
  }
}
