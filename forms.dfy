/**
 * What the two browser-side form validators share: which text counts as
 * blank, and `showError`, which puts a message on a field and marks the
 * form invalid. A report is the list of (field, message) pairs in the order
 * the messages were shown.
 */
module FormErrors {
  import opened Wrappers
  import opened Text

  /** Blank in JavaScript's sense: `!value.trim()`. */
  predicate Blank(s: string) {
    Strip(JavaScript, s) == []
  }

  /** A field's entry in a report: its message, if its check found one. */
  function Tagged<F>(field: F, error: Option<string>): (part: seq<(F, string)>)
    ensures part == [] <==> error.None?
    ensures part != [] ==> part == [(field, error.value)]
  {
    if error.Some? then [(field, error.value)] else []
  }

  /**
   * `showError(input, message)` after a check that found `error`: the
   * message joins the report and the form is no longer valid; a check that
   * found nothing changes neither.
   */
  method ShowError<F>(errors: seq<(F, string)>, isValid: bool, field: F, error: Option<string>)
    returns (errors': seq<(F, string)>, isValid': bool)
    ensures errors' == errors + Tagged(field, error)
    ensures isValid' == (isValid && error.None?)
  {
    errors', isValid' := errors, isValid;
    if error.Some? {
      errors' := errors + [(field, error.value)];
      isValid' := false;
    }
  }
}
