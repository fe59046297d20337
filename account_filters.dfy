/**
 * The template filters of accounts/templatetags/account_filters.py:
 * `split` (split a value's text on a delimiter and strip each item) and
 * `trim` (strip a value's text). A template value is one of the Python
 * values below.
 */
module AccountFilters {
  import opened Wrappers
  import opened Text

  /** The Python values a template hands to a filter. */
  datatype PyValue = PyNone | PyBool(b: bool) | PyInt(i: int) | PyStr(s: string) {
    /** Python truthiness. */
    predicate Truthy() {
      match this
      case PyNone => false
      case PyBool(b) => b
      case PyInt(i) => i != 0
      case PyStr(s) => s != []
    }

    /** `str(value)`. */
    function Str(): string {
      match this
      case PyNone => "None"
      case PyBool(b) => if b then "True" else "False"
      case PyInt(i) => IntToString(i)
      case PyStr(s) => s
    }
  }

  /** `str.split` refuses an empty separator with ValueError. */
  datatype FilterError = EmptySeparator

  /** `[item.strip() for item in pieces]`. */
  function StripEach(pieces: seq<string>): (items: seq<string>)
    ensures |items| == |pieces|
    ensures forall k :: 0 <= k < |items| ==> items[k] == Strip(Python, pieces[k])
  {
    seq(|pieces|, k requires 0 <= k < |pieces| => Strip(Python, pieces[k]))
  }

  /** The `split` filter (lines 6-11). */
  function SplitFilter(value: PyValue, delimiter: string): (r: Result<seq<string>, FilterError>)
    ensures !value.Truthy() ==> r == Ok([])
    ensures value.Truthy() ==> (r.Err? <==> delimiter == [])
    ensures value.Truthy() && delimiter != [] ==> r == Ok(StripEach(Split(value.Str(), delimiter)))
  {
    if !value.Truthy() then Ok([])
    else if delimiter == [] then Err(EmptySeparator)
    else Ok(StripEach(Split(value.Str(), delimiter)))
  }

  /** One item per delimiter occurrence, plus one. */
  lemma SplitFilterCount(value: PyValue, delimiter: string)
    requires value.Truthy() && delimiter != []
    ensures |SplitFilter(value, delimiter).value| == Occurrences(value.Str(), delimiter) + 1
  {
    SplitCount(value.Str(), delimiter);
  }

  /** No item starts or ends with whitespace. */
  lemma SplitFilterItemsStripped(value: PyValue, delimiter: string)
    requires SplitFilter(value, delimiter).Ok?
    ensures forall k :: 0 <= k < |SplitFilter(value, delimiter).value| ==>
              NoEdgeSpace(Python, SplitFilter(value, delimiter).value[k])
  {
  }

  /** When no piece has surrounding whitespace, joining the items gives back `str(value)`. */
  lemma SplitFilterJoin(value: PyValue, delimiter: string)
    requires value.Truthy() && delimiter != []
    requires forall k :: 0 <= k < |Split(value.Str(), delimiter)| ==> NoEdgeSpace(Python, Split(value.Str(), delimiter)[k])
    ensures Join(SplitFilter(value, delimiter).value, delimiter) == value.Str()
  {
    var pieces := Split(value.Str(), delimiter);
    forall k | 0 <= k < |pieces|
      ensures StripEach(pieces)[k] == pieces[k]
    {
      StripNoEdgeSpace(Python, pieces[k]);
    }
    assert StripEach(pieces) == pieces;
    JoinSplit(value.Str(), delimiter);
  }

  /** The `trim` filter (lines 14-19): a falsy value comes back as it was. */
  function Trim(value: PyValue): (r: PyValue)
    ensures !value.Truthy() ==> r == value
    ensures value.Truthy() ==> r.PyStr? && NoEdgeSpace(Python, r.s)
    ensures value.Truthy() ==> r == PyStr(Strip(Python, value.Str()))
  {
    if value.Truthy() then PyStr(Strip(Python, value.Str())) else value
  }

  /** Text with no whitespace at its ends comes back as it is. */
  lemma TrimKeepsCleanText(value: PyValue)
    requires value.Truthy() && NoEdgeSpace(Python, value.Str())
    ensures Trim(value) == PyStr(value.Str())
  {
    StripNoEdgeSpace(Python, value.Str());
  }

  /** Trimming twice is trimming once. */
  lemma TrimIdempotent(value: PyValue)
    ensures Trim(Trim(value)) == Trim(value)
  {
    if value.Truthy() {
      StripIdempotent(Python, value.Str());
    }
  }
}
