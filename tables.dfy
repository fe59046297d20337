/**
 * A database table under a `unique_together` constraint, seen as the
 * sequence of its rows and the key function the constraint names.
 */
module Tables {
  import opened Wrappers

  /** What the database (or the ORM's `get`) raises. */
  datatype DbError = IntegrityError | DoesNotExist | MultipleObjectsReturned

  /** No two rows share a key. */
  predicate UniqueBy<T, K(==)>(rows: seq<T>, key: T -> K) {
    forall i, j :: 0 <= i < j < |rows| ==> key(rows[i]) != key(rows[j])
  }

  /** Some row already has key `k`. */
  predicate HasKey<T, K(==)>(rows: seq<T>, key: T -> K, k: K) {
    exists i :: 0 <= i < |rows| && key(rows[i]) == k
  }

  /**
   * The row with key `k`, searched from the last row back (a `get` by that
   * key), or None exactly when no row has it.
   */
  function FindBy<T, K(==)>(rows: seq<T>, key: T -> K, k: K): (r: Option<nat>)
    ensures r.Some? ==> r.value < |rows| && key(rows[r.value]) == k
    ensures r.None? <==> forall i :: 0 <= i < |rows| ==> key(rows[i]) != k
  {
    if rows == [] then None
    else if key(rows[|rows| - 1]) == k then Some(|rows| - 1)
    else FindBy(rows[..|rows| - 1], key, k)
  }

  /** An INSERT that the constraint guards: a second row with a taken key is refused. */
  function Insert<T, K(==)>(rows: seq<T>, row: T, key: T -> K): (r: Result<seq<T>, DbError>)
    ensures r.Ok? <==> !HasKey(rows, key, key(row))
    ensures r.Ok? ==> r.value == rows + [row]
    ensures r.Err? ==> r.error == IntegrityError
    ensures UniqueBy(rows, key) && r.Ok? ==> UniqueBy(r.value, key)
  {
    if HasKey(rows, key, key(row)) then Err(IntegrityError) else Ok(rows + [row])
  }

  /** Replacing a row by one with the same key keeps the constraint. */
  lemma ReplaceKeepsUnique<T, K>(rows: seq<T>, k: nat, row: T, key: T -> K)
    requires k < |rows| && key(row) == key(rows[k])
    requires UniqueBy(rows, key)
    ensures UniqueBy(rows[k := row], key)
  {
    var rows' := rows[k := row];
    forall i, j | 0 <= i < j < |rows'|
      ensures key(rows'[i]) != key(rows'[j])
    {
      assert key(rows'[i]) == key(rows[i]) && key(rows'[j]) == key(rows[j]);
    }
  }

  /** Once a row is in, a second row with the same key is refused. */
  lemma SecondInsertRefused<T, K>(rows: seq<T>, row: T, again: T, key: T -> K)
    requires Insert(rows, row, key).Ok?
    requires key(again) == key(row)
    ensures Insert(Insert(rows, row, key).value, again, key) == Err(IntegrityError)
  {
    var rows' := rows + [row];
    assert key(rows'[|rows|]) == key(again);
  }
}
