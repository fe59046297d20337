/**
 * The accounts tables as one mutable store: the users table (usernames
 * unique, as Django's AbstractUser declares) and the e-mail verification
 * records, at most one per (user, e-mail) pair, as `send_verification_email`'s
 * `get_or_create` (accounts/utils.py line 14) leaves them when it is the only
 * writer.
 */
module AccountStore {
  import opened Wrappers
  import opened Tables
  import opened AccountModels

  /** Row indices of the users whose e-mail is `email`, in table order. */
  function RowsWithEmail(users: seq<UserRecord>, email: string): (rows: seq<nat>)
    ensures forall k :: 0 <= k < |rows| ==> rows[k] < |users| && users[rows[k]].email == email
    ensures forall i :: 0 <= i < |users| && users[i].email == email ==> i in rows
    ensures forall a, b :: 0 <= a < b < |rows| ==> rows[a] < rows[b]
  {
    if users == [] then []
    else
      var front := RowsWithEmail(users[..|users| - 1], email);
      if users[|users| - 1].email == email then front + [|users| - 1] else front
  }

  /** A user row's primary key. */
  function UserIdOf(u: UserRecord): UserId {
    u.id
  }

  /** The usernames in use. */
  function Usernames(users: seq<UserRecord>): (names: set<string>)
    ensures forall k :: 0 <= k < |users| ==> users[k].username in names
    ensures forall n :: n in names ==> exists k :: 0 <= k < |users| && users[k].username == n
  {
    set k | 0 <= k < |users| :: users[k].username
  }

  /** Distinct ids and distinct usernames. */
  predicate UsersValid(users: seq<UserRecord>) {
    forall i, j :: 0 <= i < j < |users| ==> users[i].id != users[j].id && users[i].username != users[j].username
  }

  class Accounts {
    var users: seq<UserRecord>
    var verifications: map<(UserId, string), EmailVerification>
    var nextUserId: UserId

    ghost predicate Valid()
      reads this
    {
      && UsersValid(users)
      && forall k :: 0 <= k < |users| ==> users[k].id < nextUserId
    }

    constructor ()
      ensures Valid()
      ensures users == [] && verifications == map[]
    {
      users := [];
      verifications := map[];
      nextUserId := 1;
    }
  }

  /** Changing a row without touching its id or username keeps the table valid. */
  lemma UpdateKeepsUsersValid(users: seq<UserRecord>, k: nat, row: UserRecord)
    requires UsersValid(users) && k < |users|
    requires row.id == users[k].id && row.username == users[k].username
    ensures UsersValid(users[k := row])
  {
    var users' := users[k := row];
    forall i, j | 0 <= i < j < |users'|
      ensures users'[i].id != users'[j].id && users'[i].username != users'[j].username
    {
      assert users'[i].id == users[i].id && users'[i].username == users[i].username;
      assert users'[j].id == users[j].id && users'[j].username == users[j].username;
    }
  }
}
