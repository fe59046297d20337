/**
 * Creating or promoting the administrator named by the ADMIN_EMAIL and
 * ADMIN_PASSWORD settings: the `create_admin` management command
 * (accounts/management/commands/create_admin.py) and the post-migrate hook
 * `AccountsConfig.create_admin_user` (accounts/apps.py). Both pick a new
 * user's name as the e-mail's local part with the smallest free numeric
 * suffix. A setting that is absent is None.
 */
module AdminBootstrap {
  import opened Wrappers
  import opened Text
  import opened Tables
  import opened AccountModels
  import opened AccountStore

  /** The k-th name the loop tries: the base itself, then `f"{base}{k}"`. */
  function Candidate(base: string, k: nat): (u: string)
    ensures StartsWith(u, base)
  {
    if k == 0 then base else base + NatToString(k)
  }

  /** Different tries are different names, so the loop never retries one. */
  lemma CandidateInjective(base: string, j: nat, k: nat)
    requires Candidate(base, j) == Candidate(base, k)
    ensures j == k
  {
    if j != 0 && k != 0 {
      assert NatToString(j) == Candidate(base, j)[|base|..];
      assert NatToString(k) == Candidate(base, k)[|base|..];
      NatToStringInjective(j, k);
    }
  }

  /** `admin_email.split('@')[0]`: everything before the first '@'. */
  function BaseUsername(email: string): (b: string)
    ensures b == Split(email, "@")[0]
    ensures StartsWith(email, b) && '@' !in b
  {
    FirstPieceIsBefore(email, '@');
    Before(email, '@')
  }

  /** The names tried before the k-th. */
  function CandidatesBelow(base: string, k: nat): (names: set<string>)
    ensures forall j :: 0 <= j < k ==> Candidate(base, j) in names
  {
    if k == 0 then {} else CandidatesBelow(base, k - 1) + {Candidate(base, k - 1)}
  }

  /** The k-th try is none of the earlier ones. */
  lemma {:induction false} CandidateIsNew(base: string, k: nat, m: nat)
    requires k <= m
    ensures Candidate(base, m) !in CandidatesBelow(base, k)
  {
    if k > 0 {
      CandidateIsNew(base, k - 1, m);
      if Candidate(base, k - 1) == Candidate(base, m) {
        CandidateInjective(base, k - 1, m);
      }
    }
  }

  /** All earlier tries being taken puts them all in `taken`. */
  lemma {:induction false} CandidatesBelowTaken(base: string, k: nat, taken: set<string>)
    requires forall j :: 0 <= j < k ==> Candidate(base, j) in taken
    ensures CandidatesBelow(base, k) <= taken
  {
    if k > 0 {
      CandidatesBelowTaken(base, k - 1, taken);
    }
  }

  /**
   * The `while ... exists()` loop: the first of base, base1, base2, ...
   * that is not taken. It stops because `taken` is finite and no name is
   * tried twice.
   */
  method FreshUsername(base: string, taken: set<string>) returns (u: string, suffix: nat)
    ensures u !in taken
    ensures u == Candidate(base, suffix)
    ensures forall j :: 0 <= j < suffix ==> Candidate(base, j) in taken
    ensures base !in taken ==> suffix == 0 && u == base
  {
    u := base;
    suffix := 0;
    while u in taken
      invariant u == Candidate(base, suffix)
      invariant forall j :: 0 <= j < suffix ==> Candidate(base, j) in taken
      decreases taken - CandidatesBelow(base, suffix)
    {
      CandidatesBelowTaken(base, suffix, taken);
      CandidateIsNew(base, suffix, suffix);
      assert taken - CandidatesBelow(base, suffix + 1) < taken - CandidatesBelow(base, suffix);
      suffix := suffix + 1;
      u := base + NatToString(suffix);
    }
  }

  /** The name the loop picks is empty exactly when the base is empty and no user is named "". */
  lemma PickedNameEmpty(base: string, taken: set<string>, u: string, k: nat)
    requires u !in taken && u == Candidate(base, k)
    requires forall j :: 0 <= j < k ==> Candidate(base, j) in taken
    ensures u == [] <==> base == [] && [] !in taken
  {
    if k != 0 {
      assert Candidate(base, 0) in taken;
      assert |u| >= |NatToString(k)| > 0;
    }
  }

  /** A row with a fresh id and an untaken username keeps the users table valid. */
  lemma AppendFreshUser(users: seq<UserRecord>, a: UserRecord, nextId: UserId)
    requires UsersValid(users) && forall k :: 0 <= k < |users| ==> users[k].id < nextId
    requires a.id == nextId && a.username !in Usernames(users)
    ensures UsersValid(users + [a]) && forall k :: 0 <= k < |users + [a]| ==> (users + [a])[k].id < nextId + 1
    ensures (users + [a])[..|users|] == users && (users + [a])[|users|] == a
  {
    var users' := users + [a];
    forall i, j | 0 <= i < j < |users'|
      ensures users'[i].id != users'[j].id && users'[i].username != users'[j].username
    {
      if j == |users| {
        assert users'[i] == users[i];
      }
    }
  }

  /** The fields both code paths set on an administrator; the id and username stay. */
  function Promote(u: UserRecord, password: string): (a: UserRecord)
    ensures a.isStaff && a.isSuperuser && a.isActive && a.isVerified && a.role == Admin
    ensures a.password == password
    ensures a.id == u.id && a.username == u.username && a.email == u.email
  {
    u.(password := password, isStaff := true, isSuperuser := true, isActive := true, isVerified := true,
       role := Admin)
  }

  /**
   * Django's `BaseUserManager.normalize_email`, which `create_user` applies
   * to the e-mail it stores: the stripped address is cut at its last '@' and
   * the domain after it lower-cased; an address without '@' is kept as given.
   */
  function NormalizeEmail(email: string): (r: string)
    ensures '@' !in Strip(Python, email) ==> r == email
    ensures '@' in Strip(Python, email) ==>
              var t := Strip(Python, email);
              var i := LastIndexOf(t, '@').value;
              && |r| == |t| && NoEdgeSpace(Python, r) && LastIndexOf(r, '@') == Some(i)
              && r[..i] == t[..i] && r[i + 1..] == Lower(t[i + 1..])
  {
    var t := Strip(Python, email);
    match LastIndexOf(t, '@')
    case None => email
    case Some(i) =>
      NormalizedShape(t, i);
      t[..i] + "@" + Lower(t[i + 1..])
  }

  /** The shape of a stripped address with its domain lower-cased. */
  lemma NormalizedShape(t: string, i: nat)
    requires NoEdgeSpace(Python, t) && LastIndexOf(t, '@') == Some(i)
    ensures var r := t[..i] + "@" + Lower(t[i + 1..]);
            && |r| == |t| && NoEdgeSpace(Python, r) && LastIndexOf(r, '@') == Some(i)
            && r[..i] == t[..i] && r[i + 1..] == Lower(t[i + 1..])
  {
    var r := t[..i] + "@" + Lower(t[i + 1..]);
    NormalizedLastAt(t, i, r);
    NormalizedEdges(t, i, r);
  }

  lemma NormalizedLastAt(t: string, i: nat, r: string)
    requires LastIndexOf(t, '@') == Some(i)
    requires r == t[..i] + "@" + Lower(t[i + 1..])
    ensures |r| == |t| && LastIndexOf(r, '@') == Some(i)
    ensures r[..i] == t[..i] && r[i + 1..] == Lower(t[i + 1..])
  {
    var d := Lower(t[i + 1..]);
    assert r[i] == '@';
    forall k | i < k < |r|
      ensures r[k] != '@'
    {
      assert r[k] == d[k - i - 1] == LowerChar(t[k]);
    }
    LastIndexOfAt(r, '@', i);
    assert r[..i] == t[..i];
    assert r[i + 1..] == d;
  }

  lemma NormalizedEdges(t: string, i: nat, r: string)
    requires NoEdgeSpace(Python, t) && i < |t|
    requires r == t[..i] + "@" + Lower(t[i + 1..])
    ensures NoEdgeSpace(Python, r)
  {
    if i > 0 {
      assert r[0] == t[0];
    }
    if i + 1 < |t| {
      assert r[|r| - 1] == LowerChar(t[|t| - 1]);
    }
  }

  /** Normalising a normalised address changes nothing. */
  lemma NormalizeEmailIdempotent(email: string)
    ensures NormalizeEmail(NormalizeEmail(email)) == NormalizeEmail(email)
  {
    var t := Strip(Python, email);
    if '@' in t {
      var r := NormalizeEmail(email);
      var i := LastIndexOf(t, '@').value;
      StripNoEdgeSpace(Python, r);
      LowerIdempotent(t[i + 1..]);
      assert r == r[..i] + "@" + r[i + 1..];
    }
  }

  /** A clean address with '@' and no capital after its last '@'. */
  predicate IsNormalAddress(email: string) {
    match LastIndexOf(email, '@')
    case None => false
    case Some(i) => NoEdgeSpace(Python, email) && forall k :: i < k < |email| ==> !IsAsciiUpper(email[k])
  }

  /**
   * The addresses `normalize_email` keeps: those without '@' once
   * stripped, and the normal ones.
   */
  lemma NormalizeEmailFixedPoints(email: string)
    ensures NormalizeEmail(email) == email <==> '@' !in Strip(Python, email) || IsNormalAddress(email)
  {
    if '@' in Strip(Python, email) {
      if NormalizeEmail(email) == email {
        KeptIsNormal(email);
      }
      if IsNormalAddress(email) {
        NormalIsKept(email);
      }
    }
  }

  lemma KeptIsNormal(email: string)
    requires '@' in Strip(Python, email) && NormalizeEmail(email) == email
    ensures IsNormalAddress(email)
  {
    var t := Strip(Python, email);
    var i := LastIndexOf(t, '@').value;
    StripNoEdgeSpace(Python, email);
    assert t == email;
    var d := email[i + 1..];
    assert Lower(d) == d;
    LowerFixesNonCapitals(d);
    forall k | i < k < |email|
      ensures !IsAsciiUpper(email[k])
    {
      assert email[k] == d[k - i - 1];
    }
  }

  lemma NormalIsKept(email: string)
    requires IsNormalAddress(email)
    ensures NormalizeEmail(email) == email
  {
    var i := LastIndexOf(email, '@').value;
    StripNoEdgeSpace(Python, email);
    var d := email[i + 1..];
    assert forall k :: 0 <= k < |d| ==> d[k] == email[k + i + 1];
    LowerFixesNonCapitals(d);
    assert email == email[..i] + "@" + d;
  }

  /**
   * `get(email=admin_email)` compares exactly: when ADMIN_EMAIL is clean
   * but has a capital in its domain, the administrator `create_user`
   * stored is not found by the next run, which creates a second one.
   */
  lemma RerunMissesNormalisedAdmin(a: UserRecord, email: string)
    requires a.email == NormalizeEmail(email)
    requires NoEdgeSpace(Python, email) && '@' in email
    requires exists k :: LastIndexOf(email, '@').value < k < |email| && IsAsciiUpper(email[k])
    ensures RowsWithEmail([a], email) == []
  {
    StripNoEdgeSpace(Python, email);
    NormalizeEmailFixedPoints(email);
    assert !IsNormalAddress(email);
  }

  /** A setting is set when it is present and non-empty (`if not admin_email`). */
  predicate IsSet(s: Option<string>) {
    s.Some? && s.value != ""
  }

  /** How the command or the hook ends. */
  datatype BootstrapOutcome =
    | NotConfigured                   // a setting missing: nothing happens
    | Updated(id: UserId)             // the user with that e-mail was promoted
    | AlreadyAdmin(id: UserId)        // left as it was (hook only)
    | Created(id: UserId)
    | Failed(error: DbError)          // more than one user has that e-mail
    | UsernameNotSet                  // `create_user` raises ValueError: the name picked is empty

  /**
   * `create_user(username=..., is_staff=True, is_superuser=True,
   * is_active=True, is_verified=True, role='admin')` under the name the loop
   * picked: the e-mail's local part with the least suffix not in `users`.
   * The e-mail is stored normalised.
   */
  ghost predicate NewAdmin(a: UserRecord, id: UserId, email: string, password: string, users: seq<UserRecord>) {
    && a.id == id && a.email == NormalizeEmail(email) && a.password == password && a.username != []
    && a.isStaff && a.isSuperuser && a.isActive && a.isVerified && a.role == Admin
    && a.username !in Usernames(users)
    && exists k: nat :: a.username == Candidate(BaseUsername(email), k)
                         && forall j :: 0 <= j < k ==> Candidate(BaseUsername(email), j) in Usernames(users)
  }

  /**
   * The loop and `create_user`: the administrator row under a fresh name,
   * or ValueError when the name picked is empty, which happens exactly when
   * the e-mail starts with '@' and no user is named "".
   */
  method CreateAdmin(db: Accounts, email: string, password: string) returns (outcome: BootstrapOutcome)
    requires db.Valid()
    modifies db
    ensures db.Valid()
    ensures db.verifications == old(db.verifications)
    ensures outcome == UsernameNotSet <==> BaseUsername(email) == [] && [] !in Usernames(old(db.users))
    ensures outcome == UsernameNotSet ==> db.users == old(db.users) && db.nextUserId == old(db.nextUserId)
    ensures outcome != UsernameNotSet ==>
              && outcome == Created(old(db.nextUserId)) && db.nextUserId == old(db.nextUserId) + 1
              && |db.users| == |old(db.users)| + 1 && db.users[..|old(db.users)|] == old(db.users)
              && NewAdmin(db.users[|old(db.users)|], old(db.nextUserId), email, password, old(db.users))
  {
    var username, k := FreshUsername(BaseUsername(email), Usernames(db.users));
    PickedNameEmpty(BaseUsername(email), Usernames(db.users), username, k);
    if username == [] {
      return UsernameNotSet;
    }
    var id := db.nextUserId;
    var a := UserRecord(id, username, NormalizeEmail(email), password, Admin, true, true, true, true);
    AppendFreshUser(db.users, a, id);
    db.users := db.users + [a];
    db.nextUserId := id + 1;
    outcome := Created(id);
  }

  /**
   * `create_admin` (create_admin.py, lines 15-68): with both settings set,
   * the user with that e-mail is promoted and given the password, or, when
   * there is none, an administrator is created under a fresh name.
   */
  method CreateAdminCommand(db: Accounts, adminEmail: Option<string>, adminPassword: Option<string>)
    returns (outcome: BootstrapOutcome)
    requires db.Valid()
    modifies db
    ensures db.Valid()
    ensures db.verifications == old(db.verifications)
    ensures !IsSet(adminEmail) || !IsSet(adminPassword) ==> outcome == NotConfigured
    ensures outcome.NotConfigured? || outcome.Failed? || outcome.UsernameNotSet? ==>
              db.users == old(db.users) && db.nextUserId == old(db.nextUserId)
    ensures IsSet(adminEmail) && IsSet(adminPassword) ==>
              var rows := RowsWithEmail(old(db.users), adminEmail.value);
              && (|rows| > 1 ==> outcome == Failed(MultipleObjectsReturned))
              && (|rows| == 1 ==>
                    && outcome == Updated(old(db.users)[rows[0]].id)
                    && db.users == old(db.users)[rows[0] := Promote(old(db.users)[rows[0]], adminPassword.value)])
              && (rows == [] && BaseUsername(adminEmail.value) == [] && [] !in Usernames(old(db.users)) ==>
                    outcome == UsernameNotSet)
              && (rows == [] && (BaseUsername(adminEmail.value) != [] || [] in Usernames(old(db.users))) ==>
                    && outcome == Created(old(db.nextUserId))
                    && |db.users| == |old(db.users)| + 1 && db.users[..|old(db.users)|] == old(db.users)
                    && NewAdmin(db.users[|old(db.users)|], old(db.nextUserId), adminEmail.value, adminPassword.value,
                                old(db.users)))
  {
    if !IsSet(adminEmail) || !IsSet(adminPassword) {
      return NotConfigured;
    }
    var email, password := adminEmail.value, adminPassword.value;
    var rows := RowsWithEmail(db.users, email);
    if |rows| > 1 {
      return Failed(MultipleObjectsReturned);
    }
    if |rows| == 1 {
      var k := rows[0];
      var user := db.users[k];
      user := user.(password := password);
      user := user.(isStaff := true);
      user := user.(isSuperuser := true);
      user := user.(isActive := true);
      user := user.(isVerified := true);
      user := user.(role := Admin);
      UpdateKeepsUsersValid(db.users, k, user);
      db.users := db.users[k := user];
      return Updated(user.id);
    }
    outcome := CreateAdmin(db, email, password);
  }

  /**
   * `create_admin_user` (apps.py, lines 14-53): like the command, except
   * that a user who is already staff and superuser is left completely as
   * it was, password included.
   */
  method CreateAdminOnMigrate(db: Accounts, adminEmail: Option<string>, adminPassword: Option<string>)
    returns (outcome: BootstrapOutcome)
    requires db.Valid()
    modifies db
    ensures db.Valid()
    ensures db.verifications == old(db.verifications)
    ensures !IsSet(adminEmail) || !IsSet(adminPassword) ==> outcome == NotConfigured
    ensures outcome.NotConfigured? || outcome.Failed? || outcome.UsernameNotSet? || outcome.AlreadyAdmin? ==>
              db.users == old(db.users) && db.nextUserId == old(db.nextUserId)
    ensures IsSet(adminEmail) && IsSet(adminPassword) ==>
              var rows := RowsWithEmail(old(db.users), adminEmail.value);
              && (|rows| > 1 ==> outcome == Failed(MultipleObjectsReturned))
              && (|rows| == 1 ==>
                    var u := old(db.users)[rows[0]];
                    if u.isStaff && u.isSuperuser then outcome == AlreadyAdmin(u.id)
                    else outcome == Updated(u.id) && db.users == old(db.users)[rows[0] := Promote(u, adminPassword.value)])
              && (rows == [] && BaseUsername(adminEmail.value) == [] && [] !in Usernames(old(db.users)) ==>
                    outcome == UsernameNotSet)
              && (rows == [] && (BaseUsername(adminEmail.value) != [] || [] in Usernames(old(db.users))) ==>
                    && outcome == Created(old(db.nextUserId))
                    && |db.users| == |old(db.users)| + 1 && db.users[..|old(db.users)|] == old(db.users)
                    && NewAdmin(db.users[|old(db.users)|], old(db.nextUserId), adminEmail.value, adminPassword.value,
                                old(db.users)))
  {
    if IsSet(adminEmail) && IsSet(adminPassword) {
      var email, password := adminEmail.value, adminPassword.value;
      var rows := RowsWithEmail(db.users, email);
      if |rows| > 1 {
        return Failed(MultipleObjectsReturned);
      }
      if |rows| == 1 {
        var k := rows[0];
        var user := db.users[k];
        if !user.isStaff || !user.isSuperuser {
          user := user.(password := password);
          user := user.(isStaff := true);
          user := user.(isSuperuser := true);
          user := user.(isActive := true);
          user := user.(isVerified := true);
          user := user.(role := Admin);
          UpdateKeepsUsersValid(db.users, k, user);
          db.users := db.users[k := user];
          return Updated(user.id);
        }
        return AlreadyAdmin(user.id);
      }
      outcome := CreateAdmin(db, email, password);
      return;
    }
    return NotConfigured;
  }
}
