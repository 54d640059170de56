/**
  The reconciliation at the heart of the database clean-up script: it rebuilds the
  users table from the authentication user list, keyed by uid, keeping for each
  email the role of the first database entry with that email, and leaving out
  users whose role is missing or empty.

  The reads and the write of the database and the process exit are outside the model:
  the auth list and the database entries (in iteration order) are inputs, the new
  table is the output.
 */
module UserCleanup {
  import opened Base

  /** An authentication user: its email and uid. */
  datatype AuthUser = AuthUser(email: string, uid: string)

  /** A value under /users in the database; either field may be missing. */
  datatype DbEntry = DbEntry(email: Option<string>, role: Option<string>)

  /** The database's server-timestamp placeholder (ServerValue.TIMESTAMP). */
  datatype ServerValue = ServerTimestamp

  /** A record of the rebuilt table: exactly an email, a role and a creation time. */
  datatype CleanRecord = CleanRecord(email: string, role: string, created: ServerValue)

  /** JavaScript truthiness of a role: present and not the empty string. */
  predicate Truthy(role: Option<string>)
  {
    role.Some? && role.value != ""
  }

  // ---------------------------------------------------------------------------
  // The email index
  // ---------------------------------------------------------------------------

  /** usersByEmail after the forEach over `users`: each email maps to the uid written last. */
  function EmailIndex(users: seq<AuthUser>): map<string, string>
  {
    if users == [] then map[]
    else
      var last := users[|users| - 1];
      EmailIndex(users[..|users| - 1])[last.email := last.uid]
  }

  /** The order of usersByEmail's keys: each email where it was first written. */
  function EmailOrder(users: seq<AuthUser>): seq<string>
  {
    if users == [] then []
    else
      var prefix := EmailOrder(users[..|users| - 1]);
      var email := users[|users| - 1].email;
      if email in prefix then prefix else prefix + [email]
  }

  /** The keys of the index are exactly the emails of the auth users. */
  lemma {:induction false} EmailIndexDomain(users: seq<AuthUser>, email: string)
    ensures email in EmailIndex(users) <==> exists i :: 0 <= i < |users| && users[i].email == email
  {
    if users != [] {
      var prefix := users[..|users| - 1];
      EmailIndexDomain(prefix, email);
      if email in EmailIndex(prefix) {
        var i :| 0 <= i < |prefix| && prefix[i].email == email;
        assert users[i].email == email;
      }
      if exists i :: 0 <= i < |users| && users[i].email == email {
        var i :| 0 <= i < |users| && users[i].email == email;
        if i < |prefix| { assert prefix[i].email == email; }
      }
    }
  }

  /** When several auth users share an email, the last of them decides its uid. */
  lemma {:induction false} EmailIndexLastWins(users: seq<AuthUser>, i: nat)
    requires i < |users|
    requires forall j :: i < j < |users| ==> users[j].email != users[i].email
    ensures users[i].email in EmailIndex(users)
    ensures EmailIndex(users)[users[i].email] == users[i].uid
  {
    if i < |users| - 1 {
      var prefix := users[..|users| - 1];
      EmailIndexLastWins(prefix, i);
    }
  }

  /** The key order lists every key of the index once, and nothing else. */
  lemma {:induction false} EmailOrderEnumeratesIndex(users: seq<AuthUser>)
    ensures forall i, j :: 0 <= i < j < |EmailOrder(users)| ==> EmailOrder(users)[i] != EmailOrder(users)[j]
    ensures forall e :: e in EmailOrder(users) <==> e in EmailIndex(users)
    ensures |EmailOrder(users)| == |EmailIndex(users)|
  {
    if users != [] {
      EmailOrderEnumeratesIndex(users[..|users| - 1]);
    }
  }

  /** Every email in the key order is a key of the index. */
  lemma {:induction false} EmailOrderWithinIndex(users: seq<AuthUser>)
    ensures KeysIn(EmailOrder(users), EmailIndex(users))
  {
    if users != [] {
      EmailOrderWithinIndex(users[..|users| - 1]);
    }
  }

  /** The forEach that fills usersByEmail, with the key order a JavaScript object keeps. */
  method BuildEmailIndex(users: seq<AuthUser>) returns (usersByEmail: map<string, string>, order: seq<string>)
    ensures usersByEmail == EmailIndex(users)
    ensures order == EmailOrder(users)
  {
    usersByEmail, order := map[], [];
    var i := 0;
    while i < |users|
      invariant 0 <= i <= |users|
      invariant usersByEmail == EmailIndex(users[..i])
      invariant order == EmailOrder(users[..i])
    {
      var user := users[i];
      if user.email !in order {
        order := order + [user.email];
      }
      usersByEmail := usersByEmail[user.email := user.uid];
      assert users[..i + 1][..i] == users[..i];
      i := i + 1;
    }
    assert users[..|users|] == users;
  }

  // ---------------------------------------------------------------------------
  // The role lookup
  // ---------------------------------------------------------------------------

  /** The role of the first database entry whose email is `email`; none when there is none. */
  function FirstRole(email: string, db: seq<DbEntry>): Option<string>
  {
    if db == [] then None
    else if db[0].email == Some(email) then db[0].role
    else FirstRole(email, db[1..])
  }

  /**
    Only the first entry with the email counts: its role is the answer, even when it
    is missing and a later entry with the same email has one.
   */
  lemma {:induction false} FirstRoleIsFirstMatch(email: string, db: seq<DbEntry>, i: nat)
    requires i < |db| && db[i].email == Some(email)
    requires forall j :: 0 <= j < i ==> db[j].email != Some(email)
    ensures FirstRole(email, db) == db[i].role
  {
    if i > 0 {
      var rest := db[1..];
      assert db[0].email != Some(email);
      assert rest[i - 1] == db[i];
      forall j | 0 <= j < i - 1 ensures rest[j].email != Some(email) {
        assert rest[j] == db[j + 1];
      }
      FirstRoleIsFirstMatch(email, rest, i - 1);
    }
  }

  /** Without an entry for the email there is no role. */
  lemma {:induction false} FirstRoleWithoutMatch(email: string, db: seq<DbEntry>)
    requires forall i :: 0 <= i < |db| ==> db[i].email != Some(email)
    ensures FirstRole(email, db) == None
  {
    if db != [] {
      var rest := db[1..];
      assert db[0].email != Some(email);
      forall k | 0 <= k < |rest| ensures rest[k].email != Some(email) {
        assert rest[k] == db[k + 1];
      }
      FirstRoleWithoutMatch(email, rest);
    }
  }

  /** A role on a later duplicate is never reached. */
  lemma LaterDuplicateRoleIgnored(email: string, role: string)
    ensures FirstRole(email, [DbEntry(Some(email), None), DbEntry(Some(email), Some(role))]) == None
  {
  }

  /** The inner for-of over the database entries, leaving at the first email match. */
  method FindRole(email: string, db: seq<DbEntry>) returns (role: Option<string>)
    ensures role == FirstRole(email, db)
  {
    role := None;
    var k := 0;
    while k < |db|
      invariant 0 <= k <= |db|
      invariant FirstRole(email, db) == FirstRole(email, db[k..])
    {
      if db[k].email == Some(email) {
        role := db[k].role;
        break;
      }
      assert db[k..][1..] == db[k + 1..];
      k := k + 1;
    }
  }

  // ---------------------------------------------------------------------------
  // The rebuilt table
  // ---------------------------------------------------------------------------

  /** Every email of `order` has a uid in `usersByEmail`. */
  ghost predicate KeysIn(order: seq<string>, usersByEmail: map<string, string>)
  {
    forall e :: e in order ==> e in usersByEmail
  }

  lemma KeysInPrefix(order: seq<string>, usersByEmail: map<string, string>, n: nat)
    requires KeysIn(order, usersByEmail) && n <= |order|
    ensures KeysIn(order[..n], usersByEmail)
  {
    assert forall e :: e in order[..n] ==> e in order;
  }

  /** The clean table after visiting the emails of `order` in turn. */
  function CleanTable(order: seq<string>, usersByEmail: map<string, string>, db: seq<DbEntry>): map<string, CleanRecord>
    requires KeysIn(order, usersByEmail)
  {
    if order == [] then map[]
    else
      var prefix := order[..|order| - 1];
      var email := order[|order| - 1];
      var role := FirstRole(email, db);
      KeysInPrefix(order, usersByEmail, |order| - 1);
      var table := CleanTable(prefix, usersByEmail, db);
      if Truthy(role) then table[usersByEmail[email] := CleanRecord(email, role.value, ServerTimestamp)]
      else table
  }

  /** Every record comes from a visited email with a truthy first role, and sits under that email's uid. */
  lemma {:induction false} CleanTableProvenance(order: seq<string>, usersByEmail: map<string, string>, db: seq<DbEntry>)
    requires KeysIn(order, usersByEmail)
    ensures forall uid :: uid in CleanTable(order, usersByEmail, db) ==>
      var r := CleanTable(order, usersByEmail, db)[uid];
      && r.email in order
      && usersByEmail[r.email] == uid
      && Truthy(FirstRole(r.email, db))
      && r.role == FirstRole(r.email, db).value
      && r.created == ServerTimestamp
  {
    if order != [] {
      var prefix := order[..|order| - 1];
      KeysInPrefix(order, usersByEmail, |order| - 1);
      CleanTableProvenance(prefix, usersByEmail, db);
    }
  }

  /** Every visited email with a truthy first role has a record under its uid. */
  lemma {:induction false} CleanTableInclusion(order: seq<string>, usersByEmail: map<string, string>, db: seq<DbEntry>)
    requires KeysIn(order, usersByEmail)
    ensures forall e :: e in order && Truthy(FirstRole(e, db)) ==> usersByEmail[e] in CleanTable(order, usersByEmail, db)
  {
    if order != [] {
      var prefix := order[..|order| - 1];
      KeysInPrefix(order, usersByEmail, |order| - 1);
      CleanTableInclusion(prefix, usersByEmail, db);
      assert forall e :: e in order ==> e in prefix || e == order[|order| - 1];
    }
  }

  /** The table has at most one record per visited email. */
  lemma {:induction false} CleanTableSize(order: seq<string>, usersByEmail: map<string, string>, db: seq<DbEntry>)
    requires KeysIn(order, usersByEmail)
    ensures |CleanTable(order, usersByEmail, db)| <= |order|
  {
    if order != [] {
      var prefix := order[..|order| - 1];
      KeysInPrefix(order, usersByEmail, |order| - 1);
      CleanTableSize(prefix, usersByEmail, db);
    }
  }

  /** cleanupDatabase's table: one pass over usersByEmail's entries, looking up each email's role. */
  method Cleanup(authUsers: seq<AuthUser>, dbData: seq<DbEntry>) returns (cleanData: map<string, CleanRecord>)
    ensures (EmailOrderWithinIndex(authUsers);
      cleanData == CleanTable(EmailOrder(authUsers), EmailIndex(authUsers), dbData))
  {
    var usersByEmail, order := BuildEmailIndex(authUsers);
    EmailOrderWithinIndex(authUsers);
    cleanData := map[];
    var i := 0;
    while i < |order|
      invariant 0 <= i <= |order|
      invariant KeysIn(order[..i], usersByEmail)
      invariant cleanData == CleanTable(order[..i], usersByEmail, dbData)
    {
      var email := order[i];
      var uid := usersByEmail[email];
      var role := FindRole(email, dbData);
      if Truthy(role) {
        cleanData := cleanData[uid := CleanRecord(email, role.value, ServerTimestamp)];
      }
      KeysInPrefix(order, usersByEmail, i + 1);
      assert order[..i + 1][..i] == order[..i];
      i := i + 1;
    }
    assert order[..|order|] == order;
  }

  /**
    What the rebuilt table promises: each record sits under the uid the auth list gives
    its email, carries the role of the first database entry with that email, and
    every auth email whose first entry has a truthy role is present; entries whose
    email no auth user has are gone, and there are at most as many records as
    distinct auth emails.
   */
  lemma CleanupGuarantees(authUsers: seq<AuthUser>, dbData: seq<DbEntry>)
    ensures (EmailOrderWithinIndex(authUsers);
      var index := EmailIndex(authUsers);
      var table := CleanTable(EmailOrder(authUsers), index, dbData);
      && (forall uid :: uid in table ==>
            && table[uid].email in index
            && index[table[uid].email] == uid
            && Truthy(FirstRole(table[uid].email, dbData))
            && table[uid].role == FirstRole(table[uid].email, dbData).value
            && table[uid].created == ServerTimestamp)
      && (forall e :: e in index && Truthy(FirstRole(e, dbData)) ==> index[e] in table)
      && |table| <= |index|)
  {
    EmailOrderEnumeratesIndex(authUsers);
    var order, index := EmailOrder(authUsers), EmailIndex(authUsers);
    CleanTableProvenance(order, index, dbData);
    CleanTableInclusion(order, index, dbData);
    CleanTableSize(order, index, dbData);
  }
}
