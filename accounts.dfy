/** The `users` table: the lookups that login and the federated callback run,
    and the uniqueness that signup relies on. */
module Accounts {
  import opened Rows
  import Text

  /** `cursor.fetchone()` after a `SELECT * ... WHERE`: the first matching row
      in table order, if any. */
  function FirstWhere<T>(rows: seq<T>, p: T -> bool): (r: Option<T>)
    ensures r.None? <==> forall k :: 0 <= k < |rows| ==> !p(rows[k])
    ensures r.Some? ==> exists k :: 0 <= k < |rows| && rows[k] == r.value && p(rows[k]) &&
                                      forall j :: 0 <= j < k ==> !p(rows[j])
  {
    if rows == [] then None
    else if p(rows[0]) then Some(rows[0])
    else
      var r := FirstWhere(rows[1..], p);
      assert forall k :: 1 <= k < |rows| ==> rows[k] == rows[1..][k - 1];
      r
  }

  function EmailIs(email: string): User -> bool
  {
    (u: User) => u.email == email
  }

  function CredentialsAre(email: string, digest: string): User -> bool
  {
    (u: User) => u.email == email && u.password == digest
  }

  /** `SELECT * FROM users WHERE email = %s`. */
  function FindByEmail(users: seq<User>, email: string): (r: Option<User>)
    ensures r.Some? <==> exists k :: 0 <= k < |users| && users[k].email == email
    ensures r.Some? ==> r.value in users && r.value.email == email
  {
    FirstWhere(users, EmailIs(email))
  }

  /** `SELECT * FROM users WHERE email = %s AND password = %s`. */
  function FindByCredentials(users: seq<User>, email: string, digest: string): (r: Option<User>)
    ensures r.Some? <==> exists k :: 0 <= k < |users| && users[k].email == email && users[k].password == digest
    ensures r.Some? ==> r.value in users && r.value.email == email && r.value.password == digest
  {
    FirstWhere(users, CredentialsAre(email, digest))
  }

  /** The unique keys of `users` (id, username, email); ids grow with insertion. */
  ghost predicate WellKeyed(users: seq<User>)
  {
    forall i, j :: 0 <= i < j < |users| ==>
      users[i].id < users[j].id && users[i].username != users[j].username && users[i].email != users[j].email
  }

  /** An INSERT of this username and email violates no unique key. */
  function Available(users: seq<User>, username: string, email: string): (ok: bool)
  {
    forall k :: 0 <= k < |users| ==> users[k].username != username && users[k].email != email
  }

  lemma InsertKeepsWellKeyed(users: seq<User>, u: User)
    requires WellKeyed(users)
    requires Available(users, u.username, u.email)
    requires forall k :: 0 <= k < |users| ==> users[k].id < u.id
    ensures WellKeyed(users + [u])
  {
  }

  /** On a well-keyed table, an INSERT of a row with a fresh id keeps every
      unique key exactly when the username and the e-mail are both unused;
      otherwise the database rejects it. */
  lemma InsertWellKeyedIffAvailable(users: seq<User>, u: User)
    requires WellKeyed(users)
    requires forall k :: 0 <= k < |users| ==> users[k].id < u.id
    ensures WellKeyed(users + [u]) <==> Available(users, u.username, u.email)
  {
    if Available(users, u.username, u.email) {
      InsertKeepsWellKeyed(users, u);
    }
    if WellKeyed(users + [u]) {
      forall k | 0 <= k < |users|
        ensures users[k].username != u.username && users[k].email != u.email
      {
        assert (users + [u])[k] == users[k] && (users + [u])[|users|] == u;
      }
    }
  }

  /** When no earlier row matches, fetchone returns the row just appended. */
  lemma {:induction false} FirstWhereFindsAppended<T>(rows: seq<T>, x: T, p: T -> bool)
    requires forall k :: 0 <= k < |rows| ==> !p(rows[k])
    requires p(x)
    ensures FirstWhere(rows + [x], p) == Some(x)
  {
    if rows == [] {
      assert [x][0] == x;
    } else {
      assert (rows + [x])[0] == rows[0];
      assert (rows + [x])[1..] == rows[1..] + [x];
      FirstWhereFindsAppended(rows[1..], x, p);
    }
  }

  /** Signup followed by login with the same e-mail and password finds the new row. */
  lemma SignupThenLogin(users: seq<User>, u: User)
    requires Available(users, u.username, u.email)
    ensures FindByCredentials(users + [u], u.email, u.password) == Some(u)
  {
    FirstWhereFindsAppended(users, u, CredentialsAre(u.email, u.password));
  }

  /** The callback's re-SELECT after its INSERT finds the row it created. */
  lemma CreatedUserIsFound(users: seq<User>, u: User)
    requires forall k :: 0 <= k < |users| ==> users[k].email != u.email
    ensures FindByEmail(users + [u], u.email) == Some(u)
  {
    FirstWhereFindsAppended(users, u, EmailIs(u.email));
  }

  /** With unique e-mails, a lookup by e-mail returns the one row that has it. */
  lemma FindByEmailUnique(users: seq<User>, k: nat)
    requires WellKeyed(users)
    requires k < |users|
    ensures FindByEmail(users, users[k].email) == Some(users[k])
  {
  }

  /** A password whose digest differs from the stored one never logs in. */
  lemma WrongPasswordFails(users: seq<User>, k: nat, digest: string)
    requires WellKeyed(users)
    requires k < |users|
    requires digest != users[k].password
    ensures FindByCredentials(users, users[k].email, digest) == None
  {
  }

  /** No password logs into an account made by federated login, since a
      hex digest never equals the marker stored in its password column. */
  lemma PasswordLoginNeverReachesOAuthAccount(users: seq<User>, email: string, digest: string)
    requires Text.IsHexDigest(digest)
    ensures var r := FindByCredentials(users, email, digest);
      r.Some? ==> r.value.password != OAuthPassword
  {
  }
}
