/**
 * app/api/auth/register.ts and app/api/auth/login.ts: a `users` collection
 * of plaintext credentials. Register inserts the request's fields verbatim;
 * login finds the first record with the given email and compares passwords
 * as strings.
 */
module Users {
  import opened Wrappers
  import opened Http

  /** A document of the `users` collection, as register.ts writes it. */
  datatype UserRecord = UserRecord(username: string, email: string, password: string)

  const Registered := "User registered successfully"
  const RegistrationFailed := "Registration failed"
  const UserNotFound := "User not found"
  const IncorrectPassword := "Incorrect password"
  const LoginSucceeded := "Login successful"
  const LoginFailed := "Login failed"

  /** The `users` collection. */
  class UserTable {
    var users: seq<UserRecord>

    constructor (initial: seq<UserRecord>)
      ensures users == initial
    {
      users := initial;
    }

    /**
     * register.ts POST: one `insertOne({ username, email, password })`, with
     * no validation and no uniqueness check.
     */
    method Register(connection: Connection, username: string, email: string, password: string)
      returns (reply: Reply<()>)
      modifies this
      ensures connection.Refused? ==> reply == Json(500, false, Some(RegistrationFailed)) && users == old(users)
      ensures connection.Connected? ==>
        reply == Json(200, true, Some(Registered)) && users == old(users) + [UserRecord(username, email, password)]
    {
      if connection.Refused? {
        return Json(500, false, Some(RegistrationFailed));
      }
      users := users + [UserRecord(username, email, password)];
      reply := Json(200, true, Some(Registered));
    }
  }

  /** `collection.findOne({ email })`: the first record, in stored order, with that email. */
  function FindByEmail(users: seq<UserRecord>, email: string): (r: Option<UserRecord>)
    ensures r.None? <==> forall u :: u in users ==> u.email != email
    ensures r.Some? ==>
      exists k :: 0 <= k < |users| && users[k] == r.value && r.value.email == email &&
        forall j :: 0 <= j < k ==> users[j].email != email
    decreases |users|
  {
    if users == [] then None
    else if users[0].email == email then Some(users[0])
    else
      var r := FindByEmail(users[1..], email);
      if r.Some? then
        ghost var k :| 0 <= k < |users[1..]| && users[1..][k] == r.value && r.value.email == email &&
          forall j :: 0 <= j < k ==> users[1..][j].email != email;
        assert users[k + 1] == r.value;
        r
      else r
  }

  /** login.ts POST. */
  function Login(connection: Connection, users: seq<UserRecord>, email: string, password: string): Reply<()> {
    if connection.Refused? then Json(500, false, Some(LoginFailed))
    else match FindByEmail(users, email)
      case None => Json(404, false, Some(UserNotFound))
      case Some(user) =>
        if user.password != password then Json(401, false, Some(IncorrectPassword))
        else Json(200, true, Some(LoginSucceeded))
  }

  /**
   * The outcomes of login: 404 exactly when no record has the email; 401
   * exactly when the first such record's password differs; success exactly
   * when it is equal.
   */
  lemma LoginOutcomes(users: seq<UserRecord>, email: string, password: string)
    ensures var r := Login(Connected, users, email, password);
      (r == Json(404, false, Some(UserNotFound)) <==> forall u :: u in users ==> u.email != email) &&
      (r == Json(401, false, Some(IncorrectPassword)) <==>
         exists k :: 0 <= k < |users| && users[k].email == email && users[k].password != password &&
           forall j :: 0 <= j < k ==> users[j].email != email) &&
      (r == Json(200, true, Some(LoginSucceeded)) <==>
         exists k :: 0 <= k < |users| && users[k].email == email && users[k].password == password &&
           forall j :: 0 <= j < k ==> users[j].email != email)
  {
    var found := FindByEmail(users, email);
    if found.Some? {
      var k :| 0 <= k < |users| && users[k] == found.value && found.value.email == email &&
        forall j :: 0 <= j < k ==> users[j].email != email;
      forall k' | 0 <= k' < |users| && users[k'].email == email && forall j :: 0 <= j < k' ==> users[j].email != email
        ensures k' == k
      {
      }
    }
  }

  /** Extra records after the first record of an email do not change what `findOne` returns. */
  lemma {:induction false} FindByEmailAppend(users: seq<UserRecord>, extra: seq<UserRecord>, email: string)
    ensures FindByEmail(users, email).Some? ==> FindByEmail(users + extra, email) == FindByEmail(users, email)
    ensures FindByEmail(users, email).None? ==> FindByEmail(users + extra, email) == FindByEmail(extra, email)
    decreases |users|
  {
    if users == [] {
      assert users + extra == extra;
    } else {
      assert (users + extra)[1..] == users[1..] + extra;
      FindByEmailAppend(users[1..], extra, email);
    }
  }

  /** Registering `(u, e, p)` with an email no record has lets `(e, p)` log in. */
  lemma RegisterThenLogin(users: seq<UserRecord>, username: string, email: string, password: string)
    requires forall u :: u in users ==> u.email != email
    ensures Login(Connected, users + [UserRecord(username, email, password)], email, password)
         == Json(200, true, Some(LoginSucceeded))
  {
    FindByEmailAppend(users, [UserRecord(username, email, password)], email);
  }

  /**
   * Registering an email that is already taken adds a record login never
   * reaches: every login attempt answers as before the registration.
   */
  lemma DuplicateRegistrationShadowed(users: seq<UserRecord>, added: UserRecord, password: string)
    requires exists u :: u in users && u.email == added.email
    ensures Login(Connected, users + [added], added.email, password) == Login(Connected, users, added.email, password)
  {
    FindByEmailAppend(users, [added], added.email);
  }
}
