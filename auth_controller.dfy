/**
 * The auth controller (backend/controllers/authController.js): `register`
 * adds a user, `login` checks a password, `getMe` echoes the user the
 * middleware resolved. Password hashing, password comparison and token
 * signing are parameters: `hash` is the schema's pre-save hashing, `matches`
 * is `comparePassword`, `sign` is `generateToken`.
 */
module AuthController {
  import opened Wrappers
  import opened Json
  import opened Tables
  import opened Validation
  import opened Responses
  import opened UserModel
  import opened Store
  import opened AuthMiddleware

  /** What `register` leaves in the user collection, and what it answers. */
  datatype UsersOutcome = UsersOutcome(users: seq<User>, response: Response)

  const RegisterRequired: seq<string> := ["username", "email", "password"]
  const LoginRequired: seq<string> := ["email", "password"]

  /** The body of a successful register or login: the token and the public user object. */
  function Credentials(token: string, u: User): JsValue {
    Obj(map["token" := Str(token), "user" := PublicUserJson(u)])
  }

  // ------------------------------------------------------------ register

  /** The `$or` condition of the existence check: the same email or the same username. */
  function SharesLogin(email: string, username: string): User -> bool {
    (u: User) => u.email == email || u.username == username
  }

  /**
   * `role` as `User.create` takes it: absent means the schema default, a
   * string must pass the schema's role validator, anything else fails the cast.
   */
  function RoleOf(v: JsValue, defaultRole: string, roleAllowed: string -> bool): (r: Result<string, Failure>)
    ensures v.Undefined? ==> r == Ok(defaultRole)
    ensures v.Str? ==> (r.Ok? <==> roleAllowed(v.s))
    ensures v.Str? && r.Ok? ==> r.value == v.s
    ensures !v.Undefined? && !v.Str? ==> r.Err?
  {
    match v
    case Undefined => Ok(defaultRole)
    case Str(s) => if roleAllowed(s) then Ok(s) else Err(ValidationFailed)
    case _ => Err(CastFailed)
  }

  /** The document `User.create` stores: the password through the schema's hashing, the role as `RoleOf` reads it. */
  function NewUser(body: map<string, JsValue>, newId: Id, defaultRole: string, roleAllowed: string -> bool, hash: string -> string): (r: Result<User, Failure>)
    ensures r.Ok? <==>
      && Get(body, "username").Str? && Get(body, "email").Str? && Get(body, "password").Str?
      && RoleOf(Get(body, "role"), defaultRole, roleAllowed).Ok?
    ensures r.Ok? ==> r.value.id == newId && r.value.username == Get(body, "username").s && r.value.email == Get(body, "email").s
    ensures r.Ok? ==> r.value.password == hash(Get(body, "password").s)
    ensures r.Ok? ==> r.value.role == RoleOf(Get(body, "role"), defaultRole, roleAllowed).value
  {
    var username, email, password := Get(body, "username"), Get(body, "email"), Get(body, "password");
    if !username.Str? || !email.Str? || !password.Str? then Err(CastFailed)
    else
      match RoleOf(Get(body, "role"), defaultRole, roleAllowed)
      case Err(f) => Err(f)
      case Ok(role) => Ok(User(newId, username.s, email.s, hash(password.s), role))
  }

  /** Whether a stored user has the email or the username of the body. */
  predicate Taken(users: seq<User>, body: map<string, JsValue>)
    requires Get(body, "email").Str? && Get(body, "username").Str?
  {
    exists i :: 0 <= i < |users| && (users[i].email == Get(body, "email").s || users[i].username == Get(body, "username").s)
  }

  /** `register` once the required fields are there: the existence check, then `User.create`. */
  function Enroll(
    users: seq<User>, body: map<string, JsValue>, newId: Id, defaultRole: string,
    roleAllowed: string -> bool, hash: string -> string, sign: Id -> string): (o: UsersOutcome)
    ensures Conforms(o.response)
    ensures o.response.httpStatus == 201 <==> o.users != users
    ensures Get(body, "email").Str? && Get(body, "username").Str? && Taken(users, body) ==>
      o == UsersOutcome(users, SendError(400, "User already exists"))
    ensures o.users != users ==>
      && NewUser(body, newId, defaultRole, roleAllowed, hash).Ok?
      && !Taken(users, body)
      && (forall i :: 0 <= i < |users| ==> users[i].id != newId)
      && o.users == users + [NewUser(body, newId, defaultRole, roleAllowed, hash).value]
      && o.response.body.result == Some(Credentials(sign(newId), NewUser(body, newId, defaultRole, roleAllowed, hash).value))
    ensures Get(body, "email").Str? && Get(body, "username").Str? && !Taken(users, body) &&
            NewUser(body, newId, defaultRole, roleAllowed, hash).Ok? && (forall i :: 0 <= i < |users| ==> users[i].id != newId) ==>
      var u := NewUser(body, newId, defaultRole, roleAllowed, hash).value;
      o == UsersOutcome(users + [u], SendCreated("User registered successfully", Credentials(sign(newId), u)))
  {
    var username, email := Get(body, "username"), Get(body, "email");
    if !email.Str? || !username.Str? then UsersOutcome(users, SendCaught(500, CastFailed))
    else if FirstIndex(users, SharesLogin(email.s, username.s)).Some? then
      UsersOutcome(users, SendError(400, "User already exists"))
    else
      assert !Taken(users, body) by {
        forall i | 0 <= i < |users| ensures !SharesLogin(email.s, username.s)(users[i]) { }
      }
      match NewUser(body, newId, defaultRole, roleAllowed, hash)
      case Err(f) => UsersOutcome(users, SendCaught(500, f))
      case Ok(u) =>
        if FirstIndex(users, HasUserId(newId)).Some? then UsersOutcome(users, SendCaught(500, DuplicateKey))
        else
          assert forall i :: 0 <= i < |users| ==> !HasUserId(newId)(users[i]);
          assert |users + [u]| != |users|;
          UsersOutcome(users + [u], SendCreated("User registered successfully", Credentials(sign(u.id), u)))
  }

  /**
   * `register`, with the new document id, the schema's default role and role
   * validator, the hashing and the signing as parameters.
   */
  function RegisterSpec(
    users: seq<User>, body: map<string, JsValue>, newId: Id, defaultRole: string,
    roleAllowed: string -> bool, hash: string -> string, sign: Id -> string): (o: UsersOutcome)
    ensures Missing(body, RegisterRequired) != [] ==>
      o == UsersOutcome(users, SendMissingParam(Missing(body, RegisterRequired)))
    ensures Missing(body, RegisterRequired) == [] ==> o == Enroll(users, body, newId, defaultRole, roleAllowed, hash, sign)
    ensures Conforms(o.response)
    ensures o.response.httpStatus == 201 <==> o.users != users
  {
    var missing := Missing(body, RegisterRequired);
    if |missing| > 0 then UsersOutcome(users, SendMissingParam(missing))
    else Enroll(users, body, newId, defaultRole, roleAllowed, hash, sign)
  }

  /** Registering keeps ids, emails and usernames unique. */
  lemma RegisterPreservesTable(
    users: seq<User>, body: map<string, JsValue>, newId: Id, defaultRole: string,
    roleAllowed: string -> bool, hash: string -> string, sign: Id -> string)
    requires UserTableValid(users)
    ensures UserTableValid(RegisterSpec(users, body, newId, defaultRole, roleAllowed, hash, sign).users)
  {
    var o := RegisterSpec(users, body, newId, defaultRole, roleAllowed, hash, sign);
    if o.users != users {
      var u := NewUser(body, newId, defaultRole, roleAllowed, hash).value;
      assert forall i :: 0 <= i < |users| ==> users[i].id != u.id && users[i].email != u.email && users[i].username != u.username;
      AppendKeepsUserTable(users, u);
    }
  }

  method Register(
    db: Database, body: map<string, JsValue>, newId: Id, defaultRole: string,
    roleAllowed: string -> bool, hash: string -> string, sign: Id -> string) returns (resp: Response)
    modifies db
    ensures var o := RegisterSpec(old(db.users), body, newId, defaultRole, roleAllowed, hash, sign);
      db.users == o.users && resp == o.response
    ensures db.items == old(db.items) && db.customers == old(db.customers) && db.sales == old(db.sales)
    ensures old(db.Valid()) ==> db.Valid()
  {
    if UserTableValid(db.users) {
      RegisterPreservesTable(db.users, body, newId, defaultRole, roleAllowed, hash, sign);
    }
    var o := RegisterSpec(db.users, body, newId, defaultRole, roleAllowed, hash, sign);
    db.users := o.users;
    resp := o.response;
  }

  // ------------------------------------------------------------ login

  /** `User.findOne({ email })`. */
  function UserByEmail(users: seq<User>, email: string): (r: Option<User>)
    ensures r.Some? ==> r.value in users && r.value.email == email
    ensures r.None? <==> forall i :: 0 <= i < |users| ==> users[i].email != email
  {
    match FirstIndex(users, HasEmail(email))
    case None => None
    case Some(k) => Some(users[k])
  }

  /** A user appended with an email no stored user has is the one the email finds. */
  lemma FindsAppendedEmail(users: seq<User>, u: User)
    requires forall i :: 0 <= i < |users| ==> users[i].email != u.email
    ensures UserByEmail(users + [u], u.email) == Some(u)
  {
    var all := users + [u];
    assert all[|users|] == u;
    var r := UserByEmail(all, u.email);
    var k :| 0 <= k < |all| && all[k] == r.value;
    assert k == |users|;
  }

  const InvalidCredentials: string := "Invalid credentials"

  /**
   * `login`: an unknown email and a wrong password get the same 401; a
   * value the query or the comparison cannot take is a 500.
   */
  function LoginSpec(users: seq<User>, body: map<string, JsValue>, matches: (string, string) -> bool, sign: Id -> string): (r: Response)
    ensures Conforms(r)
    ensures Missing(body, LoginRequired) != [] ==> r == SendMissingParam(Missing(body, LoginRequired))
    ensures r.httpStatus == 401 ==> r == SendError(401, InvalidCredentials)
    ensures r.httpStatus == 200 ==>
      && Get(body, "email").Str? && Get(body, "password").Str?
      && var u := UserByEmail(users, Get(body, "email").s);
      && u.Some? && matches(Get(body, "password").s, u.value.password)
      && r.body.result == Some(Credentials(sign(u.value.id), u.value))
    ensures Missing(body, LoginRequired) == [] && Get(body, "email").Str? && UserByEmail(users, Get(body, "email").s).None? ==>
      r == SendError(401, InvalidCredentials)
    ensures Missing(body, LoginRequired) == [] && Get(body, "email").Str? && Get(body, "password").Str? &&
            UserByEmail(users, Get(body, "email").s).Some? &&
            !matches(Get(body, "password").s, UserByEmail(users, Get(body, "email").s).value.password) ==>
      r == SendError(401, InvalidCredentials)
  {
    var missing := Missing(body, LoginRequired);
    if |missing| > 0 then SendMissingParam(missing)
    else Authenticate(users, Get(body, "email"), Get(body, "password"), matches, sign)
  }

  /** `login` once both fields are present: look the email up, then compare the password with the stored hash. */
  function Authenticate(users: seq<User>, email: JsValue, password: JsValue, matches: (string, string) -> bool, sign: Id -> string): (r: Response)
    ensures Conforms(r)
    ensures r.httpStatus == 401 ==> r == SendError(401, InvalidCredentials)
    ensures r.httpStatus == 200 ==>
      && email.Str? && password.Str?
      && var u := UserByEmail(users, email.s);
      && u.Some? && matches(password.s, u.value.password)
      && r.body.result == Some(Credentials(sign(u.value.id), u.value))
    ensures email.Str? && UserByEmail(users, email.s).None? ==> r == SendError(401, InvalidCredentials)
    ensures email.Str? && password.Str? && UserByEmail(users, email.s).Some? &&
            !matches(password.s, UserByEmail(users, email.s).value.password) ==>
      r == SendError(401, InvalidCredentials)
  {
    if !email.Str? then SendCaught(500, CastFailed)
    else
      match UserByEmail(users, email.s)
      case None => SendError(401, InvalidCredentials)
      case Some(u) =>
        if !password.Str? then SendCaught(500, CastFailed)
        else if !matches(password.s, u.password) then SendError(401, InvalidCredentials)
        else SendSuccess("Login successful", Credentials(sign(u.id), u))
  }

  /** With unique emails, a well-formed login succeeds exactly when the stored password matches. */
  lemma LoginSucceedsIff(users: seq<User>, body: map<string, JsValue>, matches: (string, string) -> bool, sign: Id -> string)
    requires UserTableValid(users)
    requires Missing(body, LoginRequired) == [] && Get(body, "email").Str? && Get(body, "password").Str?
    ensures var r := LoginSpec(users, body, matches, sign);
      r.httpStatus == 200 <==>
        exists i :: 0 <= i < |users| && users[i].email == Get(body, "email").s && matches(Get(body, "password").s, users[i].password)
  {
    var email, password := Get(body, "email").s, Get(body, "password").s;
    var found := UserByEmail(users, email);
    if found.Some? {
      forall i | 0 <= i < |users| && users[i].email == email
        ensures users[i] == found.value
      {
        var k :| 0 <= k < |users| && users[k] == found.value;
        assert users[i].email == users[k].email;
      }
    }
  }

  /** The fields `register` requires include those `login` requires. */
  lemma RegisterRequiresLoginFields(body: map<string, JsValue>)
    requires Missing(body, RegisterRequired) == []
    ensures Missing(body, LoginRequired) == []
  {
    NothingMissingIff(body, RegisterRequired);
    NothingMissingIff(body, LoginRequired);
    assert LoginRequired[0] == RegisterRequired[1] && LoginRequired[1] == RegisterRequired[2];
  }

  /**
   * A user just registered can log in with the same body, provided the
   * comparison accepts the password against its own hash, and receives the
   * same public user object.
   */
  lemma RegisterThenLogin(
    users: seq<User>, body: map<string, JsValue>, newId: Id, defaultRole: string,
    roleAllowed: string -> bool, hash: string -> string, matches: (string, string) -> bool, sign: Id -> string)
    requires Get(body, "password").Str? ==> matches(Get(body, "password").s, hash(Get(body, "password").s))
    ensures var o := RegisterSpec(users, body, newId, defaultRole, roleAllowed, hash, sign);
      o.response.httpStatus == 201 ==>
        var r := LoginSpec(o.users, body, matches, sign);
        r.httpStatus == 200 && r.body.result == o.response.body.result
  {
    var o := RegisterSpec(users, body, newId, defaultRole, roleAllowed, hash, sign);
    if o.response.httpStatus == 201 {
      RegisterRequiresLoginFields(body);
      var email := Get(body, "email").s;
      var u := NewUser(body, newId, defaultRole, roleAllowed, hash).value;
      var password := Get(body, "password").s;
      FindsAppendedEmail(users, u);
      assert u.password == hash(password) && matches(password, u.password);
      assert LoginSpec(o.users, body, matches, sign) == SendSuccess("Login successful", Credentials(sign(newId), u));
    }
  }

  // ------------------------------------------------------------ getMe

  /** `getMe`: the user `protect` loaded, without the password, unchanged. */
  function GetMe(user: User): (r: Response)
    ensures Conforms(r) && r.httpStatus == 200
    ensures r.body.result == Some(Obj(map["user" := SelectedUserJson(user)]))
  {
    SendSuccess("User retrieved successfully", Obj(map["user" := SelectedUserJson(user)]))
  }

  /**
   * The token a user holds, sent back as `Bearer <token>`, gets that user
   * through `protect` in a valid collection, and `getMe` then shows exactly
   * that user's id, username, email and role.
   */
  lemma TokenHolderSeesSelf(users: seq<User>, u: User, token: string, verify: string -> Option<Id>)
    requires UserTableValid(users) && u in users
    requires token != "" && ' ' !in token && verify(token) == Some(u.id)
    ensures ProtectSpec(Some("Bearer " + token), verify, users) == Pass(u)
    ensures GetMe(u).body.result == Some(Obj(map["user" := SelectedUserJson(u)]))
    ensures SelectedUserJson(u).fields == map["_id" := Str(u.id), "username" := Str(u.username), "email" := Str(u.email), "role" := Str(u.role)]
  {
    BearerRoundTrip(token, None);
    assert "Bearer " + token + "" == "Bearer " + token;
    var g := ProtectSpec(Some("Bearer " + token), verify, users);
    var i :| 0 <= i < |users| && users[i] == u;
    assert g.Pass?;
    var j :| 0 <= j < |users| && users[j] == g.user;
    assert users[j].id == users[i].id;
    assert i == j;
  }
}
