/** Registration, login, logout and the current user
    (server/src/routes/auth.ts). */
module AuthRoutes {
  import opened Common
  import opened Domain
  import opened UserModel
  import opened AuthMiddleware

  /** The user object in the answers of `register` and `login`. */
  datatype Profile = Profile(id: int, email: string, name: string, role: Role)

  /** The user object in the answers of `GET /me` and `GET /profile`. */
  datatype Account = Account(id: int, email: string, name: string, role: Role, createdAt: int)

  function ProfileOf(u: User): Profile
  {
    Profile(u.id, u.email, u.name, u.role)
  }

  /** What a successful login or registration stores in the session. */
  function SessionOf(u: User): SessionUser
  {
    SessionUser(u.id, u.email, u.role)
  }

  /** The credential check of `POST /login`: 400 unless both are truthy,
      then one and the same 401 whether the e-mail is unknown or the
      password wrong. */
  function Authenticate(rows: map<int, User>, bound: int, email: Option<string>, password: Option<string>): (r: Reply<User>)
    ensures !TruthyStr(email) || !TruthyStr(password) ==> r == Fail(400, "Email and password are required")
    ensures r.Ok? ==> && r.code == 200 && r.value in Rows(rows, bound)
                      && r.value.email == email.value && PasswordMatches(password.value, r.value.password)
    ensures TruthyStr(email) && TruthyStr(password) && r.Fail? ==> r == Fail(401, "Invalid email or password")
    ensures TruthyStr(email) && TruthyStr(password) && FindByEmail(rows, bound, email.value).None?
            ==> r == Fail(401, "Invalid email or password")
    ensures TruthyStr(email) && TruthyStr(password) && FindByEmail(rows, bound, email.value).Some?
            && PasswordMatches(password.value, FindByEmail(rows, bound, email.value).value.password)
            ==> r == Ok(200, FindByEmail(rows, bound, email.value).value)
    ensures TruthyStr(email) && TruthyStr(password) && FindByEmail(rows, bound, email.value).Some?
            && !PasswordMatches(password.value, FindByEmail(rows, bound, email.value).value.password)
            ==> r == Fail(401, "Invalid email or password")
  {
    if !TruthyStr(email) || !TruthyStr(password) then Fail(400, "Email and password are required")
    else match FindByEmail(rows, bound, email.value)
      case None => Fail(401, "Invalid email or password")
      case Some(u) =>
        if !PasswordMatches(password.value, u.password) then Fail(401, "Invalid email or password")
        else Ok(200, u)
  }

  /** `POST /register`: 400 unless e-mail, password and name are truthy,
      409 when `findByEmail` knows the e-mail; otherwise a new `user`
      account holding the hash of the password, whose id, e-mail and role
      become the session. */
  method Register(req: Request, email: Option<string>, password: Option<string>, name: Option<string>,
                  users: UserTable, now: int) returns (reply: Reply<Profile>)
    requires users.Valid()
    modifies req, users
    ensures users.Valid()
    ensures !TruthyStr(email) || !TruthyStr(password) || !TruthyStr(name)
            ==> reply == Fail(400, "Email, password, and name are required")
    ensures (TruthyStr(email) && TruthyStr(password) && TruthyStr(name)
             && FindByEmail(old(users.rows), old(users.nextId), email.value).Some?)
            ==> reply == Fail(409, "Email already registered")
    ensures reply.Ok? <==> TruthyStr(email) && TruthyStr(password) && TruthyStr(name)
                           && FindByEmail(old(users.rows), old(users.nextId), email.value).None?
    ensures reply.Fail? ==> && users.rows == old(users.rows) && users.nextId == old(users.nextId)
                            && req.session == old(req.session)
    ensures reply.Ok? ==>
              var id := old(users.nextId);
              var u := User(id, email.value, Hash(password.value), name.value, UserRole, None, None, now);
              && users.rows == old(users.rows)[id := u]
              && users.nextId == id + 1
              && req.session == Some(SessionOf(u))
              && reply == Ok(201, ProfileOf(u))
  {
    if !TruthyStr(email) || !TruthyStr(password) || !TruthyStr(name) {
      return Fail(400, "Email, password, and name are required");
    }
    var existing := FindByEmail(users.rows, users.nextId, email.value);
    if existing.Some? {
      return Fail(409, "Email already registered");
    }
    var id := users.Create(email.value, password.value, name.value, now);
    var user := FindById(users.rows, id);
    var u := users.rows[id];
    req.session := Some(SessionUser(user.value.id, user.value.email, user.value.role));
    reply := Ok(201, ProfileOf(u));
  }

  /** `POST /login`: the session becomes the account `Authenticate`
      accepts; a refused login leaves the session alone. */
  method Login(req: Request, email: Option<string>, password: Option<string>, users: UserTable)
    returns (reply: Reply<Profile>)
    modifies req
    ensures var auth := Authenticate(users.rows, users.nextId, email, password);
            && (auth.Fail? ==> reply == Fail(auth.code, auth.error) && req.session == old(req.session))
            && (auth.Ok? ==> reply == Ok(200, ProfileOf(auth.value)) && req.session == Some(SessionOf(auth.value)))
  {
    if !TruthyStr(email) || !TruthyStr(password) {
      return Fail(400, "Email and password are required");
    }
    var user := FindByEmail(users.rows, users.nextId, email.value);
    if user.None? {
      return Fail(401, "Invalid email or password");
    }
    var valid := PasswordMatches(password.value, user.value.password);
    if !valid {
      return Fail(401, "Invalid email or password");
    }
    req.session := Some(SessionOf(user.value));
    reply := Ok(200, ProfileOf(user.value));
  }

  /** `POST /logout`: `destroyed` says whether the session store managed to
      destroy the session. */
  method Logout(req: Request, destroyed: bool) returns (reply: Reply<string>)
    modifies req
    ensures destroyed ==> req.session == None && reply == Ok(200, "Logout successful")
    ensures !destroyed ==> req.session == old(req.session) && reply == Fail(500, "Logout failed")
  {
    if !destroyed {
      return Fail(500, "Logout failed");
    }
    req.session := None;
    reply := Ok(200, "Logout successful");
  }

  /** `GET /me`: 401 without a session, 404 when the session's account is
      gone, otherwise that account as it is stored now. */
  method Me(req: Request, users: UserTable) returns (reply: Reply<Account>)
    modifies req
    ensures req.session == old(req.session)
    ensures old(req.session).None? ==> reply == Fail(401, "Authentication required")
    ensures old(req.session).Some? && old(req.session).value.id !in users.rows ==> reply == Fail(404, "User not found")
    ensures reply.Ok? <==> old(req.session).Some? && old(req.session).value.id in users.rows
    ensures reply.Ok? ==>
              var u := users.rows[old(req.session).value.id];
              reply == Ok(200, Account(u.id, u.email, u.name, u.role, u.createdAt))
  {
    var gate := RequireAuth(req);
    if gate.Deny? {
      return Fail(gate.code, gate.error);
    }
    var user := FindById(users.rows, req.user.value.id);
    if user.None? {
      return Fail(404, "User not found");
    }
    var u := user.value;
    reply := Ok(200, Account(u.id, u.email, u.name, u.role, u.createdAt));
  }

  /** Whoever registers is the account a later login with the same e-mail
      finds, and holds the hash of the password given; with the success
      case of `Authenticate` the login is then accepted. */
  lemma RegisteredUserCanLogIn(rows: map<int, User>, bound: int, email: string, password: string,
                               name: string, now: int)
    requires KeyedUsers(rows, bound)
    requires email != "" && password != ""
    requires forall k :: k in rows ==> rows[k].email != email
    ensures var u := User(bound, email, Hash(password), name, UserRole, None, None, now);
            FindByEmail(rows[bound := u], bound + 1, email) == Some(u) && PasswordMatches(password, u.password)
  {
    var u := User(bound, email, Hash(password), name, UserRole, None, None, now);
    var after := rows[bound := u];
    InsertedIsOnlyHolder(rows, bound, u, after);
    OnlyHolderIsFound(after, bound + 1, u);
  }

  /** A new row at `bound` whose e-mail nobody has is its e-mail's only
      holder. */
  lemma InsertedIsOnlyHolder(rows: map<int, User>, bound: int, u: User, after: map<int, User>)
    requires KeyedUsers(rows, bound) && u.id == bound && after == rows[bound := u]
    requires forall k :: k in rows ==> rows[k].email != u.email
    ensures KeyedUsers(after, bound + 1) && u.id in after && after[u.id] == u
    ensures forall k :: k in after && k != u.id ==> after[k].email != u.email
  {
  }

  /** The only account holding an e-mail is accepted with its own
      password. */
  lemma AcceptsOnlyHolder(rows: map<int, User>, bound: int, password: string, u: User)
    requires KeyedUsers(rows, bound)
    requires u.email != "" && password != "" && PasswordMatches(password, u.password)
    requires u.id in rows && rows[u.id] == u
    requires forall k :: k in rows && k != u.id ==> rows[k].email != u.email
    ensures Authenticate(rows, bound, Some(u.email), Some(password)) == Ok(200, u)
  {
    OnlyHolderIsFound(rows, bound, u);
  }

  /** A login with the wrong password is refused, whoever owns the e-mail. */
  lemma WrongPasswordRefused(rows: map<int, User>, bound: int, email: string, password: string)
    requires KeyedUsers(rows, bound)
    requires email != "" && password != ""
    requires forall k :: k in rows && rows[k].email == email ==> !PasswordMatches(password, rows[k].password)
    ensures Authenticate(rows, bound, Some(email), Some(password)) == Fail(401, "Invalid email or password")
  {
    FindByEmailFindsStored(rows, bound, email);
  }
}
