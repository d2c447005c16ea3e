/** The signed-in user's own profile (server/src/routes/user.ts); every
    route sits behind `requireAuth`. */
module UserRoutes {
  import opened Common
  import opened Domain
  import opened UserModel
  import opened AuthMiddleware
  import opened AuthRoutes

  function AccountOf(u: UserView): Account
  {
    Account(u.id, u.email, u.name, u.role, u.createdAt)
  }

  /** `GET /profile`: 401 without a session, 404 when the account is gone,
      otherwise the stored account. */
  method GetProfile(req: Request, users: UserTable) returns (reply: Reply<Account>)
    modifies req
    ensures req.session == old(req.session)
    ensures old(req.session).None? ==> reply == Fail(401, "Authentication required")
    ensures old(req.session).Some? && old(req.session).value.id !in users.rows ==> reply == Fail(404, "User not found")
    ensures reply.Ok? <==> old(req.session).Some? && old(req.session).value.id in users.rows
    ensures reply.Ok? ==>
              var u := users.rows[old(req.session).value.id];
              reply == Ok(200, Account(u.id, u.email, u.name, u.role, u.createdAt))
  {
    var gate := RequireAuth(req);
    if gate.Deny? {
      return Fail(gate.code, gate.error);
    }
    var user := FindById(users.rows, req.user.value.id);
    if user.None? {
      return Fail(404, "User not found");
    }
    reply := Ok(200, AccountOf(user.value));
  }

  /** The 409 guard of `PUT /profile`: a truthy e-mail must be unknown or
      already the caller's. */
  predicate EmailFree(rows: map<int, User>, bound: int, id: int, email: Option<string>)
  {
    TruthyStr(email) ==>
      var existing := FindByEmail(rows, bound, email.value);
      existing.None? || existing.value.id == id
  }

  /** `PUT /profile`: 401 without a session, 400 unless name or e-mail is
      truthy, 409 when the e-mail belongs to someone else; otherwise
      `update` with the truthy name and e-mail. The session takes the
      stored e-mail and role only when an e-mail was sent and the account
      still exists; the answer is the account as stored now, `None` when it
      is gone. */
  method UpdateProfile(req: Request, name: Option<string>, email: Option<string>, users: UserTable)
    returns (reply: Reply<Option<Account>>)
    requires users.Valid()
    modifies req, users
    ensures users.Valid() && users.nextId == old(users.nextId)
    ensures old(req.session).None? ==> reply == Fail(401, "Authentication required")
    ensures old(req.session).Some? && !TruthyStr(name) && !TruthyStr(email)
            ==> reply == Fail(400, "At least one field (name or email) is required")
    ensures (old(req.session).Some? && (TruthyStr(name) || TruthyStr(email))
             && !EmailFree(old(users.rows), old(users.nextId), old(req.session).value.id, email))
            ==> reply == Fail(409, "Email already in use")
    ensures reply.Ok? <==> old(req.session).Some? && (TruthyStr(name) || TruthyStr(email))
                           && EmailFree(old(users.rows), old(users.nextId), old(req.session).value.id, email)
    ensures reply.Fail? ==> users.rows == old(users.rows) && req.session == old(req.session)
    ensures reply.Ok? ==>
              var id := old(req.session).value.id;
              && users.rows == Edited(old(users.rows), id, UserPatch(name, email, None))
              && (id in users.rows ==>
                    reply == Ok(200, Some(AccountOf(ViewOf(users.rows[id])))))
              && (id !in users.rows ==> reply == Ok(200, None))
              && (id in users.rows && TruthyStr(email) ==>
                    req.session == Some(SessionUser(id, email.value, users.rows[id].role)))
              && (id !in users.rows || !TruthyStr(email) ==> req.session == old(req.session))
  {
    var gate := RequireAuth(req);
    if gate.Deny? {
      return Fail(gate.code, gate.error);
    }
    var me := req.user.value.id;
    if !TruthyStr(name) && !TruthyStr(email) {
      return Fail(400, "At least one field (name or email) is required");
    }
    if TruthyStr(email) {
      var existing := FindByEmail(users.rows, users.nextId, email.value);
      if existing.Some? && existing.value.id != me {
        return Fail(409, "Email already in use");
      }
    }
    users.Update(me, UserPatch(name, email, None));
    var updated := FindById(users.rows, me);
    if updated.Some? && TruthyStr(email) {
      req.session := Some(SessionUser(updated.value.id, updated.value.email, updated.value.role));
    }
    if updated.Some? {
      reply := Ok(200, Some(AccountOf(updated.value)));
    } else {
      reply := Ok(200, None);
    }
  }

  /** An edit that passed the 409 guard keeps e-mail addresses unique. */
  lemma ProfileEditKeepsEmailsUnique(rows: map<int, User>, bound: int, id: int, name: Option<string>, email: Option<string>)
    requires KeyedUsers(rows, bound) && UniqueEmails(rows)
    requires EmailFree(rows, bound, id, email)
    ensures UniqueEmails(Edited(rows, id, UserPatch(name, email, None)))
  {
    var after := Edited(rows, id, UserPatch(name, email, None));
    if TruthyStr(email) && id in rows {
      FindByEmailFindsStored(rows, bound, email.value);
      forall k | k in rows && k != id ensures rows[k].email != email.value {
        var existing := FindByEmail(rows, bound, email.value);
        if existing.Some? {
          assert rows[existing.value.id].email == email.value;
        }
      }
      forall j, k | j in after && k in after && j != k ensures after[j].email != after[k].email {
        if j != id && k != id {
          assert after[j] == rows[j] && after[k] == rows[k];
        }
      }
    }
  }
}
