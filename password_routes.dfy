/** Password reset by token and password change
    (server/src/routes/password.ts). The random token is a parameter. */
module PasswordRoutes {
  import opened Common
  import opened Domain
  import opened UserModel
  import opened AuthMiddleware
  import opened AuthRoutes

  /** A reset token stays valid for one hour, in milliseconds. */
  const ResetWindow: int := 3600000

  /** The answer of `POST /reset`: the token and its expiry are sent back
      only when the e-mail is known. */
  datatype ResetAnswer = ResetAnswer(message: string, token: Option<string>, expires: Option<int>)

  /** `POST /reset`: 400 without an e-mail; for an unknown e-mail a 200
      that changes nothing; otherwise every account with that e-mail gets
      `token`, expiring `ResetWindow` after `now`. */
  method RequestReset(email: Option<string>, users: UserTable, token: string, now: int)
    returns (reply: Reply<ResetAnswer>)
    requires users.Valid()
    modifies users
    ensures users.Valid() && users.nextId == old(users.nextId)
    ensures !TruthyStr(email) ==> reply == Fail(400, "Email is required") && users.rows == old(users.rows)
    ensures (TruthyStr(email) && FindByEmail(old(users.rows), old(users.nextId), email.value).None?) ==>
              && reply == Ok(200, ResetAnswer("If the email exists, a reset token has been generated", None, None))
              && users.rows == old(users.rows)
    ensures (TruthyStr(email) && FindByEmail(old(users.rows), old(users.nextId), email.value).Some?) ==>
              && reply == Ok(200, ResetAnswer("Password reset token generated", Some(token), Some(now + ResetWindow)))
              && users.rows == WithResetToken(old(users.rows), email.value, token, now + ResetWindow)
  {
    if !TruthyStr(email) {
      return Fail(400, "Email is required");
    }
    var user := FindByEmail(users.rows, users.nextId, email.value);
    if user.None? {
      return Ok(200, ResetAnswer("If the email exists, a reset token has been generated", None, None));
    }
    var expires := now + ResetWindow;
    var _ := users.SetResetToken(email.value, token, expires);
    reply := Ok(200, ResetAnswer("Password reset token generated", Some(token), Some(expires)));
  }

  /** What `POST /reset/:token` does to the table once it found `id`: the
      new password's hash is stored and the token is cleared. */
  function AfterReset(rows: map<int, User>, id: int, password: string): (r: map<int, User>)
    ensures r.Keys == rows.Keys
    ensures forall k :: k in r && k != id ==> r[k] == rows[k]
    ensures id in rows ==> r[id] == rows[id].(password := Hash(password), resetToken := None, resetTokenExpires := None)
  {
    WithoutResetToken(WithPassword(rows, id, password), id)
  }

  /** `POST /reset/:token`: 400 without a new password, 400 when no account
      holds the token unexpired at `now`; otherwise that account gets the
      new password and loses the token. */
  method ResetWithToken(token: string, password: Option<string>, users: UserTable, now: int)
    returns (reply: Reply<string>)
    requires users.Valid()
    modifies users
    ensures users.Valid() && users.nextId == old(users.nextId)
    ensures !TruthyStr(password) ==> reply == Fail(400, "New password is required")
    ensures TruthyStr(password) && FindByResetToken(old(users.rows), old(users.nextId), token, now).None?
            ==> reply == Fail(400, "Invalid or expired reset token")
    ensures reply.Ok? <==> TruthyStr(password) && FindByResetToken(old(users.rows), old(users.nextId), token, now).Some?
    ensures reply.Fail? ==> users.rows == old(users.rows)
    ensures reply.Ok? ==>
              && reply == Ok(200, "Password has been reset successfully")
              && users.rows == AfterReset(old(users.rows), FindByResetToken(old(users.rows), old(users.nextId), token, now).value.id, password.value)
  {
    if !TruthyStr(password) {
      return Fail(400, "New password is required");
    }
    var user := FindByResetToken(users.rows, users.nextId, token, now);
    if user.None? {
      return Fail(400, "Invalid or expired reset token");
    }
    users.UpdatePassword(user.value.id, password.value);
    users.ClearResetToken(user.value.id);
    reply := Ok(200, "Password has been reset successfully");
  }

  /** `PUT /change`: 401 without a session, 400 unless both passwords are
      truthy, 404 when no account has the session's e-mail, 401 when the
      current password does not match; otherwise that account gets the new
      password. The account is looked up by the e-mail in the session. */
  method ChangePassword(req: Request, current: Option<string>, replacement: Option<string>, users: UserTable)
    returns (reply: Reply<string>)
    requires users.Valid()
    modifies req, users
    ensures users.Valid() && users.nextId == old(users.nextId) && req.session == old(req.session)
    ensures old(req.session).None? ==> reply == Fail(401, "Authentication required")
    ensures old(req.session).Some? && (!TruthyStr(current) || !TruthyStr(replacement))
            ==> reply == Fail(400, "Current password and new password are required")
    ensures (old(req.session).Some? && TruthyStr(current) && TruthyStr(replacement)
             && FindByEmail(old(users.rows), old(users.nextId), old(req.session).value.email).None?)
            ==> reply == Fail(404, "User not found")
    ensures (old(req.session).Some? && TruthyStr(current) && TruthyStr(replacement)
             && FindByEmail(old(users.rows), old(users.nextId), old(req.session).value.email).Some?
             && !PasswordMatches(current.value, FindByEmail(old(users.rows), old(users.nextId), old(req.session).value.email).value.password))
            ==> reply == Fail(401, "Current password is incorrect")
    ensures reply.Ok? <==>
              && old(req.session).Some? && TruthyStr(current) && TruthyStr(replacement)
              && FindByEmail(old(users.rows), old(users.nextId), old(req.session).value.email).Some?
              && PasswordMatches(current.value, FindByEmail(old(users.rows), old(users.nextId), old(req.session).value.email).value.password)
    ensures reply.Fail? ==> users.rows == old(users.rows)
    ensures reply.Ok? ==>
              && reply == Ok(200, "Password changed successfully")
              && users.rows == WithPassword(old(users.rows),
                                            FindByEmail(old(users.rows), old(users.nextId), old(req.session).value.email).value.id,
                                            replacement.value)
  {
    var gate := RequireAuth(req);
    if gate.Deny? {
      return Fail(gate.code, gate.error);
    }
    if !TruthyStr(current) || !TruthyStr(replacement) {
      return Fail(400, "Current password and new password are required");
    }
    var user := FindByEmail(users.rows, users.nextId, req.user.value.email);
    if user.None? {
      return Fail(404, "User not found");
    }
    var valid := PasswordMatches(current.value, user.value.password);
    if !valid {
      return Fail(401, "Current password is incorrect");
    }
    users.UpdatePassword(user.value.id, replacement.value);
    reply := Ok(200, "Password changed successfully");
  }

  /** A token issued at `t0` to a known e-mail (and held by nobody before)
      is accepted exactly while the clock is before `t0 + ResetWindow`. */
  lemma TokenValidForOneHour(rows: map<int, User>, bound: int, email: string, token: string, t0: int, t: int)
    requires KeyedUsers(rows, bound)
    requires exists k :: k in rows && rows[k].email == email
    requires forall k :: k in rows ==> rows[k].resetToken != Some(token)
    ensures FindByResetToken(WithResetToken(rows, email, token, t0 + ResetWindow), bound, token, t).Some?
            <==> t < t0 + ResetWindow
  {
    var after := WithResetToken(rows, email, token, t0 + ResetWindow);
    if t < t0 + ResetWindow {
      StoredTokenIsFound(rows, bound, email, token, t0 + ResetWindow, t);
    } else {
      forall k | k in after && after[k].resetToken == Some(token)
        ensures after[k].resetTokenExpires == Some(t0 + ResetWindow)
      {
        assert rows[k].email == email;
      }
      var r := FindByResetToken(after, bound, token, t);
      assert KeysBelow(after, bound) by {
        assert after.Keys == rows.Keys;
      }
      RowsAreValues(after, bound);
      assert r.None?;
    }
  }

  /** A reset token works once: after the reset it finds nobody, at any
      later time, unless another account holds the same token. */
  lemma TokenWorksOnce(rows: map<int, User>, bound: int, token: string, password: string, now: int, later: int)
    requires KeyedUsers(rows, bound)
    requires FindByResetToken(rows, bound, token, now).Some?
    requires forall k :: k in rows && k != FindByResetToken(rows, bound, token, now).value.id
                         ==> rows[k].resetToken != Some(token)
    ensures var id := FindByResetToken(rows, bound, token, now).value.id;
            FindByResetToken(AfterReset(rows, id, password), bound, token, later).None?
  {
    var id := FindByResetToken(rows, bound, token, now).value.id;
    var withPassword := WithPassword(rows, id, password);
    assert KeyedUsers(withPassword, bound);
    ClearedTokenIsGone(withPassword, bound, id, token, later);
  }

  /** After a reset, the account logs in with the new password. */
  lemma ResetPasswordLogsIn(rows: map<int, User>, bound: int, token: string, password: string, now: int)
    requires KeyedUsers(rows, bound) && UniqueEmails(rows)
    requires password != ""
    requires FindByResetToken(rows, bound, token, now).Some?
    ensures var u := FindByResetToken(rows, bound, token, now).value;
            var after := AfterReset(rows, u.id, password);
            u.email != "" ==> Authenticate(after, bound, Some(u.email), Some(password)) == Ok(200, after[u.id])
  {
    var u := FindByResetToken(rows, bound, token, now).value;
    RowsAreValues(rows, bound);
    assert u in rows.Values;
    assert u.id in rows && rows[u.id] == u;
    var after := AfterReset(rows, u.id, password);
    if u.email != "" {
      assert KeyedUsers(after, bound);
      AcceptsOnlyHolder(after, bound, password, after[u.id]);
    }
  }

  /** `setResetToken` gives the token to every account sharing the e-mail,
      but a reset clears it from one: the other can use it again. */
  lemma SharedEmailKeepsTokenAlive()
    ensures var a := User(1, "ann@zoo.test", Hash("a"), "Ann", UserRole, None, None, 0);
            var b := User(2, "ann@zoo.test", Hash("b"), "Bob", UserRole, None, None, 0);
            var issued := WithResetToken(map[1 := a, 2 := b], "ann@zoo.test", "t0k3n", ResetWindow);
            var id := FindByResetToken(issued, 3, "t0k3n", 0).value.id;
            && FindByResetToken(issued, 3, "t0k3n", 0).Some?
            && FindByResetToken(AfterReset(issued, id, "new"), 3, "t0k3n", 0).Some?
  {
    var a := User(1, "ann@zoo.test", Hash("a"), "Ann", UserRole, None, None, 0);
    var b := User(2, "ann@zoo.test", Hash("b"), "Bob", UserRole, None, None, 0);
    var rows := map[1 := a, 2 := b];
    var issued := WithResetToken(rows, "ann@zoo.test", "t0k3n", ResetWindow);
    assert 1 in rows && rows[1].email == "ann@zoo.test";
    StoredTokenIsFound(rows, 3, "ann@zoo.test", "t0k3n", ResetWindow, 0);
    var id := FindByResetToken(issued, 3, "t0k3n", 0).value.id;
    var other := if id == 1 then 2 else 1;
    var after := AfterReset(issued, id, "new");
    assert after[other].resetToken == Some("t0k3n") && after[other].resetTokenExpires == Some(ResetWindow);
    RowsAreValues(after, 3);
    assert after[other] in after.Values;
  }
}
