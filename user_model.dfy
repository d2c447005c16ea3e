/** The `users` table (server/src/database/models/User.ts): accounts, their
    password hashes and the password-reset token. */
module UserModel {
  import opened Common
  import opened Domain
  import opened Ordering

  /** What `findById` selects: every column but the password. */
  datatype UserView = UserView(
    id: int,
    email: string,
    name: string,
    role: Role,
    resetToken: Option<string>,
    resetTokenExpires: Option<int>,
    createdAt: int)

  /** What `getAll` selects: id, e-mail, name, role and creation time. */
  datatype UserSummary = UserSummary(id: int, email: string, name: string, role: Role, createdAt: int)

  function ViewOf(u: User): UserView
  {
    UserView(u.id, u.email, u.name, u.role, u.resetToken, u.resetTokenExpires, u.createdAt)
  }

  function SummaryOf(u: User): UserSummary
  {
    UserSummary(u.id, u.email, u.name, u.role, u.createdAt)
  }

  /** Every key lies in [1, bound), the counter is positive and each row
      carries its key as id. */
  ghost predicate KeyedUsers(rows: map<int, User>, bound: int)
  {
    bound >= 1 && KeysBelow(rows, bound) && forall k :: k in rows ==> rows[k].id == k
  }

  /** `findByEmail`: the first row, in primary-key order, with that e-mail. */
  function FindByEmail(rows: map<int, User>, bound: int, email: string): (r: Option<User>)
    ensures r.Some? ==> r.value in Rows(rows, bound) && r.value.email == email
    ensures r.None? ==> forall u :: u in Rows(rows, bound) ==> u.email != email
  {
    var matching := Where(Rows(rows, bound), (u: User) => u.email == email);
    if matching == [] then None
    else
      assert matching[0] in matching;
      Some(matching[0])
  }

  /** On a keyed table `findByEmail` finds a row exactly when some stored
      user has that e-mail. */
  lemma FindByEmailFindsStored(rows: map<int, User>, bound: int, email: string)
    requires KeyedUsers(rows, bound)
    ensures FindByEmail(rows, bound, email).Some? <==> exists k :: k in rows && rows[k].email == email
    ensures FindByEmail(rows, bound, email).Some? ==>
              var u := FindByEmail(rows, bound, email).value;
              u.id in rows && rows[u.id] == u
  {
    RowsAreValues(rows, bound);
    if FindByEmail(rows, bound, email).None? {
      forall k | k in rows ensures rows[k].email != email {
        assert rows[k] in rows.Values;
      }
    }
  }

  /** The only account with an e-mail is the one `findByEmail` returns. */
  lemma OnlyHolderIsFound(rows: map<int, User>, bound: int, u: User)
    requires KeyedUsers(rows, bound)
    requires u.id in rows && rows[u.id] == u
    requires forall k :: k in rows && k != u.id ==> rows[k].email != u.email
    ensures FindByEmail(rows, bound, u.email) == Some(u)
  {
    FindByEmailFindsStored(rows, bound, u.email);
  }

  /** `findById`: the row without its password; null for an unknown id. */
  function FindById(rows: map<int, User>, id: int): (r: Option<UserView>)
    ensures r.Some? <==> id in rows
    ensures r.Some? ==> r.value.id == rows[id].id && r.value.email == rows[id].email
                        && r.value.name == rows[id].name && r.value.role == rows[id].role
                        && r.value.createdAt == rows[id].createdAt
                        && r.value.resetToken == rows[id].resetToken
                        && r.value.resetTokenExpires == rows[id].resetTokenExpires
  {
    if id in rows then Some(ViewOf(rows[id])) else None
  }

  /** `ORDER BY created_at DESC`. */
  predicate JoinedNoEarlier(a: UserSummary, b: UserSummary)
  {
    a.createdAt >= b.createdAt
  }

  /** `getAll`: every user without password or reset token, newest first. */
  function GetAll(rows: map<int, User>, bound: int): (r: seq<UserSummary>)
    ensures Sorted(r, JoinedNoEarlier)
    ensures var all := Rows(rows, bound);
            multiset(r) == multiset(seq(|all|, i requires 0 <= i < |all| => SummaryOf(all[i])))
  {
    var all := Rows(rows, bound);
    assert TotalPreorder(JoinedNoEarlier);
    SortBy(seq(|all|, i requires 0 <= i < |all| => SummaryOf(all[i])), JoinedNoEarlier)
  }

  /** `findByResetToken`: the first row, in primary-key order, holding the
      token with an expiry strictly after `now`. */
  function FindByResetToken(rows: map<int, User>, bound: int, token: string, now: int): (r: Option<User>)
    ensures r.Some? ==> && r.value in Rows(rows, bound)
                        && r.value.resetToken == Some(token)
                        && r.value.resetTokenExpires.Some? && r.value.resetTokenExpires.value > now
    ensures r.None? ==> forall u :: u in Rows(rows, bound) ==>
                          !(u.resetToken == Some(token) && u.resetTokenExpires.Some? && u.resetTokenExpires.value > now)
  {
    var matching := Where(Rows(rows, bound), (u: User) =>
      u.resetToken == Some(token) && u.resetTokenExpires.Some? && u.resetTokenExpires.value > now);
    if matching == [] then None
    else
      assert matching[0] in matching;
      Some(matching[0])
  }

  /** `UPDATE users SET reset_token = ?, reset_token_expires = ? WHERE email = ?`:
      every row with that e-mail gets the token. */
  function WithResetToken(rows: map<int, User>, email: string, token: string, expires: int): (r: map<int, User>)
    ensures r.Keys == rows.Keys
    ensures forall k :: k in r && rows[k].email == email ==>
              r[k] == rows[k].(resetToken := Some(token), resetTokenExpires := Some(expires))
    ensures forall k :: k in r && rows[k].email != email ==> r[k] == rows[k]
  {
    map k | k in rows :: if rows[k].email == email
                         then rows[k].(resetToken := Some(token), resetTokenExpires := Some(expires))
                         else rows[k]
  }

  /** `clearResetToken`: nulls token and expiry of row `id` only. */
  function WithoutResetToken(rows: map<int, User>, id: int): (r: map<int, User>)
    ensures r.Keys == rows.Keys
    ensures id in rows ==> r[id] == rows[id].(resetToken := None, resetTokenExpires := None)
    ensures forall k :: k in r && k != id ==> r[k] == rows[k]
  {
    if id in rows then rows[id := rows[id].(resetToken := None, resetTokenExpires := None)] else rows
  }

  /** `updatePassword`: stores the hash of the new password on row `id`. */
  function WithPassword(rows: map<int, User>, id: int, password: string): (r: map<int, User>)
    ensures r.Keys == rows.Keys
    ensures id in rows ==> r[id] == rows[id].(password := Hash(password))
    ensures forall k :: k in r && k != id ==> r[k] == rows[k]
  {
    if id in rows then rows[id := rows[id].(password := Hash(password))] else rows
  }

  /** A token just stored for an existing e-mail, with an expiry after
      `now`, is found by `findByResetToken` at `now`. */
  lemma StoredTokenIsFound(rows: map<int, User>, bound: int, email: string, token: string, expires: int, now: int)
    requires KeyedUsers(rows, bound) && expires > now
    requires exists k :: k in rows && rows[k].email == email
    ensures FindByResetToken(WithResetToken(rows, email, token, expires), bound, token, now).Some?
  {
    var after := WithResetToken(rows, email, token, expires);
    var k :| k in rows && rows[k].email == email;
    var u := after[k];
    assert u.resetToken == Some(token) && u.resetTokenExpires == Some(expires);
    assert KeysBelow(after, bound) by {
      assert after.Keys == rows.Keys;
    }
    RowsAreValues(after, bound);
    assert u in after.Values;
    assert u in Rows(after, bound);
  }

  /** Once the only row holding a token has it cleared, the token finds
      nobody. */
  lemma ClearedTokenIsGone(rows: map<int, User>, bound: int, id: int, token: string, now: int)
    requires KeyedUsers(rows, bound)
    requires forall k :: k in rows && k != id ==> rows[k].resetToken != Some(token)
    ensures FindByResetToken(WithoutResetToken(rows, id), bound, token, now).None?
  {
    var after := WithoutResetToken(rows, id);
    assert KeysBelow(after, bound);
    RowsAreValues(after, bound);
  }

  /** The partial update body of `update`: `None` or the empty string for a
      property that is falsy. */
  datatype UserPatch = UserPatch(name: Option<string>, email: Option<string>, role: Option<Role>)

  /** The table after `update(id, data)`: only the truthy name and e-mail
      and a given role are written, on row `id` only; with none of them
      nothing changes. */
  function Edited(rows: map<int, User>, id: int, data: UserPatch): (r: map<int, User>)
    ensures r.Keys == rows.Keys
    ensures forall k :: k in r && k != id ==> r[k] == rows[k]
    ensures id in rows ==>
              && r[id].id == rows[id].id && r[id].password == rows[id].password
              && r[id].resetToken == rows[id].resetToken
              && r[id].resetTokenExpires == rows[id].resetTokenExpires
              && r[id].createdAt == rows[id].createdAt
              && r[id].name == (if TruthyStr(data.name) then data.name.value else rows[id].name)
              && r[id].email == (if TruthyStr(data.email) then data.email.value else rows[id].email)
              && r[id].role == (if data.role.Some? then data.role.value else rows[id].role)
    ensures !TruthyStr(data.name) && !TruthyStr(data.email) && data.role.None? ==> r == rows
  {
    if id !in rows then rows
    else
      var u := rows[id];
      rows[id := u.(name := if TruthyStr(data.name) then data.name.value else u.name,
                    email := if TruthyStr(data.email) then data.email.value else u.email,
                    role := if data.role.Some? then data.role.value else u.role)]
  }

  /** No two accounts share an e-mail address. */
  ghost predicate UniqueEmails(rows: map<int, User>)
  {
    forall j, k :: j in rows && k in rows && j != k ==> rows[j].email != rows[k].email
  }

  /** Creating an account for an e-mail `findByEmail` does not know keeps
      the addresses unique. */
  lemma CreateKeepsEmailsUnique(rows: map<int, User>, bound: int, u: User)
    requires KeyedUsers(rows, bound) && UniqueEmails(rows)
    requires FindByEmail(rows, bound, u.email).None?
    ensures UniqueEmails(rows[bound := u])
  {
    FindByEmailFindsStored(rows, bound, u.email);
    assert bound !in rows;
  }

  /** The `users` table: `rows` maps each id to its row. */
  class UserTable {
    var rows: map<int, User>
    var nextId: int

    ghost predicate Valid()
      reads this
    {
      KeyedUsers(rows, nextId)
    }

    constructor (rows0: map<int, User>, nextId0: int)
      requires KeyedUsers(rows0, nextId0)
      ensures Valid() && rows == rows0 && nextId == nextId0
    {
      rows, nextId := rows0, nextId0;
    }

    /** `create`: a new row with role `user`, the hash of the password and
        no reset token, under a fresh id. */
    method Create(email: string, password: string, name: string, now: int) returns (id: int)
      requires Valid()
      modifies this
      ensures Valid()
      ensures id == old(nextId) && id !in old(rows) && nextId == id + 1
      ensures rows == old(rows)[id := User(id, email, Hash(password), name, UserRole, None, None, now)]
    {
      id := nextId;
      rows := rows[id := User(id, email, Hash(password), name, UserRole, None, None, now)];
      nextId := nextId + 1;
    }

    /** `update`: builds the column list from the truthy name and e-mail
        and a given role, and writes nothing when it is empty. */
    method Update(id: int, data: UserPatch)
      requires Valid()
      modifies this
      ensures Valid() && nextId == old(nextId)
      ensures rows == Edited(old(rows), id, data)
    {
      var fields := 0;
      var row := if id in rows then rows[id] else User(id, "", Hash(""), "", UserRole, None, None, 0);
      if TruthyStr(data.name) {
        row := row.(name := data.name.value);
        fields := fields + 1;
      }
      if TruthyStr(data.email) {
        row := row.(email := data.email.value);
        fields := fields + 1;
      }
      if data.role.Some? {
        row := row.(role := data.role.value);
        fields := fields + 1;
      }
      if fields == 0 {
        return;
      }
      if id in rows {
        rows := rows[id := row];
      }
    }

    /** `delete`: removes exactly row `id`. */
    method Delete(id: int)
      requires Valid()
      modifies this
      ensures Valid() && nextId == old(nextId)
      ensures rows == old(rows) - {id}
    {
      rows := rows - {id};
    }

    /** `updatePassword`. */
    method UpdatePassword(id: int, password: string)
      requires Valid()
      modifies this
      ensures Valid() && nextId == old(nextId)
      ensures rows == WithPassword(old(rows), id, password)
    {
      rows := WithPassword(rows, id, password);
    }

    /** `setResetToken`: stores the token on every row with that e-mail and
        reports whether there was one. */
    method SetResetToken(email: string, token: string, expires: int) returns (found: bool)
      requires Valid()
      modifies this
      ensures Valid() && nextId == old(nextId)
      ensures found <==> exists k :: k in old(rows) && old(rows)[k].email == email
      ensures rows == WithResetToken(old(rows), email, token, expires)
    {
      found := exists k :: k in rows && rows[k].email == email;
      rows := WithResetToken(rows, email, token, expires);
    }

    /** `clearResetToken`. */
    method ClearResetToken(id: int)
      requires Valid()
      modifies this
      ensures Valid() && nextId == old(nextId)
      ensures rows == WithoutResetToken(old(rows), id)
    {
      rows := WithoutResetToken(rows, id);
    }
  }
}
