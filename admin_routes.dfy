/** The administration endpoints (server/src/routes/admin.ts). Every one of
    them sits behind `requireAdmin`, which runs before the id is parsed. */
module AdminRoutes {
  import opened Common
  import opened Domain
  import opened RoomTypeModel
  import opened BookingModel
  import opened TicketModel
  import opened UserModel
  import opened AuthMiddleware

  /** The spelling of each status in the `status` column and in request
      bodies. */
  function StatusName(s: Status): string
  {
    match s
    case Pending => "pending"
    case Confirmed => "confirmed"
    case Cancelled => "cancelled"
    case Completed => "completed"
  }

  /** The whitelist of `PUT /bookings/:id`: a falsy or unknown status is
      `None`. */
  function ParseStatus(text: Option<string>): (r: Option<Status>)
    ensures r.Some? ==> text == Some(StatusName(r.value))
    ensures r.None? ==> forall s :: text != Some(StatusName(s))
  {
    if text == Some("pending") then Some(Pending)
    else if text == Some("confirmed") then Some(Confirmed)
    else if text == Some("cancelled") then Some(Cancelled)
    else if text == Some("completed") then Some(Completed)
    else None
  }

  /** Every status is accepted under its own name. */
  lemma ParseStatusAcceptsEveryName(s: Status)
    ensures ParseStatus(Some(StatusName(s))) == Some(s)
  {
  }

  /** The spelling of each role in the `role` column. */
  function RoleName(role: Role): string
  {
    match role
    case UserRole => "user"
    case AdminRole => "admin"
  }

  /** The `role` property of `PUT /users/:id`: a falsy or unrecognised role
      is `None`, and `update` then leaves the column alone. */
  function ParseRole(text: Option<string>): (r: Option<Role>)
    ensures r.Some? ==> text == Some(RoleName(r.value))
    ensures r.None? ==> forall role :: text != Some(RoleName(role))
  {
    if text == Some("user") then Some(UserRole)
    else if text == Some("admin") then Some(AdminRole)
    else None
  }

  /** `GET /users`: every account, newest first, without secrets. */
  method ListUsers(req: Request, users: UserTable) returns (reply: Reply<seq<UserSummary>>)
    modifies req
    ensures req.session == old(req.session)
    ensures Decide(old(req.session), true).Deny? ==>
              reply == Fail(Decide(old(req.session), true).code, Decide(old(req.session), true).error)
    ensures Decide(old(req.session), true).Next? ==> reply == Ok(200, UserModel.GetAll(users.rows, users.nextId))
  {
    var gate := RequireAdmin(req);
    if gate.Deny? {
      return Fail(gate.code, gate.error);
    }
    reply := Ok(200, UserModel.GetAll(users.rows, users.nextId));
  }

  /** The body of `PUT /users/:id`. */
  datatype UserEdit = UserEdit(name: Option<string>, email: Option<string>, role: Option<string>)

  /** `PUT /users/:id`: 400 for an id that does not parse, 404 for an
      unknown user, otherwise `update` with the truthy name and e-mail and a
      recognised role, answering with the row as it is now. */
  method UpdateUser(req: Request, id: Option<int>, body: UserEdit, users: UserTable) returns (reply: Reply<UserView>)
    requires users.Valid()
    modifies req, users
    ensures users.Valid() && users.nextId == old(users.nextId) && req.session == old(req.session)
    ensures Decide(old(req.session), true).Deny? ==>
              reply == Fail(Decide(old(req.session), true).code, Decide(old(req.session), true).error)
    ensures Decide(old(req.session), true).Next? && id.None? ==> reply == Fail(400, "Invalid user ID")
    ensures Decide(old(req.session), true).Next? && id.Some? && id.value !in old(users.rows)
            ==> reply == Fail(404, "User not found")
    ensures reply.Ok? <==> Decide(old(req.session), true).Next? && id.Some? && id.value in old(users.rows)
    ensures reply.Fail? ==> users.rows == old(users.rows)
    ensures reply.Ok? ==>
              && users.rows == Edited(old(users.rows), id.value, UserPatch(body.name, body.email, ParseRole(body.role)))
              && reply == Ok(200, ViewOf(users.rows[id.value]))
  {
    var gate := RequireAdmin(req);
    if gate.Deny? {
      return Fail(gate.code, gate.error);
    }
    if id.None? {
      return Fail(400, "Invalid user ID");
    }
    var user := FindById(users.rows, id.value);
    if user.None? {
      return Fail(404, "User not found");
    }
    users.Update(id.value, UserPatch(body.name, body.email, ParseRole(body.role)));
    var updated := FindById(users.rows, id.value);
    reply := Ok(200, updated.value);
  }

  /** Unlike registration and the profile page, `PUT /users/:id` does not
      look the new e-mail up first: an administrator can give one account
      another account's address. */
  lemma AdminEditCanDuplicateEmail()
    ensures var a := User(1, "ann@zoo.test", Hash("a"), "Ann", UserRole, None, None, 0);
            var b := User(2, "bob@zoo.test", Hash("b"), "Bob", UserRole, None, None, 0);
            var rows := map[1 := a, 2 := b];
            && UniqueEmails(rows)
            && !UniqueEmails(Edited(rows, 2, UserPatch(None, Some("ann@zoo.test"), ParseRole(None))))
  {
    var a := User(1, "ann@zoo.test", Hash("a"), "Ann", UserRole, None, None, 0);
    var b := User(2, "bob@zoo.test", Hash("b"), "Bob", UserRole, None, None, 0);
    var rows := map[1 := a, 2 := b];
    var after := Edited(rows, 2, UserPatch(None, Some("ann@zoo.test"), ParseRole(None)));
    assert after[1].email == after[2].email;
  }

  /** `DELETE /users/:id`: 400 for an id that does not parse, 400 when an
      admin tries to delete their own account, 404 for an unknown user,
      otherwise exactly that row goes. */
  method DeleteUser(req: Request, id: Option<int>, users: UserTable) returns (reply: Reply<string>)
    requires users.Valid()
    modifies req, users
    ensures users.Valid() && users.nextId == old(users.nextId) && req.session == old(req.session)
    ensures Decide(old(req.session), true).Deny? ==>
              reply == Fail(Decide(old(req.session), true).code, Decide(old(req.session), true).error)
    ensures Decide(old(req.session), true).Next? && id.None? ==> reply == Fail(400, "Invalid user ID")
    ensures Decide(old(req.session), true).Next? && id.Some? && id.value == old(req.session).value.id
            ==> reply == Fail(400, "Cannot delete your own account")
    ensures (Decide(old(req.session), true).Next? && id.Some? && id.value != old(req.session).value.id
             && id.value !in old(users.rows)) ==> reply == Fail(404, "User not found")
    ensures reply.Ok? <==> Decide(old(req.session), true).Next? && id.Some? && id.value in old(users.rows)
                           && id.value != old(req.session).value.id
    ensures reply.Fail? ==> users.rows == old(users.rows)
    ensures reply.Ok? ==> users.rows == old(users.rows) - {id.value} && reply == Ok(200, "User deleted successfully")
  {
    var gate := RequireAdmin(req);
    if gate.Deny? {
      return Fail(gate.code, gate.error);
    }
    if id.None? {
      return Fail(400, "Invalid user ID");
    }
    if id.value == req.user.value.id {
      return Fail(400, "Cannot delete your own account");
    }
    var user := FindById(users.rows, id.value);
    if user.None? {
      return Fail(404, "User not found");
    }
    users.Delete(id.value);
    reply := Ok(200, "User deleted successfully");
  }

  /** `GET /bookings`: every booking, newest first. */
  method ListAllBookings(req: Request, bookings: BookingTable) returns (reply: Reply<seq<Booking>>)
    modifies req
    ensures req.session == old(req.session)
    ensures Decide(old(req.session), true).Deny? ==>
              reply == Fail(Decide(old(req.session), true).code, Decide(old(req.session), true).error)
    ensures Decide(old(req.session), true).Next? ==> reply == Ok(200, BookingModel.GetAll(bookings.rows, bookings.nextId))
  {
    var gate := RequireAdmin(req);
    if gate.Deny? {
      return Fail(gate.code, gate.error);
    }
    reply := Ok(200, BookingModel.GetAll(bookings.rows, bookings.nextId));
  }

  /** `PUT /bookings/:id`: 400 for an id that does not parse, 400 for a
      status outside the four names, 404 for an unknown booking; otherwise
      the status is set whatever it was before — no transition is refused. */
  method UpdateBooking(req: Request, id: Option<int>, status: Option<string>, bookings: BookingTable)
    returns (reply: Reply<Booking>)
    requires bookings.Valid()
    modifies req, bookings
    ensures bookings.Valid() && bookings.nextId == old(bookings.nextId) && req.session == old(req.session)
    ensures Decide(old(req.session), true).Deny? ==>
              reply == Fail(Decide(old(req.session), true).code, Decide(old(req.session), true).error)
    ensures Decide(old(req.session), true).Next? && id.None? ==> reply == Fail(400, "Invalid booking ID")
    ensures Decide(old(req.session), true).Next? && id.Some? && ParseStatus(status).None?
            ==> reply == Fail(400, "Invalid status")
    ensures (Decide(old(req.session), true).Next? && id.Some? && ParseStatus(status).Some?
             && id.value !in old(bookings.rows)) ==> reply == Fail(404, "Booking not found")
    ensures reply.Ok? <==> Decide(old(req.session), true).Next? && id.Some? && ParseStatus(status).Some?
                           && id.value in old(bookings.rows)
    ensures reply.Fail? ==> bookings.rows == old(bookings.rows)
    ensures reply.Ok? ==> && bookings.rows == WithStatus(old(bookings.rows), id.value, ParseStatus(status).value)
                          && reply == Ok(200, old(bookings.rows)[id.value].(status := ParseStatus(status).value))
  {
    var gate := RequireAdmin(req);
    if gate.Deny? {
      return Fail(gate.code, gate.error);
    }
    if id.None? {
      return Fail(400, "Invalid booking ID");
    }
    var s := ParseStatus(status);
    if s.None? {
      return Fail(400, "Invalid status");
    }
    var booking := Lookup(bookings.rows, id.value);
    if booking.None? {
      return Fail(404, "Booking not found");
    }
    bookings.UpdateStatus(id.value, s.value);
    var updated := Lookup(bookings.rows, id.value);
    reply := Ok(200, updated.value);
  }

  /** An administrator can move a booking from any status to any other,
      with no capacity check: a cancelled stay set back to `confirmed`
      counts against its own range again, one row more than before. */
  lemma AdminRevivalCountsAgain(rows: map<int, Booking>, id: int)
    requires id in rows && rows[id].status == Cancelled
    requires rows[id].roomTypeId.Some? && rows[id].checkIn.Some? && rows[id].checkOut.Some?
    requires rows[id].checkIn.value < rows[id].checkOut.value
    ensures var b := rows[id];
            var after := WithStatus(rows, id, ParseStatus(Some("confirmed")).value);
            && after[id].status == Confirmed
            && BookedCount(after, b.roomTypeId.value, b.checkIn.value, b.checkOut.value)
               == BookedCount(rows, b.roomTypeId.value, b.checkIn.value, b.checkOut.value) + 1
  {
    var b := rows[id];
    var rt, checkIn, checkOut := b.roomTypeId.value, b.checkIn.value, b.checkOut.value;
    var revived := b.(status := Confirmed);
    assert WithStatus(rows, id, ParseStatus(Some("confirmed")).value) == rows[id := revived];
    assert Blocks(revived, rt, checkIn, checkOut);
    assert !Blocks(b, rt, checkIn, checkOut);
    BookedCountReplace(rows, id, revived, rt, checkIn, checkOut);
  }

  /** `DELETE /bookings/:id`: 400, 404, otherwise exactly that row goes. */
  method DeleteBooking(req: Request, id: Option<int>, bookings: BookingTable) returns (reply: Reply<string>)
    requires bookings.Valid()
    modifies req, bookings
    ensures bookings.Valid() && bookings.nextId == old(bookings.nextId) && req.session == old(req.session)
    ensures Decide(old(req.session), true).Deny? ==>
              reply == Fail(Decide(old(req.session), true).code, Decide(old(req.session), true).error)
    ensures Decide(old(req.session), true).Next? && id.None? ==> reply == Fail(400, "Invalid booking ID")
    ensures Decide(old(req.session), true).Next? && id.Some? && id.value !in old(bookings.rows)
            ==> reply == Fail(404, "Booking not found")
    ensures reply.Ok? <==> Decide(old(req.session), true).Next? && id.Some? && id.value in old(bookings.rows)
    ensures reply.Fail? ==> bookings.rows == old(bookings.rows)
    ensures reply.Ok? ==> bookings.rows == old(bookings.rows) - {id.value} && reply == Ok(200, "Booking deleted successfully")
  {
    var gate := RequireAdmin(req);
    if gate.Deny? {
      return Fail(gate.code, gate.error);
    }
    if id.None? {
      return Fail(400, "Invalid booking ID");
    }
    var booking := Lookup(bookings.rows, id.value);
    if booking.None? {
      return Fail(404, "Booking not found");
    }
    bookings.Delete(id.value);
    reply := Ok(200, "Booking deleted successfully");
  }

  /** `PUT /tickets/:id`: 400, 404, otherwise `update` with the supplied
      price and description. Bookings are not touched: a booking keeps the
      price it was made at. */
  method UpdateTicket(req: Request, id: Option<int>, body: TicketPatch, tickets: TicketTable)
    returns (reply: Reply<Ticket>)
    requires tickets.Valid()
    modifies req, tickets
    ensures tickets.Valid() && tickets.nextId == old(tickets.nextId) && req.session == old(req.session)
    ensures Decide(old(req.session), true).Deny? ==>
              reply == Fail(Decide(old(req.session), true).code, Decide(old(req.session), true).error)
    ensures Decide(old(req.session), true).Next? && id.None? ==> reply == Fail(400, "Invalid ticket ID")
    ensures Decide(old(req.session), true).Next? && id.Some? && id.value !in old(tickets.rows)
            ==> reply == Fail(404, "Ticket not found")
    ensures reply.Ok? <==> Decide(old(req.session), true).Next? && id.Some? && id.value in old(tickets.rows)
    ensures reply.Fail? ==> tickets.rows == old(tickets.rows)
    ensures reply.Ok? ==>
              && tickets.rows.Keys == old(tickets.rows).Keys
              && (forall k :: k in tickets.rows && k != id.value ==> tickets.rows[k] == old(tickets.rows)[k])
              && reply == Ok(200, Ticket(id.value, old(tickets.rows)[id.value].kind,
                                         Or(body.price, old(tickets.rows)[id.value].price),
                                         Or(body.description, old(tickets.rows)[id.value].description)))
              && tickets.rows[id.value] == reply.value
  {
    var gate := RequireAdmin(req);
    if gate.Deny? {
      return Fail(gate.code, gate.error);
    }
    if id.None? {
      return Fail(400, "Invalid ticket ID");
    }
    var ticket := Lookup(tickets.rows, id.value);
    if ticket.None? {
      return Fail(404, "Ticket not found");
    }
    tickets.Update(id.value, body);
    var updated := Lookup(tickets.rows, id.value);
    reply := Ok(200, updated.value);
  }

  /** The body of `POST /tickets`; `price` is `None` when `undefined`. */
  datatype TicketDraft = TicketDraft(kind: Option<string>, price: Option<int>, description: Option<string>)

  /** `POST /tickets`: 400 unless the type is truthy and a price is given;
      otherwise a new ticket (a falsy description stored as null), answered
      with 201. */
  method CreateTicket(req: Request, body: TicketDraft, tickets: TicketTable) returns (reply: Reply<Ticket>)
    requires tickets.Valid()
    modifies req, tickets
    ensures tickets.Valid() && req.session == old(req.session)
    ensures Decide(old(req.session), true).Deny? ==>
              reply == Fail(Decide(old(req.session), true).code, Decide(old(req.session), true).error)
    ensures Decide(old(req.session), true).Next? && (!TruthyStr(body.kind) || body.price.None?)
            ==> reply == Fail(400, "Ticket type and price are required")
    ensures reply.Ok? <==> Decide(old(req.session), true).Next? && TruthyStr(body.kind) && body.price.Some?
    ensures reply.Fail? ==> tickets.rows == old(tickets.rows) && tickets.nextId == old(tickets.nextId)
    ensures reply.Ok? ==>
              var id := old(tickets.nextId);
              var t := Ticket(id, body.kind.value, body.price.value, DescriptionOrNull(body.description));
              && tickets.rows == old(tickets.rows)[id := t]
              && tickets.nextId == id + 1
              && reply == Ok(201, t)
  {
    var gate := RequireAdmin(req);
    if gate.Deny? {
      return Fail(gate.code, gate.error);
    }
    if !TruthyStr(body.kind) || body.price.None? {
      return Fail(400, "Ticket type and price are required");
    }
    var id := tickets.Create(body.kind.value, body.price.value, body.description);
    var created := Lookup(tickets.rows, id);
    reply := Ok(201, created.value);
  }

  /** `DELETE /tickets/:id`: 400, 404, otherwise exactly that row goes. */
  method DeleteTicket(req: Request, id: Option<int>, tickets: TicketTable) returns (reply: Reply<string>)
    requires tickets.Valid()
    modifies req, tickets
    ensures tickets.Valid() && tickets.nextId == old(tickets.nextId) && req.session == old(req.session)
    ensures Decide(old(req.session), true).Deny? ==>
              reply == Fail(Decide(old(req.session), true).code, Decide(old(req.session), true).error)
    ensures Decide(old(req.session), true).Next? && id.None? ==> reply == Fail(400, "Invalid ticket ID")
    ensures Decide(old(req.session), true).Next? && id.Some? && id.value !in old(tickets.rows)
            ==> reply == Fail(404, "Ticket not found")
    ensures reply.Ok? <==> Decide(old(req.session), true).Next? && id.Some? && id.value in old(tickets.rows)
    ensures reply.Fail? ==> tickets.rows == old(tickets.rows)
    ensures reply.Ok? ==> tickets.rows == old(tickets.rows) - {id.value} && reply == Ok(200, "Ticket deleted successfully")
  {
    var gate := RequireAdmin(req);
    if gate.Deny? {
      return Fail(gate.code, gate.error);
    }
    if id.None? {
      return Fail(400, "Invalid ticket ID");
    }
    var ticket := Lookup(tickets.rows, id.value);
    if ticket.None? {
      return Fail(404, "Ticket not found");
    }
    tickets.Delete(id.value);
    reply := Ok(200, "Ticket deleted successfully");
  }
}
