/** The payment endpoints (server/src/routes/stripe.ts): opening a checkout
    session for a pending booking, and the webhook that moves bookings to
    `confirmed` or `cancelled`. The payment gateway is outside the model:
    the session it opens and the event whose signature it verified are
    parameters. */
module StripeRoutes {
  import opened Common
  import opened Domain
  import opened RoomTypeModel
  import opened BookingModel
  import opened AuthMiddleware

  /** The body of `POST /create-checkout`; an absent or empty property is
      `None`. */
  datatype CheckoutBody = CheckoutBody(bookingId: Option<int>, successUrl: Option<string>, cancelUrl: Option<string>)

  /** `POST /create-checkout`. `gateway` is the id of the checkout session
      the gateway opened, or `None` when the secret key is missing or the
      gateway call fails (answered 500 with nothing changed). Only the
      owner may pay, admins included; only a pending booking can be paid. */
  method CreateCheckout(req: Request, body: CheckoutBody, bookings: BookingTable, gateway: Option<string>)
    returns (reply: Reply<string>)
    requires bookings.Valid()
    modifies req, bookings
    ensures bookings.Valid() && bookings.nextId == old(bookings.nextId) && req.session == old(req.session)
    ensures old(req.session).None? ==> reply == Fail(401, "Authentication required")
    ensures (old(req.session).Some?
             && (!TruthyInt(body.bookingId) || !TruthyStr(body.successUrl) || !TruthyStr(body.cancelUrl)))
            ==> reply == Fail(400, "Booking ID, success URL, and cancel URL are required")
    ensures (old(req.session).Some? && TruthyInt(body.bookingId) && TruthyStr(body.successUrl)
             && TruthyStr(body.cancelUrl) && body.bookingId.value !in old(bookings.rows))
            ==> reply == Fail(404, "Booking not found")
    ensures (old(req.session).Some? && TruthyInt(body.bookingId) && TruthyStr(body.successUrl)
             && TruthyStr(body.cancelUrl) && body.bookingId.value in old(bookings.rows)
             && old(bookings.rows)[body.bookingId.value].userId != old(req.session).value.id)
            ==> reply == Fail(403, "Access denied")
    ensures (old(req.session).Some? && TruthyInt(body.bookingId) && TruthyStr(body.successUrl)
             && TruthyStr(body.cancelUrl) && body.bookingId.value in old(bookings.rows)
             && old(bookings.rows)[body.bookingId.value].userId == old(req.session).value.id
             && old(bookings.rows)[body.bookingId.value].status != Pending)
            ==> reply == Fail(400, "Booking is not in pending status")
    ensures (old(req.session).Some? && TruthyInt(body.bookingId) && TruthyStr(body.successUrl)
             && TruthyStr(body.cancelUrl) && body.bookingId.value in old(bookings.rows)
             && old(bookings.rows)[body.bookingId.value].userId == old(req.session).value.id
             && old(bookings.rows)[body.bookingId.value].status == Pending && gateway.None?)
            ==> reply == Fail(500, "Failed to create checkout session")
    ensures reply.Ok? <==>
              && old(req.session).Some? && TruthyInt(body.bookingId) && TruthyStr(body.successUrl)
              && TruthyStr(body.cancelUrl) && body.bookingId.value in old(bookings.rows)
              && old(bookings.rows)[body.bookingId.value].userId == old(req.session).value.id
              && old(bookings.rows)[body.bookingId.value].status == Pending
              && gateway.Some?
    ensures reply.Fail? ==> bookings.rows == old(bookings.rows)
    ensures reply.Ok? ==> reply == Ok(200, gateway.value)
                          && bookings.rows == WithSessionId(old(bookings.rows), body.bookingId.value, gateway.value)
  {
    var gate := RequireAuth(req);
    if gate.Deny? {
      return Fail(gate.code, gate.error);
    }
    if !TruthyInt(body.bookingId) || !TruthyStr(body.successUrl) || !TruthyStr(body.cancelUrl) {
      return Fail(400, "Booking ID, success URL, and cancel URL are required");
    }
    var booking := Lookup(bookings.rows, body.bookingId.value);
    if booking.None? {
      return Fail(404, "Booking not found");
    }
    if booking.value.userId != req.user.value.id {
      return Fail(403, "Access denied");
    }
    if booking.value.status != Pending {
      return Fail(400, "Booking is not in pending status");
    }
    if gateway.None? {
      return Fail(500, "Failed to create checkout session");
    }
    bookings.UpdateStripeSessionId(booking.value.id, gateway.value);
    reply := Ok(200, gateway.value);
  }

  /** The event types the webhook distinguishes. */
  datatype EventKind = SessionCompleted | SessionExpired | OtherEvent

  /** A verified event: its type and the `booking_id` in the session's
      metadata (`None` when absent or empty; an id that does not parse is
      an id no row has). */
  datatype Event = Event(kind: EventKind, bookingRef: Option<int>)

  /** What the webhook's `switch` does to the bookings table. */
  function WebhookEffect(rows: map<int, Booking>, event: Event): (r: map<int, Booking>)
    ensures r.Keys == rows.Keys
    ensures event.bookingRef.None? || event.kind == OtherEvent ==> r == rows
    ensures event.kind == SessionCompleted && event.bookingRef.Some? ==> r == WithStatus(rows, event.bookingRef.value, Confirmed)
    ensures event.kind == SessionExpired && event.bookingRef.Some? ==> r == WithStatus(rows, event.bookingRef.value, Cancelled)
  {
    match event.kind
    case SessionCompleted => if event.bookingRef.Some? then WithStatus(rows, event.bookingRef.value, Confirmed) else rows
    case SessionExpired => if event.bookingRef.Some? then WithStatus(rows, event.bookingRef.value, Cancelled) else rows
    case OtherEvent => rows
  }

  /** `POST /webhook`. `stripeConfigured` and `secretConfigured` say whether
      the secret key and the webhook secret are set; `event` is the payload
      when its signature verified, `None` when it did not. A verified event
      is acknowledged whatever it changed. */
  method Webhook(stripeConfigured: bool, secretConfigured: bool, event: Option<Event>, bookings: BookingTable)
    returns (reply: Reply<bool>)
    requires bookings.Valid()
    modifies bookings
    ensures bookings.Valid() && bookings.nextId == old(bookings.nextId)
    ensures !stripeConfigured ==> reply == Fail(500, "Webhook processing failed")
    ensures stripeConfigured && !secretConfigured ==> reply == Fail(500, "Webhook not configured")
    ensures stripeConfigured && secretConfigured && event.None? ==> reply == Fail(400, "Webhook signature verification failed")
    ensures reply.Ok? <==> stripeConfigured && secretConfigured && event.Some?
    ensures reply.Fail? ==> bookings.rows == old(bookings.rows)
    ensures reply.Ok? ==> reply == Ok(200, true) && bookings.rows == WebhookEffect(old(bookings.rows), event.value)
  {
    if !stripeConfigured {
      return Fail(500, "Webhook processing failed");
    }
    if !secretConfigured {
      return Fail(500, "Webhook not configured");
    }
    if event.None? {
      return Fail(400, "Webhook signature verification failed");
    }
    var e := event.value;
    match e.kind {
      case SessionCompleted =>
        if e.bookingRef.Some? {
          bookings.UpdateStatus(e.bookingRef.value, Confirmed);
        }
      case SessionExpired =>
        if e.bookingRef.Some? {
          bookings.UpdateStatus(e.bookingRef.value, Cancelled);
        }
      case OtherEvent =>
    }
    reply := Ok(200, true);
  }

  /** An expiry event keeps every night within capacity, and so does a
      completion event for a booking that still holds its room. */
  lemma WebhookKeepsCapacityUnlessReviving(roomTypes: map<int, RoomType>, rows: map<int, Booking>, event: Event)
    requires WithinCapacity(roomTypes, rows)
    requires event.kind == SessionCompleted && event.bookingRef.Some? && event.bookingRef.value in rows
             ==> Active(rows[event.bookingRef.value].status)
    ensures WithinCapacity(roomTypes, WebhookEffect(rows, event))
  {
    if event.bookingRef.Some? && event.bookingRef.value in rows && event.kind != OtherEvent {
      var id := event.bookingRef.value;
      if event.kind == SessionExpired {
        ReleaseKeepsCapacity(roomTypes, rows, id, Cancelled);
      } else {
        var after := WithStatus(rows, id, Confirmed);
        forall roomTypeId, d | roomTypeId in roomTypes
          ensures Occupancy(after, roomTypeId, d) <= roomTypes[roomTypeId].totalRooms
        {
          assert Occupancy(rows, roomTypeId, d) <= roomTypes[roomTypeId].totalRooms;
          BookedCountReplace(rows, id, rows[id].(status := Confirmed), roomTypeId, d, d + 1);
        }
      }
    }
  }

  /** A completion event for a booking the user already cancelled brings it
      back to `confirmed`; if its room was booked again meanwhile, the room
      type is overfilled. */
  lemma LateCompletionRevivesCancelled()
    ensures var roomTypes := map[1 := RoomType(1, 1, "Lodge", None, 100, 1)];
            var a := Booking(1, 1, HotelBooking, Some(1), Some(3), Some(1), None, 1, Cancelled, 200, Some("cs_a"), 0);
            var b := Booking(2, 2, HotelBooking, Some(1), Some(3), Some(1), None, 1, Pending, 200, None, 5);
            var rows := map[1 := a, 2 := b];
            var after := WebhookEffect(rows, Event(SessionCompleted, Some(1)));
            && WithinCapacity(roomTypes, rows)
            && after[1].status == Confirmed
            && !WithinCapacity(roomTypes, after)
  {
    var roomTypes := map[1 := RoomType(1, 1, "Lodge", None, 100, 1)];
    var a := Booking(1, 1, HotelBooking, Some(1), Some(3), Some(1), None, 1, Cancelled, 200, Some("cs_a"), 0);
    var b := Booking(2, 2, HotelBooking, Some(1), Some(3), Some(1), None, 1, Pending, 200, None, 5);
    var rows := map[1 := a, 2 := b];
    var after := WebhookEffect(rows, Event(SessionCompleted, Some(1)));
    var onlyA: map<int, Booking> := map[1 := a];
    forall roomTypeId, d | roomTypeId in roomTypes
      ensures Occupancy(rows, roomTypeId, d) <= roomTypes[roomTypeId].totalRooms
    {
      assert (set k | k in onlyA && Blocks(onlyA[k], roomTypeId, d, d + 1)) == {};
      assert onlyA[2 := b] == rows;
      BookedCountInsert(onlyA, 2, b, roomTypeId, d, d + 1);
    }
    assert after == map[1 := a.(status := Confirmed), 2 := b];
    var revived: map<int, Booking> := map[1 := a.(status := Confirmed)];
    assert (set k | k in revived && Blocks(revived[k], 1, 1, 2)) == {1};
    assert revived[2 := b] == after;
    BookedCountInsert(revived, 2, b, 1, 1, 2);
    assert Occupancy(after, 1, 1) == 2;
  }
}
