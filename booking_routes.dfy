/** The hotel and booking endpoints (server/src/routes/booking.ts): the
    availability query, booking creation with its validation, price and
    availability gate, listing, reading and cancelling bookings. */
module BookingRoutes {
  import opened Common
  import opened Domain
  import opened RoomTypeModel
  import opened BookingModel
  import opened TicketModel
  import opened HotelModel
  import opened AuthMiddleware

  /** The `quantity` property of the body: absent, or present with
      `Some(Number(quantity))` when that is a finite number, and `None`
      when it is not (`NaN`, an infinity). Quantities are integers here:
      a fractional `Number(quantity)` has no representation. */
  datatype Quantity = Absent | Given(parsed: Option<int>)

  /** The body of `POST /bookings`. A date or the booking type that is
      absent or the empty string is `None` / `""`. */
  datatype BookingBody = BookingBody(
    bookingType: string,
    checkIn: Option<int>,
    checkOut: Option<int>,
    roomTypeId: Option<int>,
    ticketId: Option<int>,
    quantity: Quantity)

  /** `requestedQuantity`: the parsed quantity when it is positive, else 1. */
  function RequestedQuantity(q: Quantity): (n: int)
    ensures n >= 1
    ensures q.Given? && q.parsed.Some? && q.parsed.value > 0 ==> n == q.parsed.value
    ensures q.Absent? ==> n == 1
  {
    if q.Given? && q.parsed.Some? && q.parsed.value > 0 then q.parsed.value else 1
  }

  /** A supplied quantity that is not a number, or is below 1. */
  predicate QuantityRejected(q: Quantity)
  {
    q.Given? && (q.parsed.None? || q.parsed.value < 1)
  }

  /** What `POST /bookings` decides for an authenticated caller. */
  datatype Plan = Refuse(code: int, error: string) | Insert(data: NewBooking)

  /** The row data `POST /bookings` hands to `create`: every property of
      the body is passed through, whatever the booking type. */
  function RequestData(user: SessionUser, body: BookingBody, kind: BookingType, qty: int, totalPrice: int): NewBooking
  {
    NewBooking(user.id, kind, body.checkIn, body.checkOut, body.roomTypeId, body.ticketId,
               Some(qty), totalPrice, None)
  }

  /** A body that passes the first two guards: a known booking type and a
      quantity that is absent or at least 1. */
  predicate Screened(body: BookingBody)
  {
    (body.bookingType == "ticket" || body.bookingType == "hotel") && !QuantityRejected(body.quantity)
  }

  /** The properties a ticket booking needs: a ticket id and a quantity. */
  predicate TicketFieldsGiven(body: BookingBody)
  {
    TruthyInt(body.ticketId) && body.quantity.Given?
  }

  /** The properties a hotel booking needs: a room type and both dates. */
  predicate HotelFieldsGiven(body: BookingBody)
  {
    TruthyInt(body.roomTypeId) && body.checkIn.Some? && body.checkOut.Some?
  }

  /** The guards of `POST /bookings` in the order the handler runs them;
      the availability gate runs before the nights check. */
  function PlanBooking(user: SessionUser, body: BookingBody, roomTypes: map<int, RoomType>,
                       tickets: map<int, Ticket>, bookings: map<int, Booking>): (r: Plan)
    ensures body.bookingType != "ticket" && body.bookingType != "hotel" ==> r == Refuse(400, "Invalid booking type")
    ensures (body.bookingType == "ticket" || body.bookingType == "hotel") && QuantityRejected(body.quantity)
            ==> r == Refuse(400, "Quantity must be at least 1")
    ensures Screened(body) && body.bookingType == "ticket" && !TicketFieldsGiven(body)
            ==> r == Refuse(400, "Ticket ID and quantity are required for ticket bookings")
    ensures Screened(body) && body.bookingType == "ticket" && TicketFieldsGiven(body)
            && body.ticketId.value !in tickets
            ==> r == Refuse(404, "Ticket not found")
    ensures Screened(body) && body.bookingType == "hotel" && !HotelFieldsGiven(body)
            ==> r == Refuse(400, "Room type ID, check-in, and check-out dates are required for hotel bookings")
    ensures Screened(body) && body.bookingType == "hotel" && HotelFieldsGiven(body)
            && body.roomTypeId.value !in roomTypes
            ==> r == Refuse(404, "Room type not found")
    ensures Screened(body) && body.bookingType == "hotel" && HotelFieldsGiven(body)
            && body.roomTypeId.value in roomTypes
            && CheckAvailability(roomTypes, bookings, body.roomTypeId.value, body.checkIn.value, body.checkOut.value)
               < RequestedQuantity(body.quantity)
            ==> r == Refuse(400, "No rooms available for the selected dates")
    ensures Screened(body) && body.bookingType == "hotel" && HotelFieldsGiven(body)
            && body.roomTypeId.value in roomTypes
            && CheckAvailability(roomTypes, bookings, body.roomTypeId.value, body.checkIn.value, body.checkOut.value)
               >= RequestedQuantity(body.quantity)
            && body.checkOut.value - body.checkIn.value < 1
            ==> r == Refuse(400, "Check-out date must be after check-in date")
    ensures r.Insert? <==>
              && Screened(body)
              && (|| (body.bookingType == "ticket" && TicketFieldsGiven(body) && body.ticketId.value in tickets)
                  || (&& body.bookingType == "hotel" && HotelFieldsGiven(body)
                      && body.roomTypeId.value in roomTypes
                      && CheckAvailability(roomTypes, bookings, body.roomTypeId.value, body.checkIn.value,
                                           body.checkOut.value) >= RequestedQuantity(body.quantity)
                      && body.checkOut.value - body.checkIn.value >= 1))
    ensures r.Refuse? ==> r.code == 400 || r.code == 404
    ensures r.Insert? ==>
              && r.data.checkIn == body.checkIn && r.data.checkOut == body.checkOut
              && r.data.roomTypeId == body.roomTypeId && r.data.ticketId == body.ticketId
    ensures r.Insert? ==>
              && r.data.userId == user.id
              && r.data.quantity == Some(RequestedQuantity(body.quantity))
              && r.data.stripeSessionId.None?
              && (r.data.bookingType == TicketBooking <==> body.bookingType == "ticket")
              && (r.data.bookingType == HotelBooking <==> body.bookingType == "hotel")
    ensures r.Insert? && body.bookingType == "ticket" ==>
              && body.quantity.Given?
              && TruthyInt(body.ticketId) && body.ticketId.value in tickets
              && r.data.totalPrice == tickets[body.ticketId.value].price * RequestedQuantity(body.quantity)
    ensures r.Insert? && body.bookingType == "hotel" ==>
              && TruthyInt(body.roomTypeId) && body.roomTypeId.value in roomTypes
              && body.checkIn.Some? && body.checkOut.Some?
              && body.checkOut.value - body.checkIn.value >= 1
              && CheckAvailability(roomTypes, bookings, body.roomTypeId.value, body.checkIn.value, body.checkOut.value)
                 >= RequestedQuantity(body.quantity)
              && r.data.totalPrice == roomTypes[body.roomTypeId.value].pricePerNight
                                      * (body.checkOut.value - body.checkIn.value)
                                      * RequestedQuantity(body.quantity)
  {
    assert "ticket" != "hotel" by { assert |"ticket"| != |"hotel"|; }
    if body.bookingType != "ticket" && body.bookingType != "hotel" then Refuse(400, "Invalid booking type")
    else if QuantityRejected(body.quantity) then Refuse(400, "Quantity must be at least 1")
    else if body.bookingType == "ticket" then TicketPlan(user, body, tickets)
    else HotelPlan(user, body, roomTypes, bookings)
  }

  /** The ticket path of `POST /bookings`, once type and quantity passed. */
  function TicketPlan(user: SessionUser, body: BookingBody, tickets: map<int, Ticket>): (r: Plan)
    ensures !TicketFieldsGiven(body) ==> r == Refuse(400, "Ticket ID and quantity are required for ticket bookings")
    ensures TicketFieldsGiven(body) && body.ticketId.value !in tickets ==> r == Refuse(404, "Ticket not found")
    ensures r.Insert? <==> TicketFieldsGiven(body) && body.ticketId.value in tickets
    ensures r.Insert? ==>
              && r.data == RequestData(user, body, TicketBooking, RequestedQuantity(body.quantity), r.data.totalPrice)
              && r.data.totalPrice == tickets[body.ticketId.value].price * RequestedQuantity(body.quantity)
  {
    var qty := RequestedQuantity(body.quantity);
    if !TicketFieldsGiven(body) then
      Refuse(400, "Ticket ID and quantity are required for ticket bookings")
    else if body.ticketId.value !in tickets then Refuse(404, "Ticket not found")
    else Insert(RequestData(user, body, TicketBooking, qty, tickets[body.ticketId.value].price * qty))
  }

  /** The hotel path of `POST /bookings`, once type and quantity passed. */
  function HotelPlan(user: SessionUser, body: BookingBody, roomTypes: map<int, RoomType>,
                     bookings: map<int, Booking>): (r: Plan)
    ensures !HotelFieldsGiven(body)
            ==> r == Refuse(400, "Room type ID, check-in, and check-out dates are required for hotel bookings")
    ensures HotelFieldsGiven(body) && body.roomTypeId.value !in roomTypes ==> r == Refuse(404, "Room type not found")
    ensures HotelFieldsGiven(body) && body.roomTypeId.value in roomTypes
            && CheckAvailability(roomTypes, bookings, body.roomTypeId.value, body.checkIn.value, body.checkOut.value)
               < RequestedQuantity(body.quantity)
            ==> r == Refuse(400, "No rooms available for the selected dates")
    ensures HotelFieldsGiven(body) && body.roomTypeId.value in roomTypes
            && CheckAvailability(roomTypes, bookings, body.roomTypeId.value, body.checkIn.value, body.checkOut.value)
               >= RequestedQuantity(body.quantity)
            && body.checkOut.value - body.checkIn.value < 1
            ==> r == Refuse(400, "Check-out date must be after check-in date")
    ensures r.Insert? <==>
              && HotelFieldsGiven(body) && body.roomTypeId.value in roomTypes
              && CheckAvailability(roomTypes, bookings, body.roomTypeId.value, body.checkIn.value, body.checkOut.value)
                 >= RequestedQuantity(body.quantity)
              && body.checkOut.value - body.checkIn.value >= 1
    ensures r.Insert? ==>
              && r.data == RequestData(user, body, HotelBooking, RequestedQuantity(body.quantity), r.data.totalPrice)
              && r.data.totalPrice == roomTypes[body.roomTypeId.value].pricePerNight
                                      * (body.checkOut.value - body.checkIn.value)
                                      * RequestedQuantity(body.quantity)
  {
    var qty := RequestedQuantity(body.quantity);
    if !HotelFieldsGiven(body) then
      Refuse(400, "Room type ID, check-in, and check-out dates are required for hotel bookings")
    else
      var rt, checkIn, checkOut := body.roomTypeId.value, body.checkIn.value, body.checkOut.value;
      if rt !in roomTypes then Refuse(404, "Room type not found")
      else if CheckAvailability(roomTypes, bookings, rt, checkIn, checkOut) < qty then
        Refuse(400, "No rooms available for the selected dates")
      else if checkOut - checkIn < 1 then Refuse(400, "Check-out date must be after check-in date")
      else Insert(RequestData(user, body, HotelBooking, qty, roomTypes[rt].pricePerNight * (checkOut - checkIn) * qty))
  }

  /** An accepted hotel booking keeps every night of every room type within
      capacity (in a single-threaded run). */
  lemma AcceptedHotelBookingKeepsCapacity(user: SessionUser, body: BookingBody, roomTypes: map<int, RoomType>,
                                          tickets: map<int, Ticket>, bookings: map<int, Booking>, k: int, now: int)
    requires WithinCapacity(roomTypes, bookings) && k !in bookings
    requires body.bookingType == "hotel" && PlanBooking(user, body, roomTypes, tickets, bookings).Insert?
    ensures WithinCapacity(roomTypes, bookings[k := InsertedRow(PlanBooking(user, body, roomTypes, tickets, bookings).data, k, now)])
  {
    var b := InsertedRow(PlanBooking(user, body, roomTypes, tickets, bookings).data, k, now);
    assert b.roomTypeId == body.roomTypeId;
    InsertKeepsCapacity(roomTypes, bookings, k, b);
  }

  /** An accepted hotel booking takes exactly one room off the availability
      of its own range, whatever quantity it asked for. */
  lemma HotelBookingTakesOneRoom(user: SessionUser, body: BookingBody, roomTypes: map<int, RoomType>,
                                 tickets: map<int, Ticket>, bookings: map<int, Booking>, k: int, now: int)
    requires k !in bookings
    requires body.bookingType == "hotel" && PlanBooking(user, body, roomTypes, tickets, bookings).Insert?
    ensures var rt, checkIn, checkOut := body.roomTypeId.value, body.checkIn.value, body.checkOut.value;
            var b := InsertedRow(PlanBooking(user, body, roomTypes, tickets, bookings).data, k, now);
            CheckAvailability(roomTypes, bookings[k := b], rt, checkIn, checkOut)
            == CheckAvailability(roomTypes, bookings, rt, checkIn, checkOut) - 1
  {
    var rt, checkIn, checkOut := body.roomTypeId.value, body.checkIn.value, body.checkOut.value;
    var b := InsertedRow(PlanBooking(user, body, roomTypes, tickets, bookings).data, k, now);
    assert Blocks(b, rt, checkIn, checkOut);
    AvailabilityAfterInsert(roomTypes, bookings, k, b, rt, checkIn, checkOut);
  }

  /** Once the active rows overlapping a range reach the room type's
      `total_rooms`, a further well-formed hotel request for that range is
      refused with 400, whatever quantity it asks for. */
  lemma FullRoomTypeRefuses(user: SessionUser, body: BookingBody, roomTypes: map<int, RoomType>,
                            tickets: map<int, Ticket>, bookings: map<int, Booking>)
    requires body.bookingType == "hotel" && !QuantityRejected(body.quantity)
    requires TruthyInt(body.roomTypeId) && body.roomTypeId.value in roomTypes
    requires body.checkIn.Some? && body.checkOut.Some?
    requires BookedCount(bookings, body.roomTypeId.value, body.checkIn.value, body.checkOut.value)
             >= roomTypes[body.roomTypeId.value].totalRooms
    ensures PlanBooking(user, body, roomTypes, tickets, bookings) == Refuse(400, "No rooms available for the selected dates")
  {
    var rt := body.roomTypeId.value;
    assert CheckAvailability(roomTypes, bookings, rt, body.checkIn.value, body.checkOut.value) == 0;
  }

  /** Tickets have no capacity: a request for a known ticket with a valid
      quantity is accepted whatever the bookings table holds, at
      `price × quantity`. */
  lemma TicketsHaveNoCeiling(user: SessionUser, body: BookingBody, roomTypes: map<int, RoomType>,
                             tickets: map<int, Ticket>, bookings: map<int, Booking>)
    requires body.bookingType == "ticket" && body.quantity.Given? && !QuantityRejected(body.quantity)
    requires TruthyInt(body.ticketId) && body.ticketId.value in tickets
    ensures var r := PlanBooking(user, body, roomTypes, tickets, bookings);
            && r.Insert?
            && r.data.totalPrice == tickets[body.ticketId.value].price * body.quantity.parsed.value
  {
  }

  /** A ticket booking that carries a room type and dates is stored with
      them, is counted by `checkAvailability`, and skips the availability
      gate: starting from a table within capacity, it can overfill a room
      type. */
  lemma TicketBookingCanOverfillRooms()
    ensures var roomTypes := map[1 := RoomType(1, 1, "Savannah Suite", None, 100, 1)];
            var tickets := map[1 := Ticket(1, "adult", 20, None)];
            var first := InsertedRow(NewBooking(7, HotelBooking, Some(10), Some(12), Some(1), None, Some(1), 200, None), 1, 0);
            var bookings := map[1 := first];
            var body := BookingBody("ticket", Some(10), Some(12), Some(1), Some(1), Given(Some(1)));
            var plan := PlanBooking(SessionUser(8, "b@zoo.dk", UserRole), body, roomTypes, tickets, bookings);
            && WithinCapacity(roomTypes, bookings)
            && plan.Insert?
            && !WithinCapacity(roomTypes, bookings[2 := InsertedRow(plan.data, 2, 0)])
  {
    var roomTypes := map[1 := RoomType(1, 1, "Savannah Suite", None, 100, 1)];
    var tickets := map[1 := Ticket(1, "adult", 20, None)];
    var first := InsertedRow(NewBooking(7, HotelBooking, Some(10), Some(12), Some(1), None, Some(1), 200, None), 1, 0);
    var empty: map<int, Booking> := map[];
    var bookings := map[1 := first];
    var body := BookingBody("ticket", Some(10), Some(12), Some(1), Some(1), Given(Some(1)));
    var plan := PlanBooking(SessionUser(8, "b@zoo.dk", UserRole), body, roomTypes, tickets, bookings);
    assert plan.Insert? && plan.data.roomTypeId == Some(1) && plan.data.checkIn == Some(10) && plan.data.checkOut == Some(12);
    var second := InsertedRow(plan.data, 2, 0);
    assert CheckAvailability(roomTypes, empty, 1, 10, 12) == 1;
    EmptyWithinCapacity(roomTypes);
    assert empty[1 := first] == bookings;
    InsertKeepsCapacity(roomTypes, empty, 1, first);
    BookedCountInsert(empty, 1, first, 1, 10, 11);
    BookedCountInsert(bookings, 2, second, 1, 10, 11);
    assert Occupancy(bookings[2 := second], 1, 10) == 2;
  }

  /** An empty bookings table is within capacity when no room type has a
      negative room count. */
  lemma EmptyWithinCapacity(roomTypes: map<int, RoomType>)
    requires forall rt :: rt in roomTypes ==> roomTypes[rt].totalRooms >= 0
    ensures WithinCapacity(roomTypes, map[])
  {
    var empty: map<int, Booking> := map[];
    forall rt, d | rt in roomTypes ensures Occupancy(empty, rt, d) <= roomTypes[rt].totalRooms {
    }
  }

  /** Stays that meet at a day do not compete: a stay ending on day n leaves
      the availability of a stay starting on day n unchanged. */
  lemma AdjacentStaysDoNotCompete(roomTypes: map<int, RoomType>, bookings: map<int, Booking>,
                                  k: int, b: Booking, roomTypeId: int, n: int, checkOut: int)
    requires k !in bookings && b.checkOut == Some(n)
    ensures CheckAvailability(roomTypes, bookings[k := b], roomTypeId, n, checkOut)
            == CheckAvailability(roomTypes, bookings, roomTypeId, n, checkOut)
  {
    AvailabilityAfterInsert(roomTypes, bookings, k, b, roomTypeId, n, checkOut);
  }

  /** Who may read or cancel a booking: its owner or an admin. */
  predicate MayAccess(u: SessionUser, b: Booking)
  {
    b.userId == u.id || u.role == AdminRole
  }

  /** The status change `PUT /bookings/:id/cancel` makes keeps every night
      within capacity. */
  lemma CancelKeepsCapacity(roomTypes: map<int, RoomType>, bookings: map<int, Booking>, id: int)
    requires WithinCapacity(roomTypes, bookings)
    ensures WithinCapacity(roomTypes, WithStatus(bookings, id, Cancelled))
  {
    if id in bookings {
      ReleaseKeepsCapacity(roomTypes, bookings, id, Cancelled);
    }
  }

  /** Cancelling a booking that held a room for a range frees exactly one
      room for that range. */
  lemma CancelFreesRoom(roomTypes: map<int, RoomType>, bookings: map<int, Booking>, id: int,
                        roomTypeId: int, checkIn: int, checkOut: int)
    requires id in bookings && Blocks(bookings[id], roomTypeId, checkIn, checkOut) && roomTypeId in roomTypes
    requires BookedCount(bookings, roomTypeId, checkIn, checkOut) <= roomTypes[roomTypeId].totalRooms
    ensures CheckAvailability(roomTypes, WithStatus(bookings, id, Cancelled), roomTypeId, checkIn, checkOut)
            == CheckAvailability(roomTypes, bookings, roomTypeId, checkIn, checkOut) + 1
  {
    AvailabilityAfterRelease(roomTypes, bookings, id, Cancelled, roomTypeId, checkIn, checkOut);
  }

  /** One room at 100 a night. A books nights 1 to 3 (price 200, pending);
      B's identical request is refused; once A is cancelled, B's request is
      accepted at price 200. */
  lemma OneRoomScenario()
    ensures var roomTypes := map[1 := RoomType(1, 1, "Lodge", None, 100, 1)];
            var tickets: map<int, Ticket> := map[];
            var body := BookingBody("hotel", Some(1), Some(3), Some(1), None, Absent);
            var a := SessionUser(1, "a@zoo.dk", UserRole);
            var b := SessionUser(2, "b@zoo.dk", UserRole);
            var planA := PlanBooking(a, body, roomTypes, tickets, map[]);
            && planA.Insert? && planA.data.totalPrice == 200
            && var afterA := map[1 := InsertedRow(planA.data, 1, 0)];
               && afterA[1].status == Pending
               && PlanBooking(b, body, roomTypes, tickets, afterA) == Refuse(400, "No rooms available for the selected dates")
               && var planB := PlanBooking(b, body, roomTypes, tickets, WithStatus(afterA, 1, Cancelled));
                  planB.Insert? && planB.data.totalPrice == 200
  {
    var roomTypes := map[1 := RoomType(1, 1, "Lodge", None, 100, 1)];
    var tickets: map<int, Ticket> := map[];
    var body := BookingBody("hotel", Some(1), Some(3), Some(1), None, Absent);
    var a := SessionUser(1, "a@zoo.dk", UserRole);
    var b := SessionUser(2, "b@zoo.dk", UserRole);
    var empty: map<int, Booking> := map[];
    LodgeFreeAccepts(a, empty);
    var planA := PlanBooking(a, body, roomTypes, tickets, empty);
    var rowA := InsertedRow(planA.data, 1, 0);
    var afterA := map[1 := rowA];
    assert empty[1 := rowA] == afterA;
    BookedCountInsert(empty, 1, rowA, 1, 1, 3);
    FullRoomTypeRefuses(b, body, roomTypes, tickets, afterA);
    LodgeFreeAccepts(b, WithStatus(afterA, 1, Cancelled));
  }

  /** In the one-room lodge, a request for nights 1 to 3 is accepted at
      200 while no row blocks them. */
  lemma LodgeFreeAccepts(user: SessionUser, bookings: map<int, Booking>)
    requires forall k :: k in bookings ==> !Blocks(bookings[k], 1, 1, 3)
    ensures var plan := PlanBooking(user, BookingBody("hotel", Some(1), Some(3), Some(1), None, Absent),
                                    map[1 := RoomType(1, 1, "Lodge", None, 100, 1)], map[], bookings);
            plan.Insert? && plan.data.totalPrice == 200
  {
    var roomTypes := map[1 := RoomType(1, 1, "Lodge", None, 100, 1)];
    assert BookedCount(bookings, 1, 1, 3) == 0;
    assert CheckAvailability(roomTypes, bookings, 1, 1, 3) == 1;
  }

  /** The answer of the availability endpoint. */
  datatype AvailabilityAnswer = AvailabilityAnswer(roomType: RoomType, availableRooms: int, checkIn: int, checkOut: int)

  /** `GET /hotels/:id/rooms/:roomTypeId/availability`: ids that do not
      parse give 400, a missing date 400, a room type of another hotel 404;
      otherwise the free rooms for the range. */
  method Availability(hotelId: Option<int>, roomTypeId: Option<int>, checkIn: Option<int>, checkOut: Option<int>,
                      roomTypes: RoomTypeTable, bookings: BookingTable) returns (reply: Reply<AvailabilityAnswer>)
    ensures hotelId.None? || roomTypeId.None? ==> reply == Fail(400, "Invalid hotel or room type ID")
    ensures hotelId.Some? && roomTypeId.Some? && (checkIn.None? || checkOut.None?) ==>
              reply == Fail(400, "Check-in and check-out dates are required")
    ensures reply.Ok? <==>
              && hotelId.Some? && roomTypeId.Some? && checkIn.Some? && checkOut.Some?
              && roomTypeId.value in roomTypes.rows && roomTypes.rows[roomTypeId.value].hotelId == hotelId.value
    ensures hotelId.Some? && roomTypeId.Some? && checkIn.Some? && checkOut.Some?
            && (roomTypeId.value !in roomTypes.rows || roomTypes.rows[roomTypeId.value].hotelId != hotelId.value)
            ==> reply == Fail(404, "Room type not found for this hotel")
    ensures reply.Ok? ==>
              && reply.code == 200
              && reply.value.roomType == roomTypes.rows[roomTypeId.value]
              && reply.value.checkIn == checkIn.value && reply.value.checkOut == checkOut.value
              && reply.value.availableRooms
                 == CheckAvailability(roomTypes.rows, bookings.rows, roomTypeId.value, checkIn.value, checkOut.value)
  {
    if hotelId.None? || roomTypeId.None? {
      return Fail(400, "Invalid hotel or room type ID");
    }
    if checkIn.None? || checkOut.None? {
      return Fail(400, "Check-in and check-out dates are required");
    }
    var roomType := Lookup(roomTypes.rows, roomTypeId.value);
    if roomType.None? || roomType.value.hotelId != hotelId.value {
      return Fail(404, "Room type not found for this hotel");
    }
    var available := CheckAvailability(roomTypes.rows, bookings.rows, roomTypeId.value, checkIn.value, checkOut.value);
    reply := Ok(200, AvailabilityAnswer(roomType.value, available, checkIn.value, checkOut.value));
  }

  /** `GET /hotels`: every hotel with its room types. */
  method ListHotels(hotels: map<int, Hotel>, hotelBound: int, roomTypes: RoomTypeTable)
    returns (reply: Reply<seq<HotelWithRooms>>)
    ensures reply.Ok? && reply.code == 200
    ensures reply.value == GetAllWithRoomTypes(hotels, hotelBound, roomTypes.rows, roomTypes.nextId)
  {
    reply := Ok(200, GetAllWithRoomTypes(hotels, hotelBound, roomTypes.rows, roomTypes.nextId));
  }

  /** `GET /hotels/:id`: 400 for an id that does not parse, 404 for an
      unknown hotel, otherwise the hotel with its own room types. */
  method ShowHotel(id: Option<int>, hotels: map<int, Hotel>, roomTypes: RoomTypeTable)
    returns (reply: Reply<HotelWithRooms>)
    ensures id.None? ==> reply == Fail(400, "Invalid hotel ID")
    ensures id.Some? && id.value !in hotels ==> reply == Fail(404, "Hotel not found")
    ensures reply.Ok? <==> id.Some? && id.value in hotels
    ensures reply.Ok? ==> reply.code == 200 && reply.value.hotel == hotels[id.value]
                          && forall x :: x in reply.value.roomTypes ==> x.hotelId == id.value
    ensures reply.Ok? ==> reply.value == GetByIdWithRoomTypes(hotels, roomTypes.rows, roomTypes.nextId, id.value).value
  {
    if id.None? {
      return Fail(400, "Invalid hotel ID");
    }
    var hotel := GetByIdWithRoomTypes(hotels, roomTypes.rows, roomTypes.nextId, id.value);
    if hotel.None? {
      return Fail(404, "Hotel not found");
    }
    reply := Ok(200, hotel.value);
  }

  /** `GET /hotels/:id/rooms`: 400 for an id that does not parse, otherwise
      that hotel's room types, cheapest first (empty for an unknown hotel). */
  method ListRooms(hotelId: Option<int>, roomTypes: RoomTypeTable) returns (reply: Reply<seq<RoomType>>)
    ensures hotelId.None? ==> reply == Fail(400, "Invalid hotel ID")
    ensures hotelId.Some? ==> reply.Ok? && reply.code == 200
    ensures reply.Ok? ==> reply.value == GetByHotel(roomTypes.rows, roomTypes.nextId, hotelId.value)
  {
    if hotelId.None? {
      return Fail(400, "Invalid hotel ID");
    }
    reply := Ok(200, GetByHotel(roomTypes.rows, roomTypes.nextId, hotelId.value));
  }

  /** `POST /bookings`: an unauthenticated request gets 401; otherwise the
      request is answered as `PlanBooking` decides, and an accepted one
      inserts exactly one pending row owned by the caller and answers 201
      with it. Nothing else in the table changes. */
  method PostBooking(req: Request, body: BookingBody, bookings: BookingTable, roomTypes: RoomTypeTable,
                     tickets: TicketTable, now: int) returns (reply: Reply<Booking>)
    requires bookings.Valid()
    modifies req, bookings
    ensures bookings.Valid() && req.session == old(req.session)
    ensures old(req.session).None? ==>
              reply == Fail(401, "Authentication required") && bookings.rows == old(bookings.rows)
              && bookings.nextId == old(bookings.nextId)
    ensures old(req.session).Some? ==>
              var plan := PlanBooking(old(req.session).value, body, roomTypes.rows, tickets.rows, old(bookings.rows));
              && (plan.Refuse? ==>
                    reply == Fail(plan.code, plan.error) && bookings.rows == old(bookings.rows)
                    && bookings.nextId == old(bookings.nextId))
              && (plan.Insert? ==>
                    var id := old(bookings.nextId);
                    && bookings.rows == old(bookings.rows)[id := InsertedRow(plan.data, id, now)]
                    && bookings.nextId == id + 1
                    && reply == Ok(201, InsertedRow(plan.data, id, now)))
  {
    var gate := RequireAuth(req);
    if gate.Deny? {
      return Fail(gate.code, gate.error);
    }
    var plan := PlanBooking(req.user.value, body, roomTypes.rows, tickets.rows, bookings.rows);
    if plan.Refuse? {
      return Fail(plan.code, plan.error);
    }
    var id := bookings.Create(plan.data, now);
    reply := Ok(201, bookings.rows[id]);
  }

  /** `GET /bookings`: the caller's bookings, newest first. */
  method ListBookings(req: Request, bookings: BookingTable) returns (reply: Reply<seq<Booking>>)
    modifies req
    ensures req.session == old(req.session)
    ensures old(req.session).None? ==> reply == Fail(401, "Authentication required")
    ensures old(req.session).Some? ==>
              reply == Ok(200, GetByUser(bookings.rows, bookings.nextId, old(req.session).value.id))
  {
    var gate := RequireAuth(req);
    if gate.Deny? {
      return Fail(gate.code, gate.error);
    }
    reply := Ok(200, GetByUser(bookings.rows, bookings.nextId, req.user.value.id));
  }

  /** `GET /bookings/:id`: 400 for an id that does not parse, 404 for an
      unknown booking, 403 unless the caller owns it or is an admin. */
  method ShowBooking(req: Request, id: Option<int>, bookings: BookingTable) returns (reply: Reply<Booking>)
    modifies req
    ensures req.session == old(req.session)
    ensures old(req.session).None? ==> reply == Fail(401, "Authentication required")
    ensures old(req.session).Some? && id.None? ==> reply == Fail(400, "Invalid booking ID")
    ensures old(req.session).Some? && id.Some? && id.value !in bookings.rows ==> reply == Fail(404, "Booking not found")
    ensures (old(req.session).Some? && id.Some? && id.value in bookings.rows
             && !MayAccess(old(req.session).value, bookings.rows[id.value])) ==> reply == Fail(403, "Access denied")
    ensures reply.Ok? <==> old(req.session).Some? && id.Some? && id.value in bookings.rows
                           && MayAccess(old(req.session).value, bookings.rows[id.value])
    ensures reply.Ok? ==> reply == Ok(200, bookings.rows[id.value])
  {
    var gate := RequireAuth(req);
    if gate.Deny? {
      return Fail(gate.code, gate.error);
    }
    if id.None? {
      return Fail(400, "Invalid booking ID");
    }
    var booking := Lookup(bookings.rows, id.value);
    if booking.None? {
      return Fail(404, "Booking not found");
    }
    if !MayAccess(req.user.value, booking.value) {
      return Fail(403, "Access denied");
    }
    reply := Ok(200, booking.value);
  }

  /** `PUT /bookings/:id/cancel`: the guards of `GET /bookings/:id`, then 400
      for a booking already cancelled; any other status, `completed`
      included, becomes `cancelled`, and nothing else changes. */
  method CancelBooking(req: Request, id: Option<int>, bookings: BookingTable) returns (reply: Reply<Booking>)
    requires bookings.Valid()
    modifies req, bookings
    ensures bookings.Valid() && bookings.nextId == old(bookings.nextId) && req.session == old(req.session)
    ensures old(req.session).None? ==> reply == Fail(401, "Authentication required")
    ensures old(req.session).Some? && id.None? ==> reply == Fail(400, "Invalid booking ID")
    ensures old(req.session).Some? && id.Some? && id.value !in old(bookings.rows) ==> reply == Fail(404, "Booking not found")
    ensures (old(req.session).Some? && id.Some? && id.value in old(bookings.rows)
             && !MayAccess(old(req.session).value, old(bookings.rows)[id.value])) ==> reply == Fail(403, "Access denied")
    ensures (old(req.session).Some? && id.Some? && id.value in old(bookings.rows)
             && MayAccess(old(req.session).value, old(bookings.rows)[id.value])
             && old(bookings.rows)[id.value].status == Cancelled) ==> reply == Fail(400, "Booking already cancelled")
    ensures reply.Ok? <==> old(req.session).Some? && id.Some? && id.value in old(bookings.rows)
                           && MayAccess(old(req.session).value, old(bookings.rows)[id.value])
                           && old(bookings.rows)[id.value].status != Cancelled
    ensures reply.Fail? ==> bookings.rows == old(bookings.rows)
    ensures reply.Ok? ==> bookings.rows == WithStatus(old(bookings.rows), id.value, Cancelled)
                          && reply == Ok(200, bookings.rows[id.value])
  {
    var gate := RequireAuth(req);
    if gate.Deny? {
      return Fail(gate.code, gate.error);
    }
    if id.None? {
      return Fail(400, "Invalid booking ID");
    }
    var booking := Lookup(bookings.rows, id.value);
    if booking.None? {
      return Fail(404, "Booking not found");
    }
    if !MayAccess(req.user.value, booking.value) {
      return Fail(403, "Access denied");
    }
    if booking.value.status == Cancelled {
      return Fail(400, "Booking already cancelled");
    }
    bookings.UpdateStatus(id.value, Cancelled);
    reply := Ok(200, bookings.rows[id.value]);
  }
}
