/** The `bookings` table (server/src/database/models/Booking.ts). The joined
    display columns (user e-mail and name, ticket type, hotel and room type
    names) are not part of the rows modelled here. */
module BookingModel {
  import opened Common
  import opened Domain
  import opened Ordering

  /** `CreateBookingData`: what a caller hands to `create`. */
  datatype NewBooking = NewBooking(
    userId: int,
    bookingType: BookingType,
    checkIn: Option<int>,
    checkOut: Option<int>,
    roomTypeId: Option<int>,
    ticketId: Option<int>,
    quantity: Option<int>,
    totalPrice: int,
    stripeSessionId: Option<string>)

  /** `value || null` on an optional id. */
  function IdOrNull(x: Option<int>): (r: Option<int>)
    ensures r.Some? <==> TruthyInt(x)
    ensures r.Some? ==> r == x
  {
    if TruthyInt(x) then x else None
  }

  /** The row `create` inserts under `id` at time `now`. */
  function InsertedRow(data: NewBooking, id: int, now: int): (b: Booking)
    ensures b.id == id && b.userId == data.userId && b.bookingType == data.bookingType
    ensures b.status == Pending && b.totalPrice == data.totalPrice && b.createdAt == now
    ensures b.checkIn == data.checkIn && b.checkOut == data.checkOut
    ensures b.roomTypeId == IdOrNull(data.roomTypeId) && b.ticketId == IdOrNull(data.ticketId)
    ensures TruthyInt(data.quantity) ==> b.quantity == data.quantity.value
    ensures !TruthyInt(data.quantity) ==> b.quantity == 1
    ensures b.stripeSessionId.Some? <==> TruthyStr(data.stripeSessionId)
    ensures b.stripeSessionId.Some? ==> b.stripeSessionId == data.stripeSessionId
  {
    Booking(
      id, data.userId, data.bookingType, data.checkIn, data.checkOut,
      IdOrNull(data.roomTypeId), IdOrNull(data.ticketId),
      if TruthyInt(data.quantity) then data.quantity.value else 1,
      Pending, data.totalPrice,
      if TruthyStr(data.stripeSessionId) then data.stripeSessionId else None,
      now)
  }

  /** `UPDATE bookings SET status = ? WHERE id = ?`. */
  function WithStatus(rows: map<int, Booking>, id: int, s: Status): (r: map<int, Booking>)
    ensures r.Keys == rows.Keys
    ensures id !in rows ==> r == rows
    ensures id in rows ==> r[id].status == s
    ensures forall k :: k in r ==> r[k].(status := rows[k].status) == rows[k]
    ensures forall k :: k in r && k != id ==> r[k] == rows[k]
  {
    if id in rows then rows[id := rows[id].(status := s)] else rows
  }

  /** `UPDATE bookings SET stripe_session_id = ? WHERE id = ?`. */
  function WithSessionId(rows: map<int, Booking>, id: int, sessionId: string): (r: map<int, Booking>)
    ensures r.Keys == rows.Keys
    ensures id !in rows ==> r == rows
    ensures id in rows ==> r[id].stripeSessionId == Some(sessionId)
    ensures forall k :: k in r ==> r[k].(stripeSessionId := rows[k].stripeSessionId) == rows[k]
    ensures forall k :: k in r && k != id ==> r[k] == rows[k]
  {
    if id in rows then rows[id := rows[id].(stripeSessionId := Some(sessionId))] else rows
  }

  /** `ORDER BY created_at DESC`. */
  predicate NewerOrSame(a: Booking, b: Booking)
  {
    a.createdAt >= b.createdAt
  }

  /** `getByUser`: that user's rows, newest first. */
  function GetByUser(rows: map<int, Booking>, bound: int, userId: int): (r: seq<Booking>)
    ensures Sorted(r, NewerOrSame)
    ensures forall x :: multiset(r)[x] == if x.userId == userId then multiset(Rows(rows, bound))[x] else 0
  {
    assert TotalPreorder(NewerOrSame);
    SortBy(Where(Rows(rows, bound), (b: Booking) => b.userId == userId), NewerOrSame)
  }

  /** `getAll`: every row, newest first. */
  function GetAll(rows: map<int, Booking>, bound: int): (r: seq<Booking>)
    ensures Sorted(r, NewerOrSame)
    ensures multiset(r) == multiset(Rows(rows, bound))
  {
    assert TotalPreorder(NewerOrSame);
    SortBy(Rows(rows, bound), NewerOrSame)
  }

  /** `getByStripeSessionId`: the first row, in primary-key order, carrying
      that checkout session. */
  function GetByStripeSessionId(rows: map<int, Booking>, bound: int, sessionId: string): (r: Option<Booking>)
    ensures r.Some? ==> r.value in Rows(rows, bound) && r.value.stripeSessionId == Some(sessionId)
    ensures r.None? ==> forall x :: x in Rows(rows, bound) ==> x.stripeSessionId != Some(sessionId)
  {
    var matching := Where(Rows(rows, bound), (b: Booking) => b.stripeSessionId == Some(sessionId));
    if matching == [] then None
    else
      assert matching[0] in matching;
      Some(matching[0])
  }

  /** The counter is positive, every key lies in [1, bound) and is the
      row's id. */
  ghost predicate KeyedBookings(rows: map<int, Booking>, bound: int)
  {
    bound >= 1 && KeysBelow(rows, bound) && forall k :: k in rows ==> rows[k].id == k
  }

  /** `getByUser` returns exactly that user's bookings. */
  lemma GetByUserExactly(rows: map<int, Booking>, bound: int, userId: int)
    requires KeyedBookings(rows, bound)
    ensures forall x :: x in GetByUser(rows, bound, userId) <==> x in rows.Values && x.userId == userId
  {
    var r := GetByUser(rows, bound, userId);
    RowsAreValues(rows, bound);
    forall x ensures x in r <==> x in rows.Values && x.userId == userId {
      assert x in r <==> x in multiset(r);
      assert x in Rows(rows, bound) <==> x in multiset(Rows(rows, bound));
    }
  }

  /** The `bookings` table: `rows` maps each id to its row, and `nextId` is
      the auto-increment counter. */
  class BookingTable {
    var rows: map<int, Booking>
    var nextId: int

    ghost predicate Valid()
      reads this
    {
      KeyedBookings(rows, nextId)
    }

    constructor (rows0: map<int, Booking>, nextId0: int)
      requires KeyedBookings(rows0, nextId0)
      ensures Valid() && rows == rows0 && nextId == nextId0
    {
      rows, nextId := rows0, nextId0;
    }

    /** `create`: inserts one pending row under a fresh id and returns the
        id; every existing row is left as it was. */
    method Create(data: NewBooking, now: int) returns (id: int)
      requires Valid()
      modifies this
      ensures Valid()
      ensures id == old(nextId) && id !in old(rows) && nextId == id + 1
      ensures rows == old(rows)[id := InsertedRow(data, id, now)]
    {
      id := nextId;
      rows := rows[id := InsertedRow(data, id, now)];
      nextId := nextId + 1;
    }

    /** `updateStatus`: only the status of row `id` changes; an unknown id
        changes nothing. */
    method UpdateStatus(id: int, s: Status)
      requires Valid()
      modifies this
      ensures Valid() && nextId == old(nextId)
      ensures rows == WithStatus(old(rows), id, s)
    {
      rows := WithStatus(rows, id, s);
    }

    /** `updateStripeSessionId`: only `stripe_session_id` of row `id`
        changes. */
    method UpdateStripeSessionId(id: int, sessionId: string)
      requires Valid()
      modifies this
      ensures Valid() && nextId == old(nextId)
      ensures rows == WithSessionId(old(rows), id, sessionId)
    {
      rows := WithSessionId(rows, id, sessionId);
    }

    /** `delete`: removes exactly row `id`. */
    method Delete(id: int)
      requires Valid()
      modifies this
      ensures Valid() && nextId == old(nextId)
      ensures rows == old(rows) - {id}
    {
      rows := rows - {id};
    }
  }
}
