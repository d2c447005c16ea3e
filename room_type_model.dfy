/** The `room_types` table (server/src/database/models/RoomType.ts) and
    the availability count it runs over the `bookings` table. */
module RoomTypeModel {
  import opened Common
  import opened Domain
  import opened Ordering

  /** Two stays, each the half-open range of nights [in, out), collide. */
  predicate Overlaps(aIn: int, aOut: int, bIn: int, bOut: int)
  {
    aIn < bOut && aOut > bIn
  }

  /** Night d falls in the stay [checkIn, checkOut). */
  predicate InStay(d: int, checkIn: int, checkOut: int)
  {
    checkIn <= d < checkOut
  }

  /** The overlap test is exactly "the two stays share a night": a stay
      ending on day n and one starting on day n share none. */
  lemma OverlapsIffSharedNight(aIn: int, aOut: int, bIn: int, bOut: int)
    requires aIn < aOut && bIn < bOut
    ensures Overlaps(aIn, aOut, bIn, bOut) <==> exists d :: InStay(d, aIn, aOut) && InStay(d, bIn, bOut)
  {
    if Overlaps(aIn, aOut, bIn, bOut) {
      var d := Max(aIn, bIn);
      assert InStay(d, aIn, aOut) && InStay(d, bIn, bOut);
    }
  }

  /** Statuses that hold a room: `status IN ('pending', 'confirmed')`. */
  predicate Active(s: Status)
  {
    s == Pending || s == Confirmed
  }

  /** The WHERE clause of `checkAvailability`: same room type, an active
      status, and a stay overlapping [checkIn, checkOut). NULL columns never
      match. */
  predicate Blocks(b: Booking, roomTypeId: int, checkIn: int, checkOut: int)
  {
    && b.roomTypeId == Some(roomTypeId)
    && Active(b.status)
    && b.checkIn.Some? && b.checkOut.Some?
    && Overlaps(b.checkIn.value, b.checkOut.value, checkIn, checkOut)
  }

  /** `SELECT COUNT(*) ... FROM bookings WHERE ...`: rows, not rooms. */
  function BookedCount(bookings: map<int, Booking>, roomTypeId: int, checkIn: int, checkOut: int): (r: nat)
    ensures r <= |bookings.Keys|
    ensures r == 0 <==> forall k :: k in bookings ==> !Blocks(bookings[k], roomTypeId, checkIn, checkOut)
  {
    var counted := set k | k in bookings && Blocks(bookings[k], roomTypeId, checkIn, checkOut);
    CountedRows(bookings, counted, roomTypeId, checkIn, checkOut);
    |counted|
  }

  /** The rows counted are among the table's rows, and there are none
      exactly when no row blocks the range. */
  lemma CountedRows(bookings: map<int, Booking>, counted: set<int>, roomTypeId: int, checkIn: int, checkOut: int)
    requires counted == set k | k in bookings && Blocks(bookings[k], roomTypeId, checkIn, checkOut)
    ensures |counted| <= |bookings.Keys|
    ensures |counted| == 0 <==> forall k :: k in bookings ==> !Blocks(bookings[k], roomTypeId, checkIn, checkOut)
  {
    assert bookings.Keys == counted + (bookings.Keys - counted);
    if |counted| == 0 {
      assert counted == {};
      forall k | k in bookings
        ensures !Blocks(bookings[k], roomTypeId, checkIn, checkOut)
      {
        assert k !in counted;
      }
    }
    if forall k :: k in bookings ==> !Blocks(bookings[k], roomTypeId, checkIn, checkOut) {
      assert counted == {};
    }
  }

  /** `checkAvailability`: free rooms of a room type for [checkIn, checkOut). */
  function CheckAvailability(roomTypes: map<int, RoomType>, bookings: map<int, Booking>,
                             roomTypeId: int, checkIn: int, checkOut: int): (r: int)
    ensures roomTypeId !in roomTypes ==> r == 0
    ensures r >= 0
    ensures roomTypeId in roomTypes ==> r <= Max(0, roomTypes[roomTypeId].totalRooms)
    ensures roomTypeId in roomTypes && r > 0 ==>
              r == roomTypes[roomTypeId].totalRooms - BookedCount(bookings, roomTypeId, checkIn, checkOut)
    ensures roomTypeId in roomTypes && r == 0 ==>
              BookedCount(bookings, roomTypeId, checkIn, checkOut) >= roomTypes[roomTypeId].totalRooms
  {
    if roomTypeId !in roomTypes then 0
    else Max(0, roomTypes[roomTypeId].totalRooms - BookedCount(bookings, roomTypeId, checkIn, checkOut))
  }

  /** Inserting a row under a fresh id adds one to the count exactly when
      the row blocks the range, whatever its quantity. */
  lemma {:induction false} BookedCountInsert(bookings: map<int, Booking>, k: int, b: Booking,
                                             roomTypeId: int, checkIn: int, checkOut: int)
    requires k !in bookings
    ensures BookedCount(bookings[k := b], roomTypeId, checkIn, checkOut)
         == BookedCount(bookings, roomTypeId, checkIn, checkOut)
          + (if Blocks(b, roomTypeId, checkIn, checkOut) then 1 else 0)
  {
    var before := set j | j in bookings && Blocks(bookings[j], roomTypeId, checkIn, checkOut);
    var updated := bookings[k := b];
    var after := set j | j in updated && Blocks(updated[j], roomTypeId, checkIn, checkOut);
    if Blocks(b, roomTypeId, checkIn, checkOut) {
      assert after == before + {k};
    } else {
      assert after == before;
    }
  }

  /** Replacing the row under an existing id changes the count by what the
      old and the new row each contributed. */
  lemma {:induction false} BookedCountReplace(bookings: map<int, Booking>, k: int, b: Booking,
                                              roomTypeId: int, checkIn: int, checkOut: int)
    requires k in bookings
    ensures BookedCount(bookings[k := b], roomTypeId, checkIn, checkOut)
          + (if Blocks(bookings[k], roomTypeId, checkIn, checkOut) then 1 else 0)
         == BookedCount(bookings, roomTypeId, checkIn, checkOut)
          + (if Blocks(b, roomTypeId, checkIn, checkOut) then 1 else 0)
  {
    var rest := bookings - {k};
    BookedCountInsert(rest, k, bookings[k], roomTypeId, checkIn, checkOut);
    BookedCountInsert(rest, k, b, roomTypeId, checkIn, checkOut);
    assert rest[k := bookings[k]] == bookings;
    assert rest[k := b] == bookings[k := b];
  }

  /** A new row that does not block the range (another room type, another
      range, or a cancelled or completed status) leaves availability as it
      was; a blocking one takes exactly one room, never more, whatever its
      quantity, and availability never goes up. */
  lemma AvailabilityAfterInsert(roomTypes: map<int, RoomType>, bookings: map<int, Booking>,
                                k: int, b: Booking, roomTypeId: int, checkIn: int, checkOut: int)
    requires k !in bookings
    ensures var before := CheckAvailability(roomTypes, bookings, roomTypeId, checkIn, checkOut);
            var after := CheckAvailability(roomTypes, bookings[k := b], roomTypeId, checkIn, checkOut);
            && (!Blocks(b, roomTypeId, checkIn, checkOut) ==> after == before)
            && (Blocks(b, roomTypeId, checkIn, checkOut) ==> after == Max(0, before - 1))
            && after <= before
  {
    BookedCountInsert(bookings, k, b, roomTypeId, checkIn, checkOut);
  }

  /** Cancelling (or completing) a row never lowers availability, and
      cancelling a row that blocked the range frees exactly one room when
      the count was within capacity. */
  lemma AvailabilityAfterRelease(roomTypes: map<int, RoomType>, bookings: map<int, Booking>,
                                 k: int, s: Status, roomTypeId: int, checkIn: int, checkOut: int)
    requires k in bookings && !Active(s)
    ensures var before := CheckAvailability(roomTypes, bookings, roomTypeId, checkIn, checkOut);
            var after := CheckAvailability(roomTypes, bookings[k := bookings[k].(status := s)], roomTypeId, checkIn, checkOut);
            && after >= before
            && (Blocks(bookings[k], roomTypeId, checkIn, checkOut) && roomTypeId in roomTypes
                && BookedCount(bookings, roomTypeId, checkIn, checkOut) <= roomTypes[roomTypeId].totalRooms
                ==> after == before + 1)
  {
    BookedCountReplace(bookings, k, bookings[k].(status := s), roomTypeId, checkIn, checkOut);
  }

  /** Rooms of a type in use on night d: active rows whose stay covers d. */
  function Occupancy(bookings: map<int, Booking>, roomTypeId: int, d: int): nat
  {
    BookedCount(bookings, roomTypeId, d, d + 1)
  }

  /** On no night does any room type have more active rows than rooms. */
  ghost predicate WithinCapacity(roomTypes: map<int, RoomType>, bookings: map<int, Booking>)
  {
    forall roomTypeId, d :: roomTypeId in roomTypes ==>
      Occupancy(bookings, roomTypeId, d) <= roomTypes[roomTypeId].totalRooms
  }

  /** Every row that holds night d of a range is counted for the range. */
  lemma OccupancyAtMostBooked(bookings: map<int, Booking>, roomTypeId: int, checkIn: int, checkOut: int, d: int)
    requires checkIn <= d < checkOut
    ensures Occupancy(bookings, roomTypeId, d) <= BookedCount(bookings, roomTypeId, checkIn, checkOut)
  {
    var night := set j | j in bookings && Blocks(bookings[j], roomTypeId, d, d + 1);
    var range := set j | j in bookings && Blocks(bookings[j], roomTypeId, checkIn, checkOut);
    assert night <= range;
    assert range == night + (range - night);
  }

  /** Inserting a row for a range that `checkAvailability` reports at least
      one room free for keeps every night within capacity. */
  lemma {:induction false} InsertKeepsCapacity(roomTypes: map<int, RoomType>, bookings: map<int, Booking>,
                                               k: int, b: Booking)
    requires WithinCapacity(roomTypes, bookings) && k !in bookings
    requires b.roomTypeId.Some? && b.checkIn.Some? && b.checkOut.Some?
    requires CheckAvailability(roomTypes, bookings, b.roomTypeId.value, b.checkIn.value, b.checkOut.value) >= 1
    ensures WithinCapacity(roomTypes, bookings[k := b])
  {
    var rt, lo, hi := b.roomTypeId.value, b.checkIn.value, b.checkOut.value;
    var after := bookings[k := b];
    forall roomTypeId, d | roomTypeId in roomTypes
      ensures Occupancy(after, roomTypeId, d) <= roomTypes[roomTypeId].totalRooms
    {
      assert Occupancy(bookings, roomTypeId, d) <= roomTypes[roomTypeId].totalRooms;
      BookedCountInsert(bookings, k, b, roomTypeId, d, d + 1);
      if Blocks(b, roomTypeId, d, d + 1) {
        assert roomTypeId == rt && lo <= d < hi;
        OccupancyAtMostBooked(bookings, rt, lo, hi, d);
      }
    }
  }

  /** Moving a row to a status that holds no room keeps every night within
      capacity. */
  lemma {:induction false} ReleaseKeepsCapacity(roomTypes: map<int, RoomType>, bookings: map<int, Booking>,
                                                k: int, s: Status)
    requires WithinCapacity(roomTypes, bookings) && k in bookings && !Active(s)
    ensures WithinCapacity(roomTypes, bookings[k := bookings[k].(status := s)])
  {
    var after := bookings[k := bookings[k].(status := s)];
    forall roomTypeId, d | roomTypeId in roomTypes
      ensures Occupancy(after, roomTypeId, d) <= roomTypes[roomTypeId].totalRooms
    {
      assert Occupancy(bookings, roomTypeId, d) <= roomTypes[roomTypeId].totalRooms;
      BookedCountReplace(bookings, k, bookings[k].(status := s), roomTypeId, d, d + 1);
    }
  }

  predicate CheaperOrEqual(a: RoomType, b: RoomType)
  {
    a.pricePerNight <= b.pricePerNight
  }

  /** Every key of the table lies in [1, bound) and is the row's id. */
  ghost predicate KeyedRoomTypes(roomTypes: map<int, RoomType>, bound: int)
  {
    KeysBelow(roomTypes, bound) && forall k :: k in roomTypes ==> roomTypes[k].id == k
  }

  /** `getByHotel`: `WHERE hotel_id = ? ORDER BY price_per_night ASC`. */
  function GetByHotel(roomTypes: map<int, RoomType>, bound: int, hotelId: int): (r: seq<RoomType>)
    ensures Sorted(r, CheaperOrEqual)
    ensures forall x :: multiset(r)[x] == if x.hotelId == hotelId then multiset(Rows(roomTypes, bound))[x] else 0
  {
    var rows := Rows(roomTypes, bound);
    var mine := Where(rows, (x: RoomType) => x.hotelId == hotelId);
    assert TotalPreorder(CheaperOrEqual);
    SortBy(mine, CheaperOrEqual)
  }

  /** `getByHotel` returns exactly that hotel's room types. */
  lemma GetByHotelExactly(roomTypes: map<int, RoomType>, bound: int, hotelId: int)
    requires KeyedRoomTypes(roomTypes, bound)
    ensures forall x :: x in GetByHotel(roomTypes, bound, hotelId) <==> x in roomTypes.Values && x.hotelId == hotelId
  {
    var r := GetByHotel(roomTypes, bound, hotelId);
    RowsAreValues(roomTypes, bound);
    forall x ensures x in r <==> x in roomTypes.Values && x.hotelId == hotelId {
      assert x in r <==> x in multiset(r);
      assert x in Rows(roomTypes, bound) <==> x in multiset(Rows(roomTypes, bound));
    }
  }

  /** The partial update body of `updateRoomType`. */
  datatype RoomTypePatch = RoomTypePatch(
    name: Patch<string>,
    description: Patch<Option<string>>,
    pricePerNight: Patch<int>,
    totalRooms: Patch<int>)

  /** The `room_types` table: `rows` maps each id to its row. */
  class RoomTypeTable {
    var rows: map<int, RoomType>
    var nextId: int

    ghost predicate Valid()
      reads this
    {
      KeyedRoomTypes(rows, nextId)
    }

    constructor (rows0: map<int, RoomType>, nextId0: int)
      requires KeyedRoomTypes(rows0, nextId0)
      ensures Valid() && rows == rows0 && nextId == nextId0
    {
      rows, nextId := rows0, nextId0;
    }

    /** `updateRoomType`: sets only the supplied columns of row `id`; with
        no column supplied, or no such row, nothing changes. */
    method UpdateRoomType(id: int, data: RoomTypePatch)
      requires Valid()
      modifies this
      ensures Valid() && nextId == old(nextId)
      ensures rows.Keys == old(rows).Keys
      ensures forall k :: k in rows && k != id ==> rows[k] == old(rows)[k]
      ensures id in rows ==>
                && rows[id].id == id && rows[id].hotelId == old(rows)[id].hotelId
                && rows[id].name == Or(data.name, old(rows)[id].name)
                && rows[id].description == Or(data.description, old(rows)[id].description)
                && rows[id].pricePerNight == Or(data.pricePerNight, old(rows)[id].pricePerNight)
                && rows[id].totalRooms == Or(data.totalRooms, old(rows)[id].totalRooms)
      ensures data == RoomTypePatch(Keep, Keep, Keep, Keep) ==> rows == old(rows)
    {
      var fields := 0;
      var row := if id in rows then rows[id] else RoomType(id, 0, "", None, 0, 0);
      if data.name.Put? {
        row := row.(name := data.name.value);
        fields := fields + 1;
      }
      if data.description.Put? {
        row := row.(description := data.description.value);
        fields := fields + 1;
      }
      if data.pricePerNight.Put? {
        row := row.(pricePerNight := data.pricePerNight.value);
        fields := fields + 1;
      }
      if data.totalRooms.Put? {
        row := row.(totalRooms := data.totalRooms.value);
        fields := fields + 1;
      }
      if fields == 0 {
        return;
      }
      if id in rows {
        rows := rows[id := row];
      }
    }
  }
}
