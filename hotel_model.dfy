/** The `hotels` table and the grouping of room types under their hotel
    (server/src/database/models/Hotel.ts). */
module HotelModel {
  import opened Common
  import opened Domain
  import opened Ordering
  import opened RoomTypeModel

  /** `ORDER BY name ASC`. */
  predicate NameAtMost(a: Hotel, b: Hotel)
  {
    StrLe(a.name, b.name)
  }

  lemma NameOrderIsTotal()
    ensures TotalPreorder(NameAtMost)
  {
    forall a: Hotel, b: Hotel ensures NameAtMost(a, b) || NameAtMost(b, a) {
      StrLeTotal(a.name, b.name);
    }
    forall a: Hotel, b: Hotel, c: Hotel | NameAtMost(a, b) && NameAtMost(b, c) ensures NameAtMost(a, c) {
      StrLeTransitive(a.name, b.name, c.name);
    }
  }

  /** A hotel row together with its `room_types`. */
  datatype HotelWithRooms = HotelWithRooms(hotel: Hotel, roomTypes: seq<RoomType>)

  /** `getAll`: every hotel, by name. */
  function GetAll(hotels: map<int, Hotel>, bound: int): (r: seq<Hotel>)
    ensures Sorted(r, NameAtMost)
    ensures multiset(r) == multiset(Rows(hotels, bound))
  {
    NameOrderIsTotal();
    SortBy(Rows(hotels, bound), NameAtMost)
  }

  /** `getById`: null for an unknown id. */
  function GetById(hotels: map<int, Hotel>, id: int): (r: Option<Hotel>)
    ensures r.Some? <==> id in hotels
    ensures r.Some? ==> r.value == hotels[id]
  {
    Lookup(hotels, id)
  }

  /** `SELECT * FROM room_types ORDER BY price_per_night ASC`. */
  function RoomTypesByPrice(roomTypes: map<int, RoomType>, bound: int): (r: seq<RoomType>)
    ensures Sorted(r, CheaperOrEqual)
    ensures multiset(r) == multiset(Rows(roomTypes, bound))
  {
    assert TotalPreorder(CheaperOrEqual);
    SortBy(Rows(roomTypes, bound), CheaperOrEqual)
  }

  /** The `filter` of `getAllWithRoomTypes`: one hotel's room types, in
      the order of the full list. */
  function OwnRoomTypes(all: seq<RoomType>, hotelId: int): (r: seq<RoomType>)
    ensures Sorted(all, CheaperOrEqual) ==> Sorted(r, CheaperOrEqual)
    ensures forall x :: multiset(r)[x] == if x.hotelId == hotelId then multiset(all)[x] else 0
  {
    var p := (rt: RoomType) => rt.hotelId == hotelId;
    if Sorted(all, CheaperOrEqual) then WhereKeepsSorted(all, p, CheaperOrEqual); Where(all, p)
    else Where(all, p)
  }

  /** `getAllWithRoomTypes`: the hotels by name, each with the room types
      whose `hotel_id` is its id, cheapest first. */
  function GetAllWithRoomTypes(hotels: map<int, Hotel>, hotelBound: int,
                               roomTypes: map<int, RoomType>, roomTypeBound: int): (r: seq<HotelWithRooms>)
    ensures |r| == |GetAll(hotels, hotelBound)|
    ensures forall i :: 0 <= i < |r| ==> r[i].hotel == GetAll(hotels, hotelBound)[i]
    ensures forall i :: 0 <= i < |r| ==> Sorted(r[i].roomTypes, CheaperOrEqual)
    ensures forall i, x :: 0 <= i < |r| ==>
              multiset(r[i].roomTypes)[x] ==
                if x.hotelId == r[i].hotel.id then multiset(Rows(roomTypes, roomTypeBound))[x] else 0
  {
    var hs := GetAll(hotels, hotelBound);
    var all := RoomTypesByPrice(roomTypes, roomTypeBound);
    seq(|hs|, i requires 0 <= i < |hs| => HotelWithRooms(hs[i], OwnRoomTypes(all, hs[i].id)))
  }

  /** Every key lies in [1, bound) and is the row's id. */
  ghost predicate KeyedHotels(hotels: map<int, Hotel>, bound: int)
  {
    KeysBelow(hotels, bound) && forall k :: k in hotels ==> hotels[k].id == k
  }

  /** `getAllWithRoomTypes` lists every stored hotel, and nothing else. */
  lemma ListsEveryHotel(hotels: map<int, Hotel>, hotelBound: int,
                        roomTypes: map<int, RoomType>, roomTypeBound: int)
    requires KeyedHotels(hotels, hotelBound)
    ensures var r := GetAllWithRoomTypes(hotels, hotelBound, roomTypes, roomTypeBound);
            forall h :: h in hotels.Values <==> exists i :: 0 <= i < |r| && r[i].hotel == h
  {
    var r := GetAllWithRoomTypes(hotels, hotelBound, roomTypes, roomTypeBound);
    var hs := GetAll(hotels, hotelBound);
    GetAllHoldsEveryHotel(hotels, hotelBound);
    forall h ensures h in hotels.Values <==> exists i :: 0 <= i < |r| && r[i].hotel == h {
      if h in hs {
        var i :| 0 <= i < |hs| && hs[i] == h;
        assert r[i].hotel == h;
      }
    }
  }

  /** `getAll` holds exactly the stored hotels. */
  lemma GetAllHoldsEveryHotel(hotels: map<int, Hotel>, bound: int)
    requires KeysBelow(hotels, bound)
    ensures forall h :: h in GetAll(hotels, bound) <==> h in hotels.Values
  {
    var hs := GetAll(hotels, bound);
    var rows := Rows(hotels, bound);
    RowsAreValues(hotels, bound);
    forall h ensures h in hs <==> h in rows {
      assert h in rows <==> h in multiset(rows);
      assert h in hs <==> h in multiset(hs);
    }
  }

  /** No hotel is listed twice by `getAllWithRoomTypes`. */
  lemma ListsHotelsOnce(hotels: map<int, Hotel>, hotelBound: int,
                        roomTypes: map<int, RoomType>, roomTypeBound: int)
    requires KeyedHotels(hotels, hotelBound)
    ensures var r := GetAllWithRoomTypes(hotels, hotelBound, roomTypes, roomTypeBound);
            forall i, j :: 0 <= i < j < |r| ==> r[i].hotel != r[j].hotel
  {
    var r := GetAllWithRoomTypes(hotels, hotelBound, roomTypes, roomTypeBound);
    var hs := GetAll(hotels, hotelBound);
    var rows := Rows(hotels, hotelBound);
    RowsDistinct(hotels, hotelBound, (h: Hotel) => h.id);
    forall i, j | 0 <= i < j < |r| ensures r[i].hotel != r[j].hotel {
      if r[i].hotel == r[j].hotel {
        assert hs[i] == hs[j];
        SeenTwice(hs, i, j);
        DistinctAtMostOnce(rows, hs[i]);
        assert false;
      }
    }
  }

  /** A hotel that owns no room type is listed with an empty `room_types`. */
  lemma NoRoomTypesEmptyList(hotels: map<int, Hotel>, hotelBound: int,
                             roomTypes: map<int, RoomType>, roomTypeBound: int, i: int)
    requires KeyedRoomTypes(roomTypes, roomTypeBound)
    requires 0 <= i < |GetAllWithRoomTypes(hotels, hotelBound, roomTypes, roomTypeBound)|
    requires forall x :: x in roomTypes.Values ==>
               x.hotelId != GetAllWithRoomTypes(hotels, hotelBound, roomTypes, roomTypeBound)[i].hotel.id
    ensures GetAllWithRoomTypes(hotels, hotelBound, roomTypes, roomTypeBound)[i].roomTypes == []
  {
    var entry := GetAllWithRoomTypes(hotels, hotelBound, roomTypes, roomTypeBound)[i];
    RowsAreValues(roomTypes, roomTypeBound);
    forall x ensures multiset(entry.roomTypes)[x] == 0 {
      if x.hotelId == entry.hotel.id {
        assert x !in Rows(roomTypes, roomTypeBound);
      }
    }
    assert multiset(entry.roomTypes) == multiset{};
  }

  /** `getByIdWithRoomTypes`: null for an unknown hotel, otherwise that hotel
      with its own room types, cheapest first. */
  function GetByIdWithRoomTypes(hotels: map<int, Hotel>, roomTypes: map<int, RoomType>,
                                roomTypeBound: int, id: int): (r: Option<HotelWithRooms>)
    ensures r.None? <==> id !in hotels
    ensures r.Some? ==> r.value.hotel == hotels[id]
    ensures r.Some? ==> Sorted(r.value.roomTypes, CheaperOrEqual)
    ensures r.Some? ==> forall x :: x in r.value.roomTypes ==> x.hotelId == id
  {
    match GetById(hotels, id)
    case None => None
    case Some(hotel) =>
      var mine := GetByHotel(roomTypes, roomTypeBound, id);
      assert forall x :: x in mine ==> x in multiset(mine);
      Some(HotelWithRooms(hotel, mine))
  }

  /** A hotel fetched by id has the same room types as its entry in the full
      listing. */
  lemma ByIdAgreesWithListing(hotels: map<int, Hotel>, hotelBound: int,
                              roomTypes: map<int, RoomType>, roomTypeBound: int, i: int)
    requires KeyedHotels(hotels, hotelBound)
    requires 0 <= i < |GetAllWithRoomTypes(hotels, hotelBound, roomTypes, roomTypeBound)|
    ensures var entry := GetAllWithRoomTypes(hotels, hotelBound, roomTypes, roomTypeBound)[i];
            var one := GetByIdWithRoomTypes(hotels, roomTypes, roomTypeBound, entry.hotel.id);
            && one.Some?
            && one.value.hotel == entry.hotel
            && multiset(one.value.roomTypes) == multiset(entry.roomTypes)
  {
    var entry := GetAllWithRoomTypes(hotels, hotelBound, roomTypes, roomTypeBound)[i];
    var h := entry.hotel;
    StoredHotel(hotels, hotelBound, GetAll(hotels, hotelBound), i);
    var one := GetByHotel(roomTypes, roomTypeBound, h.id);
    assert GetByIdWithRoomTypes(hotels, roomTypes, roomTypeBound, h.id) == Some(HotelWithRooms(h, one));
    SameSelection(one, entry.roomTypes, Rows(roomTypes, roomTypeBound), h.id);
  }

  /** Two selections of the same hotel's room types from the same rows hold
      the same room types. */
  lemma SameSelection(a: seq<RoomType>, b: seq<RoomType>, rows: seq<RoomType>, hotelId: int)
    requires forall x :: multiset(a)[x] == if x.hotelId == hotelId then multiset(rows)[x] else 0
    requires forall x :: multiset(b)[x] == if x.hotelId == hotelId then multiset(rows)[x] else 0
    ensures multiset(a) == multiset(b)
  {
    assert forall x :: multiset(a)[x] == multiset(b)[x];
  }

  /** A hotel of the name-ordered listing is the stored row under its id. */
  lemma StoredHotel(hotels: map<int, Hotel>, hotelBound: int, hs: seq<Hotel>, i: int)
    requires KeyedHotels(hotels, hotelBound)
    requires hs == GetAll(hotels, hotelBound) && 0 <= i < |hs|
    ensures hs[i].id in hotels && hotels[hs[i].id] == hs[i]
  {
    assert hs[i] in multiset(hs);
    assert hs[i] in Rows(hotels, hotelBound);
    RowsAreValues(hotels, hotelBound);
  }
}
