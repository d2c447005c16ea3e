/** The client's shopping cart (client/src/contexts/CartContext.tsx): a list
    of ticket and hotel items that the page replaces through five
    operations, with a derived item count and total. Check-in and
    check-out are day numbers; the nights between them come from a
    function the cart is given. */
module CartContext {
  import opened Common
  import opened Domain

  /** An item's `id`: `ticket-<ticket id>`, or
      `hotel-<room type id>-<check-in>-<check-out>`. */
  datatype ItemKey = TicketKey(ticketId: int) | HotelKey(roomTypeId: int, checkIn: int, checkOut: int)

  datatype CartItem =
    | TicketItem(ticket: Ticket, quantity: int)
    | HotelItem(hotelId: int, hotelName: string, roomType: RoomType, checkIn: int, checkOut: int, quantity: int)

  function Key(item: CartItem): ItemKey
  {
    match item
    case TicketItem(t, _) => TicketKey(t.id)
    case HotelItem(_, _, rt, checkIn, checkOut, _) => HotelKey(rt.id, checkIn, checkOut)
  }

  predicate HasKey(items: seq<CartItem>, key: ItemKey)
  {
    exists i :: 0 <= i < |items| && Key(items[i]) == key
  }

  /** No two items share an `id`: the last item's key is not among the
      earlier items, whose keys are unique in turn. */
  ghost predicate UniqueKeys(items: seq<CartItem>)
    decreases |items|
  {
    items == [] || (UniqueKeys(items[..|items| - 1]) && !HasKey(items[..|items| - 1], Key(items[|items| - 1])))
  }

  /** `UniqueKeys` is the pairwise statement: no two positions hold the
      same key. */
  lemma {:induction false} UniqueKeysPairwise(items: seq<CartItem>)
    ensures UniqueKeys(items) <==> forall i, j :: 0 <= i < j < |items| ==> Key(items[i]) != Key(items[j])
  {
    if items != [] {
      var n := |items|;
      var init := items[..n - 1];
      UniqueKeysPairwise(init);
      if UniqueKeys(items) {
        forall i, j | 0 <= i < j < n ensures Key(items[i]) != Key(items[j]) {
          assert items[i] == init[i];
          if j < n - 1 {
            assert items[j] == init[j];
          }
        }
      }
      if forall i, j :: 0 <= i < j < n ==> Key(items[i]) != Key(items[j]) {
        forall i, j | 0 <= i < j < n - 1 ensures Key(init[i]) != Key(init[j]) {
          assert init[i] == items[i] && init[j] == items[j];
        }
        forall k | 0 <= k < n - 1 ensures Key(init[k]) != Key(items[n - 1]) {
          assert init[k] == items[k];
        }
      }
    }
  }

  /** Two positions of a cart with unique keys that hold the same key are
      the same position. */
  lemma UniqueKeyAt(items: seq<CartItem>, i: int, j: int)
    requires UniqueKeys(items) && 0 <= i < |items| && 0 <= j < |items| && Key(items[i]) == Key(items[j])
    ensures i == j
  {
    UniqueKeysPairwise(items);
  }

  /** The `map` of `addTicket` and `addHotel`: the items with that key get
      `delta` more. */
  function Bump(items: seq<CartItem>, key: ItemKey, delta: int): (r: seq<CartItem>)
    ensures |r| == |items|
    ensures forall i :: 0 <= i < |r| ==>
              r[i] == if Key(items[i]) == key then items[i].(quantity := items[i].quantity + delta) else items[i]
  {
    if items == [] then []
    else Bump(items[..|items| - 1], key, delta) + [
      var last := items[|items| - 1];
      if Key(last) == key then last.(quantity := last.quantity + delta) else last]
  }

  /** The `map` of `setTicketQuantity`: the items with that key get
      `quantity`. */
  function SetQuantity(items: seq<CartItem>, key: ItemKey, quantity: int): (r: seq<CartItem>)
    ensures |r| == |items|
    ensures forall i :: 0 <= i < |r| ==>
              r[i] == if Key(items[i]) == key then items[i].(quantity := quantity) else items[i]
  {
    if items == [] then []
    else SetQuantity(items[..|items| - 1], key, quantity) + [
      var last := items[|items| - 1];
      if Key(last) == key then last.(quantity := quantity) else last]
  }

  /** The `filter` of `removeItem` and of `setTicketQuantity` at zero. */
  function Without(items: seq<CartItem>, key: ItemKey): (r: seq<CartItem>)
    ensures forall x :: x in r <==> x in items && Key(x) != key
    ensures forall x :: multiset(r)[x] == if Key(x) != key then multiset(items)[x] else 0
    ensures !HasKey(r, key)
  {
    Where(items, (x: CartItem) => Key(x) != key)
  }

  /** `filter` keeps the order of the items: removing from an empty cart
      leaves it empty, and a last item stays last exactly when its id
      differs. */
  lemma WithoutKeepsOrder(items: seq<CartItem>, x: CartItem, key: ItemKey)
    ensures Without([], key) == []
    ensures Without(items + [x], key) == Without(items, key) + (if Key(x) != key then [x] else [])
  {
    WhereAppend(items, x, (y: CartItem) => Key(y) != key);
  }

  /** `addTicket`: a ticket already in the cart gets `quantity` more and
      keeps the ticket it was first added with; a new one is appended. */
  function WithTicket(items: seq<CartItem>, ticket: Ticket, quantity: int): (r: seq<CartItem>)
    ensures HasKey(items, TicketKey(ticket.id)) ==>
              && |r| == |items|
              && forall i :: 0 <= i < |r| ==>
                   && Key(r[i]) == Key(items[i])
                   && (Key(items[i]) == TicketKey(ticket.id) ==> r[i] == items[i].(quantity := items[i].quantity + quantity))
                   && (Key(items[i]) != TicketKey(ticket.id) ==> r[i] == items[i])
    ensures !HasKey(items, TicketKey(ticket.id)) ==> r == items + [TicketItem(ticket, quantity)]
  {
    if HasKey(items, TicketKey(ticket.id)) then Bump(items, TicketKey(ticket.id), quantity)
    else items + [TicketItem(ticket, quantity)]
  }

  /** `setTicketQuantity`: at zero or below the ticket's items go; above
      zero they take the quantity; nothing else changes. */
  function WithTicketQuantity(items: seq<CartItem>, ticketId: int, quantity: int): (r: seq<CartItem>)
    ensures quantity <= 0 ==> r == Without(items, TicketKey(ticketId))
    ensures quantity <= 0 ==> !HasKey(r, TicketKey(ticketId))
                              && forall x :: x in r <==> x in items && Key(x) != TicketKey(ticketId)
    ensures quantity > 0 ==>
              && |r| == |items|
              && forall i :: 0 <= i < |r| ==>
                   && Key(r[i]) == Key(items[i])
                   && (Key(items[i]) == TicketKey(ticketId) ==> r[i] == TicketItem(items[i].ticket, quantity))
                   && (Key(items[i]) != TicketKey(ticketId) ==> r[i] == items[i])
  {
    if quantity <= 0 then Without(items, TicketKey(ticketId))
    else SetQuantity(items, TicketKey(ticketId), quantity)
  }

  /** The argument of `addHotel`; `quantity` is `None` when null or
      undefined. */
  datatype HotelChoice = HotelChoice(hotelId: int, hotelName: string, roomType: RoomType,
                                     checkIn: int, checkOut: int, quantity: Option<int>)

  function ChoiceKey(c: HotelChoice): ItemKey
  {
    HotelKey(c.roomType.id, c.checkIn, c.checkOut)
  }

  /** `data.quantity ?? 1`. */
  function QuantityOrOne(q: Option<int>): int
  {
    if q.Some? then q.value else 1
  }

  /** `addHotel`: the same room type and dates merge into one item; a new
      stay is appended with quantity 1 by default. */
  function WithHotel(items: seq<CartItem>, c: HotelChoice): (r: seq<CartItem>)
    ensures HasKey(items, ChoiceKey(c)) ==>
              && |r| == |items|
              && forall i :: 0 <= i < |r| ==>
                   && Key(r[i]) == Key(items[i])
                   && (Key(items[i]) == ChoiceKey(c) ==> r[i] == items[i].(quantity := items[i].quantity + QuantityOrOne(c.quantity)))
                   && (Key(items[i]) != ChoiceKey(c) ==> r[i] == items[i])
    ensures !HasKey(items, ChoiceKey(c)) ==>
              r == items + [HotelItem(c.hotelId, c.hotelName, c.roomType, c.checkIn, c.checkOut, QuantityOrOne(c.quantity))]
  {
    var key := ChoiceKey(c);
    if HasKey(items, key) then Bump(items, key, QuantityOrOne(c.quantity))
    else items + [HotelItem(c.hotelId, c.hotelName, c.roomType, c.checkIn, c.checkOut, QuantityOrOne(c.quantity))]
  }

  /** `item.quantity || 1`. */
  function Counted(item: CartItem): int
  {
    if item.quantity == 0 then 1 else item.quantity
  }

  /** No item holds a negative quantity. */
  predicate NoNegativeQuantity(items: seq<CartItem>)
  {
    forall i :: 0 <= i < |items| ==> items[i].quantity >= 0
  }

  /** `itemCount`: every item counts at least once when no quantity is
      negative. */
  function ItemCount(items: seq<CartItem>): (r: int)
    ensures NoNegativeQuantity(items) ==> r >= |items|
  {
    if items == [] then 0 else ItemCount(items[..|items| - 1]) + Counted(items[|items| - 1])
  }

  /** One item's share of `total`. */
  function Amount(item: CartItem, nights: (int, int) -> int): int
  {
    match item
    case TicketItem(t, q) => t.price * q
    case HotelItem(_, _, rt, checkIn, checkOut, q) => rt.pricePerNight * nights(checkIn, checkOut) * q
  }

  /** `total`: no item's share is negative, so neither is the total. */
  function Total(items: seq<CartItem>, nights: (int, int) -> int): (r: int)
    ensures (forall i :: 0 <= i < |items| ==> Amount(items[i], nights) >= 0) ==> r >= 0
    ensures (forall i :: 0 <= i < |items| ==> Amount(items[i], nights) == 0) ==> r == 0
  {
    if items == [] then 0 else Total(items[..|items| - 1], nights) + Amount(items[|items| - 1], nights)
  }

  /** The item count and the total are sums over the items: appending one
      adds its share. */
  lemma AppendAddsShare(items: seq<CartItem>, x: CartItem, nights: (int, int) -> int)
    ensures ItemCount(items + [x]) == ItemCount(items) + Counted(x)
    ensures Total(items + [x], nights) == Total(items, nights) + Amount(x, nights)
  {
    assert (items + [x])[..|items|] == items;
  }

  /** When every item of a key holds at least one, adding `delta >= 0` to
      the only item with that key raises the item count by `delta`. */
  lemma {:induction false} BumpCount(items: seq<CartItem>, key: ItemKey, delta: int)
    requires UniqueKeys(items) && HasKey(items, key) && delta >= 0
    requires forall i :: 0 <= i < |items| && Key(items[i]) == key ==> items[i].quantity >= 1
    ensures ItemCount(Bump(items, key, delta)) == ItemCount(items) + delta
  {
    var n := |items|;
    var init := items[..n - 1];
    var last := items[n - 1];
    assert items == init + [last];
    var r := Bump(items, key, delta);
    assert r == Bump(init, key, delta) + [r[n - 1]];
    if Key(last) == key {
      assert Bump(init, key, delta) == init;
    } else {
      var k :| 0 <= k < n && Key(items[k]) == key;
      assert init[k] == items[k];
      BumpCount(init, key, delta);
    }
    AppendAddsShare(Bump(init, key, delta), r[n - 1], (a: int, b: int) => 0);
    AppendAddsShare(init, last, (a: int, b: int) => 0);
  }

  /** Adding a ticket of which the cart already holds at least one raises
      the item count by the amount added; a new ticket adds its own
      count. */
  lemma AddTicketCount(items: seq<CartItem>, ticket: Ticket, quantity: int)
    requires UniqueKeys(items) && quantity >= 1
    requires forall i :: 0 <= i < |items| ==> items[i].quantity >= 1
    ensures ItemCount(WithTicket(items, ticket, quantity)) == ItemCount(items) + quantity
  {
    if HasKey(items, TicketKey(ticket.id)) {
      BumpCount(items, TicketKey(ticket.id), quantity);
    } else {
      AppendAddsShare(items, TicketItem(ticket, quantity), (a: int, b: int) => 0);
    }
  }

  /** Items whose keys are unchanged keep the keys unique. */
  lemma SameKeysStayUnique(items: seq<CartItem>, r: seq<CartItem>)
    requires UniqueKeys(items) && |r| == |items|
    requires forall i :: 0 <= i < |r| ==> Key(r[i]) == Key(items[i])
    ensures UniqueKeys(r)
  {
    UniqueKeysPairwise(items);
    UniqueKeysPairwise(r);
  }

  /** Appending an item with a new key keeps the keys unique. */
  lemma AppendNewKeyStaysUnique(items: seq<CartItem>, x: CartItem)
    requires UniqueKeys(items) && !HasKey(items, Key(x))
    ensures UniqueKeys(items + [x])
  {
    assert (items + [x])[..|items|] == items;
  }

  /** Filtering keeps the keys unique. */
  lemma WithoutStaysUnique(items: seq<CartItem>, key: ItemKey)
    requires UniqueKeys(items)
    ensures UniqueKeys(Without(items, key))
  {
    var r := Without(items, key);
    UniqueKeysPairwise(items);
    UniqueKeysPairwise(r);
    assert Distinct(items) by {
      forall i, j | 0 <= i < j < |items| ensures items[i] != items[j] {
        assert Key(items[i]) != Key(items[j]);
      }
    }
    forall i, j | 0 <= i < j < |r| ensures Key(r[i]) != Key(r[j]) {
      if Key(r[i]) == Key(r[j]) {
        assert r[i] in items && r[j] in items;
        var a :| 0 <= a < |items| && items[a] == r[i];
        var b :| 0 <= b < |items| && items[b] == r[j];
        assert a == b;
        SeenTwice(r, i, j);
        DistinctAtMostOnce(items, r[i]);
      }
    }
  }

  /** The cart never holds two items with the same `id`: every operation
      keeps the keys unique. */
  lemma OperationsKeepKeysUnique(items: seq<CartItem>, ticket: Ticket, ticketId: int, quantity: int,
                                 c: HotelChoice, key: ItemKey)
    requires UniqueKeys(items)
    ensures UniqueKeys(WithTicket(items, ticket, quantity))
    ensures UniqueKeys(WithTicketQuantity(items, ticketId, quantity))
    ensures UniqueKeys(WithHotel(items, c))
    ensures UniqueKeys(Without(items, key))
  {
    if HasKey(items, TicketKey(ticket.id)) {
      SameKeysStayUnique(items, WithTicket(items, ticket, quantity));
    } else {
      AppendNewKeyStaysUnique(items, TicketItem(ticket, quantity));
    }
    if quantity <= 0 {
      WithoutStaysUnique(items, TicketKey(ticketId));
    } else {
      SameKeysStayUnique(items, WithTicketQuantity(items, ticketId, quantity));
    }
    if HasKey(items, ChoiceKey(c)) {
      SameKeysStayUnique(items, WithHotel(items, c));
    } else {
      AppendNewKeyStaysUnique(items, HotelItem(c.hotelId, c.hotelName, c.roomType, c.checkIn, c.checkOut, QuantityOrOne(c.quantity)));
    }
    WithoutStaysUnique(items, key);
  }

  /** The cart: `items` is the signal the operations replace. */
  class Cart {
    var items: seq<CartItem>

    constructor ()
      ensures items == []
    {
      items := [];
    }

    /** `addTicket(ticket, quantity)`; an undefined quantity is 1. */
    method AddTicket(ticket: Ticket, quantity: Option<int>)
      modifies this
      ensures items == WithTicket(old(items), ticket, QuantityOrOne(quantity))
    {
      items := WithTicket(items, ticket, QuantityOrOne(quantity));
    }

    method SetTicketQuantity(ticketId: int, quantity: int)
      modifies this
      ensures items == WithTicketQuantity(old(items), ticketId, quantity)
    {
      items := WithTicketQuantity(items, ticketId, quantity);
    }

    method AddHotel(c: HotelChoice)
      modifies this
      ensures items == WithHotel(old(items), c)
    {
      items := WithHotel(items, c);
    }

    /** `removeItem`: every item with that `id` goes, and only those. */
    method RemoveItem(key: ItemKey)
      modifies this
      ensures items == Without(old(items), key)
    {
      items := Without(items, key);
    }

    method Clear()
      modifies this
      ensures items == []
    {
      items := [];
    }
  }
}
