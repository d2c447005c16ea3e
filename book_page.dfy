/** The ticket page (client/src/pages/Book.tsx): the tickets selected in
    the cart, their total, and the stepper that changes a ticket's
    quantity one step at a time through the cart's operations. */
module BookPage {
  import opened Common
  import opened Domain
  import opened CartContext

  datatype SelectedTicket = SelectedTicket(ticket: Ticket, quantity: int)

  /** The number of ticket items in `items`. */
  function TicketCount(items: seq<CartItem>): (n: nat)
    ensures n <= |items|
  {
    if items == [] then 0
    else TicketCount(items[..|items| - 1]) + (if items[|items| - 1].TicketItem? then 1 else 0)
  }

  /** `selected`: the ticket items of the cart, each as a (ticket,
      quantity) entry, and nothing else. */
  function Selected(items: seq<CartItem>): (r: seq<SelectedTicket>)
    ensures forall s :: s in r ==>
              exists i :: 0 <= i < |items| && items[i] == TicketItem(s.ticket, s.quantity)
    ensures forall i :: 0 <= i < |items| && items[i].TicketItem? ==>
              SelectedTicket(items[i].ticket, items[i].quantity) in r
  {
    if items == [] then []
    else
      var init := items[..|items| - 1];
      var last := items[|items| - 1];
      assert forall i :: 0 <= i < |init| ==> init[i] == items[i];
      Selected(init) + (if last.TicketItem? then [SelectedTicket(last.ticket, last.quantity)] else [])
  }

  /** The selection keeps cart order: the ticket item at position `i` is
      entry number `TicketCount(items[..i])`, and there are as many entries
      as ticket items. */
  lemma {:induction false} SelectedInCartOrder(items: seq<CartItem>)
    ensures |Selected(items)| == TicketCount(items)
    ensures forall i :: 0 <= i < |items| && items[i].TicketItem? ==>
              TicketCount(items[..i]) < |Selected(items)|
              && Selected(items)[TicketCount(items[..i])] == SelectedTicket(items[i].ticket, items[i].quantity)
  {
    if items != [] {
      var init := items[..|items| - 1];
      var last := items[|items| - 1];
      var front := Selected(init);
      SelectedInCartOrder(init);
      assert Selected(items) == front + (if last.TicketItem? then [SelectedTicket(last.ticket, last.quantity)] else []);
      forall i | 0 <= i < |items| && items[i].TicketItem?
        ensures TicketCount(items[..i]) < |Selected(items)|
        ensures Selected(items)[TicketCount(items[..i])] == SelectedTicket(items[i].ticket, items[i].quantity)
      {
        if i < |init| {
          assert init[..i] == items[..i] && init[i] == items[i];
        } else {
          assert items[..i] == init;
        }
      }
    }
  }

  /** `find`: the first selected entry for that ticket id. */
  function FindSelected(sel: seq<SelectedTicket>, ticketId: int): (r: Option<SelectedTicket>)
    ensures r.Some? ==> r.value in sel && r.value.ticket.id == ticketId
    ensures r.None? ==> forall s :: s in sel ==> s.ticket.id != ticketId
    ensures r.Some? ==> exists k :: 0 <= k < |sel| && sel[k] == r.value
                                    && forall j :: 0 <= j < k ==> sel[j].ticket.id != ticketId
  {
    if sel == [] then None
    else if sel[0].ticket.id == ticketId then Some(sel[0])
    else FindSelected(sel[1..], ticketId)
  }

  /** `getSelectedQuantity`: `item?.quantity || 0`; a quantity other than
      0 is that of a ticket item with that id. */
  function SelectedQuantity(items: seq<CartItem>, ticketId: int): (r: int)
    ensures r != 0 ==> exists i :: 0 <= i < |items| && Key(items[i]) == TicketKey(ticketId) && items[i].quantity == r
    ensures !HasKey(items, TicketKey(ticketId)) ==> r == 0
  {
    match FindSelected(Selected(items), ticketId)
    case None => 0
    case Some(s) => if s.quantity == 0 then 0 else s.quantity
  }

  /** The stepper's bound: `Math.max(0, Math.min(10, n))`. */
  function Clamp(n: int): (r: int)
    ensures 0 <= r <= 10
    ensures 0 <= n <= 10 ==> r == n
    ensures n < 0 ==> r == 0
    ensures n > 10 ==> r == 10
  {
    Max(0, Min(10, n))
  }

  /** The cart after `updateQuantity(ticket, delta)`: from 0 to a positive
      quantity the ticket is added with it, otherwise the quantity is set,
      which at 0 removes the ticket. */
  function Stepped(items: seq<CartItem>, ticket: Ticket, delta: int): seq<CartItem>
  {
    var current := SelectedQuantity(items, ticket.id);
    var quantity := Clamp(current + delta);
    if current == 0 && quantity > 0 then WithTicket(items, ticket, quantity)
    else WithTicketQuantity(items, ticket.id, quantity)
  }

  /** A press of the stepper keeps every item of another id and adds
      none. */
  lemma SteppedKeepsOtherItems(items: seq<CartItem>, ticket: Ticket, delta: int)
    ensures forall x :: x in items && Key(x) != TicketKey(ticket.id) ==> x in Stepped(items, ticket, delta)
    ensures forall x :: x in Stepped(items, ticket, delta) && Key(x) != TicketKey(ticket.id) ==> x in items
  {
    var current := SelectedQuantity(items, ticket.id);
    var quantity := Clamp(current + delta);
    var after := Stepped(items, ticket, delta);
    var key := TicketKey(ticket.id);
    if !(current == 0 && quantity > 0) || HasKey(items, key) {
      if quantity > 0 {
        assert |after| == |items|;
        forall x | x in items && Key(x) != key ensures x in after {
          var i :| 0 <= i < |items| && items[i] == x;
          assert after[i] == x;
        }
        forall x | x in after && Key(x) != key ensures x in items {
          var i :| 0 <= i < |after| && after[i] == x;
          assert items[i] == x;
        }
      }
    }
  }

  /** `updateQuantity`. */
  method UpdateQuantity(cart: Cart, ticket: Ticket, delta: int)
    modifies cart
    ensures cart.items == Stepped(old(cart.items), ticket, delta)
  {
    var current := SelectedQuantity(cart.items, ticket.id);
    var quantity := Clamp(current + delta);
    ghost var after := Stepped(cart.items, ticket, delta);
    if current == 0 && quantity > 0 {
      assert after == WithTicket(cart.items, ticket, quantity);
      assert QuantityOrOne(Some(quantity)) == quantity;
      cart.AddTicket(ticket, Some(quantity));
      return;
    }
    assert after == WithTicketQuantity(cart.items, ticket.id, quantity);
    cart.SetTicketQuantity(ticket.id, quantity);
  }

  /** `totalPrice`: a sum of price × quantity that is never negative when
      no price or quantity is. */
  function TotalPrice(sel: seq<SelectedTicket>): (r: int)
    ensures (forall i :: 0 <= i < |sel| ==> sel[i].ticket.price >= 0 && sel[i].quantity >= 0) ==> r >= 0
  {
    if sel == [] then 0 else TotalPrice(sel[..|sel| - 1]) + sel[|sel| - 1].ticket.price * sel[|sel| - 1].quantity
  }

  /** In a cart without repeated ids, the quantity shown for a ticket is
      the quantity of its item, and 0 when it has none. */
  lemma QuantityShown(items: seq<CartItem>, ticketId: int)
    requires UniqueKeys(items)
    ensures forall i :: 0 <= i < |items| && Key(items[i]) == TicketKey(ticketId) ==>
              SelectedQuantity(items, ticketId) == items[i].quantity
    ensures !HasKey(items, TicketKey(ticketId)) ==> SelectedQuantity(items, ticketId) == 0
  {
    var f := FindSelected(Selected(items), ticketId);
    if f.Some? {
      var i :| 0 <= i < |items| && items[i] == TicketItem(f.value.ticket, f.value.quantity);
      assert Key(items[i]) == TicketKey(ticketId);
      forall j | 0 <= j < |items| && Key(items[j]) == TicketKey(ticketId)
        ensures SelectedQuantity(items, ticketId) == items[j].quantity
      {
        UniqueKeyAt(items, i, j);
      }
    } else {
      forall i | 0 <= i < |items| ensures Key(items[i]) != TicketKey(ticketId) {
        if items[i].TicketItem? {
          assert SelectedTicket(items[i].ticket, items[i].quantity) in Selected(items);
        }
      }
    }
  }

  /** One press of the stepper leaves the ticket at `current + delta`
      clamped to [0, 10], whatever the cart held before, and keeps the
      cart's ids unique. */
  lemma StepperSetsClampedQuantity(items: seq<CartItem>, ticket: Ticket, delta: int)
    requires UniqueKeys(items)
    ensures UniqueKeys(Stepped(items, ticket, delta))
    ensures SelectedQuantity(Stepped(items, ticket, delta), ticket.id)
            == Clamp(SelectedQuantity(items, ticket.id) + delta)
  {
    var current := SelectedQuantity(items, ticket.id);
    if current == 0 && Clamp(current + delta) > 0 {
      StepAdds(items, ticket, delta);
    } else if Clamp(current + delta) > 0 {
      StepSets(items, ticket, delta);
    } else {
      StepRemoves(items, ticket, delta);
    }
  }

  /** From 0 the ticket is added with the new quantity. */
  lemma StepAdds(items: seq<CartItem>, ticket: Ticket, delta: int)
    requires UniqueKeys(items) && SelectedQuantity(items, ticket.id) == 0 && Clamp(delta) > 0
    ensures UniqueKeys(Stepped(items, ticket, delta))
    ensures SelectedQuantity(Stepped(items, ticket, delta), ticket.id) == Clamp(delta)
  {
    assert Stepped(items, ticket, delta) == WithTicket(items, ticket, Clamp(delta));
    if HasKey(items, TicketKey(ticket.id)) {
      AddToZeroItem(items, ticket, Clamp(delta));
    } else {
      AddNewItem(items, ticket, Clamp(delta));
    }
  }

  /** A ticket item held at 0 takes the quantity added. */
  lemma AddToZeroItem(items: seq<CartItem>, ticket: Ticket, quantity: int)
    requires UniqueKeys(items) && SelectedQuantity(items, ticket.id) == 0 && HasKey(items, TicketKey(ticket.id))
    ensures UniqueKeys(WithTicket(items, ticket, quantity))
    ensures SelectedQuantity(WithTicket(items, ticket, quantity), ticket.id) == quantity
  {
    var after := WithTicket(items, ticket, quantity);
    var key := TicketKey(ticket.id);
    QuantityShown(items, ticket.id);
    SameKeysStayUnique(items, after);
    QuantityShown(after, ticket.id);
    var i :| 0 <= i < |items| && Key(items[i]) == key;
    assert Key(after[i]) == key;
  }

  /** A ticket not in the cart is appended with the quantity. */
  lemma AddNewItem(items: seq<CartItem>, ticket: Ticket, quantity: int)
    requires UniqueKeys(items) && !HasKey(items, TicketKey(ticket.id))
    ensures UniqueKeys(WithTicket(items, ticket, quantity))
    ensures SelectedQuantity(WithTicket(items, ticket, quantity), ticket.id) == quantity
  {
    var after := WithTicket(items, ticket, quantity);
    AppendNewKeyStaysUnique(items, TicketItem(ticket, quantity));
    QuantityShown(after, ticket.id);
    assert Key(after[|items|]) == TicketKey(ticket.id);
  }

  /** From a non-zero quantity the ticket's item takes the new one. */
  lemma StepSets(items: seq<CartItem>, ticket: Ticket, delta: int)
    requires UniqueKeys(items) && SelectedQuantity(items, ticket.id) != 0
    requires Clamp(SelectedQuantity(items, ticket.id) + delta) > 0
    ensures UniqueKeys(Stepped(items, ticket, delta))
    ensures SelectedQuantity(Stepped(items, ticket, delta), ticket.id)
            == Clamp(SelectedQuantity(items, ticket.id) + delta)
  {
    var current := SelectedQuantity(items, ticket.id);
    var quantity := Clamp(current + delta);
    var after := WithTicketQuantity(items, ticket.id, quantity);
    assert Stepped(items, ticket, delta) == after;
    var key := TicketKey(ticket.id);
    SameKeysStayUnique(items, after);
    QuantityShown(after, ticket.id);
    var i :| 0 <= i < |items| && Key(items[i]) == key && items[i].quantity == current;
    assert Key(after[i]) == key;
  }

  /** Stepping to 0 removes the ticket. */
  lemma StepRemoves(items: seq<CartItem>, ticket: Ticket, delta: int)
    requires UniqueKeys(items) && Clamp(SelectedQuantity(items, ticket.id) + delta) == 0
    ensures UniqueKeys(Stepped(items, ticket, delta))
    ensures SelectedQuantity(Stepped(items, ticket, delta), ticket.id) == 0
  {
    assert Stepped(items, ticket, delta) == WithTicketQuantity(items, ticket.id, 0);
    WithoutStaysUnique(items, TicketKey(ticket.id));
  }

  /** Stepping down from one removes the ticket from the cart. */
  lemma StepDownToZeroRemoves(items: seq<CartItem>, ticket: Ticket)
    requires UniqueKeys(items)
    requires exists i :: 0 <= i < |items| && items[i] == TicketItem(ticket, 1)
    ensures !HasKey(Stepped(items, ticket, -1), TicketKey(ticket.id))
    ensures forall x :: x in Stepped(items, ticket, -1) <==> x in items && Key(x) != TicketKey(ticket.id)
  {
    var i :| 0 <= i < |items| && items[i] == TicketItem(ticket, 1);
    QuantityShown(items, ticket.id);
  }

  /** The page's total is the cart's total when the cart holds only
      tickets. */
  lemma {:induction false} TotalPriceIsCartTotal(items: seq<CartItem>, nights: (int, int) -> int)
    requires forall i :: 0 <= i < |items| ==> items[i].TicketItem?
    ensures TotalPrice(Selected(items)) == Total(items, nights)
  {
    if items != [] {
      var init := items[..|items| - 1];
      var last := items[|items| - 1];
      TotalPriceIsCartTotal(init, nights);
      var sel := Selected(items);
      assert sel == Selected(init) + [SelectedTicket(last.ticket, last.quantity)];
      assert sel[..|sel| - 1] == Selected(init);
    }
  }

  /** Hotel items are not selected: adding a stay leaves the ticket total
      alone. */
  lemma {:induction false} HotelsNotSelected(items: seq<CartItem>, c: HotelChoice)
    requires !HasKey(items, ChoiceKey(c))
    ensures Selected(WithHotel(items, c)) == Selected(items)
  {
    var after := WithHotel(items, c);
    assert after[..|after| - 1] == items;
  }
}
