/** The `tickets` table (server/src/database/models/Ticket.ts). */
module TicketModel {
  import opened Common
  import opened Domain
  import opened Ordering

  /** `ORDER BY price ASC`. */
  predicate PriceAtMost(a: Ticket, b: Ticket)
  {
    a.price <= b.price
  }

  /** `getAll`: every ticket, cheapest first. */
  function GetAll(rows: map<int, Ticket>, bound: int): (r: seq<Ticket>)
    ensures Sorted(r, PriceAtMost)
    ensures multiset(r) == multiset(Rows(rows, bound))
  {
    assert TotalPreorder(PriceAtMost);
    SortBy(Rows(rows, bound), PriceAtMost)
  }

  /** Every key lies in [1, bound), the counter is positive and each row
      carries its key as id. */
  ghost predicate KeyedTickets(rows: map<int, Ticket>, bound: int)
  {
    bound >= 1 && KeysBelow(rows, bound) && forall k :: k in rows ==> rows[k].id == k
  }

  /** `getAll` lists each stored ticket, and nothing else. */
  lemma GetAllExactly(rows: map<int, Ticket>, bound: int)
    requires KeyedTickets(rows, bound)
    ensures forall x :: x in GetAll(rows, bound) <==> x in rows.Values
  {
    var r := GetAll(rows, bound);
    RowsAreValues(rows, bound);
    forall x ensures x in r <==> x in rows.Values {
      assert x in r <==> x in multiset(r);
      assert x in Rows(rows, bound) <==> x in multiset(Rows(rows, bound));
    }
  }

  /** The partial update body of `update`: `undefined` properties are `Keep`. */
  datatype TicketPatch = TicketPatch(price: Patch<int>, description: Patch<Option<string>>)

  /** `description || null`. */
  function DescriptionOrNull(d: Option<string>): (r: Option<string>)
    ensures r.Some? <==> TruthyStr(d)
    ensures r.Some? ==> r == d
  {
    if TruthyStr(d) then d else None
  }

  /** The `tickets` table: `rows` maps each id to its row. */
  class TicketTable {
    var rows: map<int, Ticket>
    var nextId: int

    ghost predicate Valid()
      reads this
    {
      KeyedTickets(rows, nextId)
    }

    constructor (rows0: map<int, Ticket>, nextId0: int)
      requires KeyedTickets(rows0, nextId0)
      ensures Valid() && rows == rows0 && nextId == nextId0
    {
      rows, nextId := rows0, nextId0;
    }

    /** `updatePrice`: only the price of row `id` changes. */
    method UpdatePrice(id: int, price: int)
      requires Valid()
      modifies this
      ensures Valid() && nextId == old(nextId)
      ensures rows.Keys == old(rows).Keys
      ensures forall k :: k in rows && k != id ==> rows[k] == old(rows)[k]
      ensures id in rows ==> rows[id] == old(rows)[id].(price := price)
    {
      if id in rows {
        rows := rows[id := rows[id].(price := price)];
      }
    }

    /** `update`: applies exactly the supplied columns to row `id` (a price
        of 0 is supplied, not skipped); with neither supplied nothing
        changes. */
    method Update(id: int, data: TicketPatch)
      requires Valid()
      modifies this
      ensures Valid() && nextId == old(nextId)
      ensures rows.Keys == old(rows).Keys
      ensures forall k :: k in rows && k != id ==> rows[k] == old(rows)[k]
      ensures id in rows ==>
                && rows[id].id == id && rows[id].kind == old(rows)[id].kind
                && rows[id].price == Or(data.price, old(rows)[id].price)
                && rows[id].description == Or(data.description, old(rows)[id].description)
      ensures data == TicketPatch(Keep, Keep) ==> rows == old(rows)
    {
      var fields := 0;
      var row := if id in rows then rows[id] else Ticket(id, "", 0, None);
      if data.price.Put? {
        row := row.(price := data.price.value);
        fields := fields + 1;
      }
      if data.description.Put? {
        row := row.(description := data.description.value);
        fields := fields + 1;
      }
      if fields == 0 {
        return;
      }
      if id in rows {
        rows := rows[id := row];
      }
    }

    /** `create`: inserts one ticket under a fresh id; a falsy description
        is stored as null. */
    method Create(kind: string, price: int, description: Option<string>) returns (id: int)
      requires Valid()
      modifies this
      ensures Valid()
      ensures id == old(nextId) && id !in old(rows) && nextId == id + 1
      ensures rows == old(rows)[id := Ticket(id, kind, price, DescriptionOrNull(description))]
    {
      id := nextId;
      rows := rows[id := Ticket(id, kind, price, DescriptionOrNull(description))];
      nextId := nextId + 1;
    }

    /** `delete`: removes exactly row `id`. */
    method Delete(id: int)
      requires Valid()
      modifies this
      ensures Valid() && nextId == old(nextId)
      ensures rows == old(rows) - {id}
    {
      rows := rows - {id};
    }
  }
}
