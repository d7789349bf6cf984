/** The demo supplier's tables and handlers, updating stock and orders in place. */
module DemoService {
  import opened Options
  import opened DemoSupplier

  class Store {
    var rows: map<string, Row>
    var orders: seq<Order>

    constructor (inventory: map<string, Row>)
      ensures rows == inventory && orders == []
    {
      rows, orders := inventory, [];
    }

    function Contents(): Stock
      reads this
    {
      Stock(rows, orders)
    }

    /** Change the places left of the named departures; the row is written only if one of them changed. */
    method AdjustDepartureRemaining(inventoryId: string, departureId: string, delta: int) returns (changed: bool)
      modifies this`rows
      ensures rows == Adjust(old(rows), inventoryId, departureId, delta)
      ensures changed <==> rows != old(rows)
    {
      changed := false;
      if delta == 0 || inventoryId !in rows {
        return;
      }
      var row := rows[inventoryId];
      var departures := row.departures;
      var next: seq<Departure> := [];
      for i := 0 to |departures|
        invariant rows == old(rows)
        invariant |next| == i && forall j :: 0 <= j < i ==> next[j] == AdjustOne(departures[j], departureId, delta)
        invariant changed <==> next != departures[..i]
      {
        var d := departures[i];
        if d.id != departureId {
          next := next + [d];
          continue;
        }
        var current := if d.remaining.Some? then d.remaining else d.capacity;
        if current.None? {
          next := next + [d];
          continue;
        }
        var places := Clamped(d.capacity, current.value + delta);
        if places == current.value {
          next := next + [d];
          continue;
        }
        changed := true;
        assert d.(remaining := Some(places)) != d;
        next := next + [d.(remaining := Some(places))];
      }
      assert next == AdjustAll(departures, departureId, delta);
      if !changed {
        assert next == departures;
        assert rows == rows[inventoryId := row.(departures := next)];
        return;
      }
      rows := rows[inventoryId := row.(departures := next)];
    }

    method DecrementAvailability(inventoryId: string)
      modifies this`rows
      ensures rows == Decrement(old(rows), inventoryId)
    {
      if inventoryId in rows && rows[inventoryId].available > 0 {
        rows := rows[inventoryId := rows[inventoryId].(available := rows[inventoryId].available - 1)];
      }
    }

    method IncrementAvailability(inventoryId: string)
      modifies this`rows
      ensures rows == Increment(old(rows), inventoryId)
    {
      if inventoryId in rows {
        rows := rows[inventoryId := rows[inventoryId].(available := rows[inventoryId].available + 1)];
      }
    }

    method MarkOrderCancelled(i: nat) returns (o: Order)
      requires i < |orders|
      modifies this`orders
      ensures o == old(orders)[i].(status := Cancelled) && orders == old(orders)[i := o]
    {
      o := orders[i].(status := Cancelled);
      orders := orders[i := o];
    }

    method HandleReserve(newId: string, ref: string, p: Parameters, hold: bool) returns (r: Response)
      modifies this
      ensures (Contents(), r) == Reserve(old(Contents()), newId, ref, p, hold)
    {
      if ref !in rows {
        return Failed(InventoryUnavailable);
      }
      var row := rows[ref];
      var pinned := PinnedDeparture(p);
      if pinned.Some? {
        var departure := FindDeparture(row.departures, pinned.value);
        if departure.None? {
          return Failed(DepartureNotFound);
        }
        if IsClosed(departure.value) {
          return Failed(DepartureUnavailable);
        }
        if departure.value.remaining.Some? && departure.value.remaining.value < BillablePax(p) {
          return Failed(DepartureUnavailable);
        }
      } else if !IsSellable(row) {
        return Failed(InventoryUnavailable);
      }
      if IdTaken(orders, newId) {
        return Failed(DuplicateId);
      }
      var order := Order(newId, ref, if hold then Held else Confirmed, SlotPrice(row, p), p);
      orders := orders + [order];
      if pinned.Some? {
        var changed := AdjustDepartureRemaining(ref, pinned.value, -BillablePax(p));
      } else {
        DecrementAvailability(ref);
      }
      r := Reserved(order);
    }

    method HandleCancel(ref: string) returns (r: Response)
      modifies this
      ensures (Contents(), r) == Cancel(old(Contents()), ref)
    {
      var i := FindOrder(orders, ref);
      if i == |orders| {
        return Refused;
      }
      var order := orders[i];
      if order.status.Cancelled? {
        return Refunded(order.price);
      }
      var cancelled := MarkOrderCancelled(i);
      if cancelled.inventoryId != "" {
        var pinned := PinnedDeparture(cancelled.parameters);
        if pinned.Some? {
          var changed :=
            AdjustDepartureRemaining(cancelled.inventoryId, pinned.value, BillablePax(cancelled.parameters));
        } else {
          IncrementAvailability(cancelled.inventoryId);
        }
      }
      r := Refunded(order.price);
    }
  }
}
