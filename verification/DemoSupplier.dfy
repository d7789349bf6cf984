/**
 * The demo supplier's stock: reserving takes places off a departure, or a unit off the row when no
 * departure is named; cancelling gives them back. Orders keep what they were made for.
 */
module DemoSupplier {
  import opened Options

  // ---------------------------------------------------------------- stock and orders

  datatype Departure = Departure(id: string, status: string, capacity: Option<int>, remaining: Option<int>,
      price: Option<int>)

  datatype Row = Row(available: int, price: int, departures: seq<Departure>)

  datatype Pax = Pax(adult: int, child: int)

  datatype Parameters = Parameters(departureId: Option<string>, pax: Option<Pax>)

  datatype Status = Held | Confirmed | Cancelled

  datatype Order = Order(id: string, inventoryId: string, status: Status, price: int, parameters: Parameters)

  datatype Stock = Stock(rows: map<string, Row>, orders: seq<Order>)

  function PinnedDeparture(p: Parameters): Option<string> {
    if p.departureId == Some("") then None else p.departureId
  }

  function BillablePax(p: Parameters): (n: int)
    ensures n >= 1
    ensures n > 1 ==> p.pax.Some? && n == p.pax.value.adult + p.pax.value.child
    ensures p.pax.Some? && p.pax.value.adult + p.pax.value.child > 0 ==> n == p.pax.value.adult + p.pax.value.child
  {
    if p.pax.Some? && p.pax.value.adult + p.pax.value.child > 0 then p.pax.value.adult + p.pax.value.child else 1
  }

  predicate IsClosed(d: Departure) {
    d.status == "sold_out" || d.status == "closed" || d.status == "cancelled"
  }

  function FindDeparture(departures: seq<Departure>, id: string): Option<Departure> {
    if departures == [] then None
    else if departures[0].id == id then Some(departures[0])
    else FindDeparture(departures[1..], id)
  }

  predicate HasSellable(departures: seq<Departure>) {
    exists d :: d in departures && !IsClosed(d) && (d.remaining.None? || d.remaining.value > 0)
  }

  predicate IsSellable(row: Row) {
    row.available > 0 || HasSellable(row.departures)
  }

  // ---------------------------------------------------------------- adjusting stock

  function Max(a: int, b: int): int {
    if a < b then b else a
  }

  function Min(a: int, b: int): int {
    if a < b then a else b
  }

  /** The places left after a change, kept between zero and the capacity, if there is one. */
  function Clamped(capacity: Option<int>, places: int): int {
    if capacity.None? then Max(0, places) else Max(0, Min(capacity.value, places))
  }

  function AdjustOne(d: Departure, id: string, delta: int): Departure {
    if d.id != id then d
    else
      var current := if d.remaining.Some? then d.remaining else d.capacity;
      if current.None? || Clamped(d.capacity, current.value + delta) == current.value then d
      else d.(remaining := Some(Clamped(d.capacity, current.value + delta)))
  }

  function AdjustAll(departures: seq<Departure>, id: string, delta: int): seq<Departure> {
    seq(|departures|, i requires 0 <= i < |departures| => AdjustOne(departures[i], id, delta))
  }

  function Adjust(rows: map<string, Row>, inventoryId: string, id: string, delta: int): map<string, Row> {
    if delta == 0 || inventoryId !in rows then rows
    else rows[inventoryId := rows[inventoryId].(departures := AdjustAll(rows[inventoryId].departures, id, delta))]
  }

  function Decrement(rows: map<string, Row>, inventoryId: string): map<string, Row> {
    if inventoryId in rows && rows[inventoryId].available > 0
    then rows[inventoryId := rows[inventoryId].(available := rows[inventoryId].available - 1)]
    else rows
  }

  function Increment(rows: map<string, Row>, inventoryId: string): map<string, Row> {
    if inventoryId in rows then rows[inventoryId := rows[inventoryId].(available := rows[inventoryId].available + 1)]
    else rows
  }

  // ---------------------------------------------------------------- reserve and cancel

  datatype Refusal = InventoryUnavailable | DepartureNotFound | DepartureUnavailable | DuplicateId

  datatype Response = Failed(why: Refusal) | Reserved(order: Order) | Refused | Refunded(amount: int)

  function Check(row: Row, p: Parameters): Option<Refusal> {
    var pinned := PinnedDeparture(p);
    if pinned.None? then if IsSellable(row) then None else Some(InventoryUnavailable)
    else
      var d := FindDeparture(row.departures, pinned.value);
      if d.None? then Some(DepartureNotFound)
      else if IsClosed(d.value) then Some(DepartureUnavailable)
      else if d.value.remaining.Some? && d.value.remaining.value < BillablePax(p) then Some(DepartureUnavailable)
      else None
  }

  function SlotPrice(row: Row, p: Parameters): int {
    var pinned := PinnedDeparture(p);
    var d := if pinned.None? then None else FindDeparture(row.departures, pinned.value);
    if d.Some? then d.value.price.GetOr(row.price) else row.price
  }

  predicate IdTaken(orders: seq<Order>, id: string) {
    exists o :: o in orders && o.id == id
  }

  /** Reserve, giving the new order the generated id. A taken id violates the primary key. */
  function Reserve(s: Stock, id: string, ref: string, p: Parameters, hold: bool): (r: (Stock, Response)) {
    if ref !in s.rows then (s, Failed(InventoryUnavailable))
    else
      var row := s.rows[ref];
      var refusal := Check(row, p);
      if refusal.Some? then (s, Failed(refusal.value))
      else if IdTaken(s.orders, id) then (s, Failed(DuplicateId))
      else
        var order := Order(id, ref, if hold then Held else Confirmed, SlotPrice(row, p), p);
        var pinned := PinnedDeparture(p);
        var rows := if pinned.Some? then Adjust(s.rows, ref, pinned.value, -BillablePax(p)) else Decrement(s.rows, ref);
        (Stock(rows, s.orders + [order]), Reserved(order))
  }

  function FindOrder(orders: seq<Order>, id: string): (i: nat)
    ensures i <= |orders|
    ensures i < |orders| ==> orders[i].id == id
    ensures forall j :: 0 <= j < i ==> orders[j].id != id
  {
    if orders == [] || orders[0].id == id then 0 else 1 + FindOrder(orders[1..], id)
  }

  function Restock(rows: map<string, Row>, o: Order): map<string, Row> {
    if o.inventoryId == "" then rows
    else
      var pinned := PinnedDeparture(o.parameters);
      if pinned.Some? then Adjust(rows, o.inventoryId, pinned.value, BillablePax(o.parameters))
          else Increment(rows, o.inventoryId)
  }

  function Cancel(s: Stock, ref: string): (r: (Stock, Response)) {
    var i := FindOrder(s.orders, ref);
    if i == |s.orders| then (s, Refused)
    else if s.orders[i].status.Cancelled? then (s, Refunded(s.orders[i].price))
    else (Stock(Restock(s.rows, s.orders[i]), s.orders[i := s.orders[i].(status := Cancelled)]),
        Refunded(s.orders[i].price))
  }

  datatype Op = ReserveOp(id: string, ref: string, p: Parameters, hold: bool) | CancelOp(ref: string)

  function Step(s: Stock, op: Op): Stock {
    match op
    case ReserveOp(id, ref, p, hold) => Reserve(s, id, ref, p, hold).0
    case CancelOp(ref) => Cancel(s, ref).0
  }

  function Run(s: Stock, ops: seq<Op>): Stock
    decreases |ops|
  {
    if ops == [] then s else Run(Step(s, ops[0]), ops[1..])
  }

  // ---------------------------------------------------------------- what uncancelled orders hold

  /** What an order holds of a departure, or of a row when no departure is named. */
  function Holds(o: Order, ref: string, departure: Option<string>): int {
    if o.status.Cancelled? || o.inventoryId != ref || PinnedDeparture(o.parameters) != departure then 0
    else if departure.None? then 1
    else BillablePax(o.parameters)
  }

  function HeldBy(orders: seq<Order>, ref: string, departure: Option<string>): (n: int)
    ensures n >= 0
  {
    if orders == [] then 0
    else
      var n := |orders| - 1;
      HeldBy(orders[..n], ref, departure) + Holds(orders[n], ref, departure)
  }

  lemma {:induction false} HeldAfterUpdate(orders: seq<Order>, i: nat, o: Order, ref: string, departure: Option<string>)
    requires i < |orders|
    ensures HeldBy(orders[i := o], ref, departure)
        == HeldBy(orders, ref, departure) - Holds(orders[i], ref, departure) + Holds(o, ref, departure)
    ensures Holds(orders[i], ref, departure) <= HeldBy(orders, ref, departure)
  {
    var n := |orders| - 1;
    if i < n {
      HeldAfterUpdate(orders[..n], i, o, ref, departure);
      assert orders[i := o][..n] == orders[..n][i := o];
    } else {
      assert orders[i := o][..n] == orders[..n];
    }
  }

  lemma HeldAfterAppend(orders: seq<Order>, o: Order, ref: string, departure: Option<string>)
    ensures HeldBy(orders + [o], ref, departure) == HeldBy(orders, ref, departure) + Holds(o, ref, departure)
  {
    assert (orders + [o])[..|orders|] == orders;
  }

  // ---------------------------------------------------------------- a departure's places are conserved

  /** Departure `k` of a row, the only one there with its id. */
  predicate IsOnly(s: Stock, ref: string, id: string, k: nat) {
    && ref != "" && id != ""
    && ref in s.rows && k < |s.rows[ref].departures|
    && s.rows[ref].departures[k].id == id
    && s.rows[ref].departures[k].remaining.Some?
    && forall j :: 0 <= j < |s.rows[ref].departures| && j != k ==> s.rows[ref].departures[j].id != id
  }

  function At(s: Stock, ref: string, k: nat): Departure
    requires ref in s.rows && k < |s.rows[ref].departures|
  {
    s.rows[ref].departures[k]
  }

  /** The places left and the places held. */
  function Places(s: Stock, ref: string, id: string, k: nat): int
    requires IsOnly(s, ref, id, k)
  {
    At(s, ref, k).remaining.value + HeldBy(s.orders, ref, Some(id))
  }

  /** No places are missing, and none too many for the capacity. */
  predicate InStock(s: Stock, ref: string, id: string, k: nat)
    requires IsOnly(s, ref, id, k)
  {
    && 0 <= At(s, ref, k).remaining.value
    && (At(s, ref, k).capacity.Some? ==> Places(s, ref, id, k) <= At(s, ref, k).capacity.value)
  }

  lemma {:induction false} FindsTheOnly(departures: seq<Departure>, id: string, k: nat)
    requires k < |departures| && departures[k].id == id
    requires forall j :: 0 <= j < |departures| && j != k ==> departures[j].id != id
    ensures FindDeparture(departures, id) == Some(departures[k])
  {
    if k > 0 {
      assert departures[0].id != id;
      FindsTheOnly(departures[1..], id, k - 1);
    }
  }

  /** Whatever is adjusted, departure `k` only moves when it is named, and then by the clamped amount. */
  lemma AdjustAt(s: Stock, rows: map<string, Row>, orders: seq<Order>, ref: string, id: string, k: nat,
      inventoryId: string, dep: string, delta: int)
    requires IsOnly(s, ref, id, k) && rows == Adjust(s.rows, inventoryId, dep, delta) && delta != 0
    ensures IsOnly(Stock(rows, orders), ref, id, k)
    ensures var before, after := At(s, ref, k), rows[ref].departures[k];
            && after.capacity == before.capacity && after.status == before.status
            && after.remaining.value ==
               if inventoryId == ref && dep == id then Clamped(before.capacity, before.remaining.value + delta)
               else before.remaining.value
  {
    if inventoryId == ref {
      var before, after := s.rows[ref].departures, rows[ref].departures;
      assert forall j :: 0 <= j < |before| ==> after[j] == AdjustOne(before[j], dep, delta);
    }
  }

  lemma CounterKeeps(s: Stock, rows: map<string, Row>, orders: seq<Order>, ref: string, id: string, k: nat,
      inventoryId: string)
    requires IsOnly(s, ref, id, k)
        && (rows == Decrement(s.rows, inventoryId) || rows == Increment(s.rows, inventoryId) || rows == s.rows)
    ensures IsOnly(Stock(rows, orders), ref, id, k) && rows[ref].departures[k] == At(s, ref, k)
  {
  }

  /** A reserve moves places from the departure to the order: the clamp never changes the amount. */
  lemma ReserveConserves(s: Stock, ref: string, id: string, k: nat, newId: string, target: string, p: Parameters,
      hold: bool)
    requires IsOnly(s, ref, id, k) && InStock(s, ref, id, k)
    ensures var t := Reserve(s, newId, target, p, hold).0;
            && IsOnly(t, ref, id, k) && InStock(t, ref, id, k) && Places(t, ref, id, k) == Places(s, ref, id, k)
            && At(t, ref, k).capacity == At(s, ref, k).capacity
  {
    var (t, response) := Reserve(s, newId, target, p, hold);
    if response.Reserved? {
      HeldAfterAppend(s.orders, response.order, ref, Some(id));
      var pinned := PinnedDeparture(p);
      if pinned.Some? {
        AdjustAt(s, t.rows, t.orders, ref, id, k, target, pinned.value, -BillablePax(p));
        if target == ref && pinned.value == id {
          FindsTheOnly(s.rows[ref].departures, id, k);
        }
      } else {
        CounterKeeps(s, t.rows, t.orders, ref, id, k, target);
      }
    }
  }

  /** A cancel moves them back. */
  lemma CancelConserves(s: Stock, ref: string, id: string, k: nat, orderRef: string)
    requires IsOnly(s, ref, id, k) && InStock(s, ref, id, k)
    ensures var t := Cancel(s, orderRef).0;
            && IsOnly(t, ref, id, k) && InStock(t, ref, id, k) && Places(t, ref, id, k) == Places(s, ref, id, k)
            && At(t, ref, k).capacity == At(s, ref, k).capacity
  {
    var i := FindOrder(s.orders, orderRef);
    if i < |s.orders| && !s.orders[i].status.Cancelled? {
      var t := Cancel(s, orderRef).0;
      var o := s.orders[i];
      HeldAfterUpdate(s.orders, i, o.(status := Cancelled), ref, Some(id));
      var pinned := PinnedDeparture(o.parameters);
      if o.inventoryId != "" && pinned.Some? {
        AdjustAt(s, t.rows, t.orders, ref, id, k, o.inventoryId, pinned.value, BillablePax(o.parameters));
      } else {
        CounterKeeps(s, t.rows, t.orders, ref, id, k, o.inventoryId);
      }
    }
  }

  /**
   * Over any run of reserves and cancels, the places left on a departure and the places held by its
   * uncancelled orders add up to the same number, which stays within the capacity.
   */
  lemma {:induction false} RunConserves(s: Stock, ops: seq<Op>, ref: string, id: string, k: nat)
    requires IsOnly(s, ref, id, k) && InStock(s, ref, id, k)
    ensures var t := Run(s, ops);
            && IsOnly(t, ref, id, k) && InStock(t, ref, id, k) && Places(t, ref, id, k) == Places(s, ref, id, k)
    decreases |ops|
  {
    if ops != [] {
      match ops[0]
      case ReserveOp(newId, target, p, hold) =>
        ReserveConserves(s, ref, id, k, newId, target, p, hold);
        RunConserves(Step(s, ops[0]), ops[1..], ref, id, k);
      case CancelOp(orderRef) =>
        CancelConserves(s, ref, id, k, orderRef);
        RunConserves(Step(s, ops[0]), ops[1..], ref, id, k);
    }
  }

  // ---------------------------------------------------------------- when places are conserved

  predicate NothingHeld(s: Stock, ref: string, id: string) {
    forall i :: 0 <= i < |s.orders| ==> Holds(s.orders[i], ref, Some(id)) == 0
  }

  lemma {:induction false} NothingHeldBy(orders: seq<Order>, ref: string, id: string)
    requires forall i :: 0 <= i < |orders| ==> Holds(orders[i], ref, Some(id)) == 0
    ensures HeldBy(orders, ref, Some(id)) == 0
  {
    if orders != [] {
      NothingHeldBy(orders[..|orders| - 1], ref, id);
    }
  }

  /** No reserve of the departure can pass. */
  predicate Unbookable(d: Departure)
    requires d.remaining.Some?
  {
    IsClosed(d) || d.remaining.value < 1
  }

  lemma UnbookableStays(s: Stock, op: Op, ref: string, id: string, k: nat)
    requires IsOnly(s, ref, id, k) && Unbookable(At(s, ref, k)) && NothingHeld(s, ref, id)
    ensures var t := Step(s, op);
            IsOnly(t, ref, id, k) && At(t, ref, k) == At(s, ref, k) && NothingHeld(t, ref, id)
  {
    match op
    case ReserveOp(newId, target, p, hold) =>
      FindsTheOnly(s.rows[ref].departures, id, k);
      var pinned := PinnedDeparture(p);
      if Reserve(s, newId, target, p, hold).1.Reserved? {
        if pinned.Some? {
          OtherAdjusted(s, ref, id, k, target, pinned.value, -BillablePax(p));
        } else {
          CounterKeeps(s, Step(s, op).rows, s.orders, ref, id, k, target);
        }
      }
    case CancelOp(orderRef) =>
      var i := FindOrder(s.orders, orderRef);
      if i < |s.orders| && !s.orders[i].status.Cancelled? {
        var o := s.orders[i];
        var pinned := PinnedDeparture(o.parameters);
        if o.inventoryId != "" && pinned.Some? {
          OtherAdjusted(s, ref, id, k, o.inventoryId, pinned.value, BillablePax(o.parameters));
        } else {
          CounterKeeps(s, Step(s, op).rows, s.orders, ref, id, k, o.inventoryId);
        }
      }
  }

  lemma OtherAdjusted(s: Stock, ref: string, id: string, k: nat, inventoryId: string, dep: string, delta: int)
    requires IsOnly(s, ref, id, k) && (inventoryId != ref || dep != id)
    ensures forall orders :: IsOnly(Stock(Adjust(s.rows, inventoryId, dep, delta), orders), ref, id, k)
    ensures Adjust(s.rows, inventoryId, dep, delta)[ref].departures[k] == At(s, ref, k)
  {
    var rows := Adjust(s.rows, inventoryId, dep, delta);
    assert inventoryId == ref && delta != 0 ==>
        forall j :: 0 <= j < |s.rows[ref].departures| ==>
            rows[ref].departures[j] == AdjustOne(s.rows[ref].departures[j], dep, delta);
  }

  lemma {:induction false} UnbookableConserves(s: Stock, ops: seq<Op>, ref: string, id: string, k: nat)
    requires IsOnly(s, ref, id, k) && Unbookable(At(s, ref, k)) && NothingHeld(s, ref, id)
    ensures IsOnly(Run(s, ops), ref, id, k) && Places(Run(s, ops), ref, id, k) == Places(s, ref, id, k)
    decreases |ops|
  {
    NothingHeldBy(s.orders, ref, id);
    if ops != [] {
      UnbookableStays(s, ops[0], ref, id, k);
      NothingHeldBy(Step(s, ops[0]).orders, ref, id);
      UnbookableConserves(Step(s, ops[0]), ops[1..], ref, id, k);
    }
  }

  function LongerThanAll(orders: seq<Order>): (id: string)
    ensures forall o :: o in orders ==> |o.id| < |id|
  {
    if orders == [] then "o" else orders[0].id + LongerThanAll(orders[1..])
  }

  /** Booking one place. */
  lemma BookOne(s: Stock, ref: string, id: string, k: nat, newId: string) returns (t: Stock)
    requires IsOnly(s, ref, id, k) && !Unbookable(At(s, ref, k)) && !IdTaken(s.orders, newId)
    ensures t == Reserve(s, newId, ref, Parameters(Some(id), None), false).0 && IsOnly(t, ref, id, k)
    ensures |t.orders| == |s.orders| + 1 && t.orders[..|s.orders|] == s.orders
    ensures var o := t.orders[|s.orders|];
            o.id == newId && o.inventoryId == ref && !o.status.Cancelled? && o.parameters == Parameters(Some(id), None)
    ensures At(t, ref, k).capacity == At(s, ref, k).capacity
    ensures At(t, ref, k).remaining.value == Clamped(At(s, ref, k).capacity, At(s, ref, k).remaining.value - 1)
  {
    FindsTheOnly(s.rows[ref].departures, id, k);
    t := Reserve(s, newId, ref, Parameters(Some(id), None), false).0;
    AdjustAt(s, t.rows, t.orders, ref, id, k, ref, id, -1);
  }

  /** Giving it back. */
  lemma CancelOne(t: Stock, ref: string, id: string, k: nat, i: nat) returns (u: Stock)
    requires IsOnly(t, ref, id, k) && i < |t.orders| && FindOrder(t.orders, t.orders[i].id) == i
    requires var o := t.orders[i];
             o.inventoryId == ref && !o.status.Cancelled? && o.parameters == Parameters(Some(id), None)
    ensures u == Cancel(t, t.orders[i].id).0 && IsOnly(u, ref, id, k)
    ensures u.orders == t.orders[i := t.orders[i].(status := Cancelled)]
    ensures At(u, ref, k).remaining.value == Clamped(At(t, ref, k).capacity, At(t, ref, k).remaining.value + 1)
  {
    u := Cancel(t, t.orders[i].id).0;
    AdjustAt(t, u.rows, u.orders, ref, id, k, ref, id, 1);
  }

  lemma LastIsFound(orders: seq<Order>, n: nat)
    requires |orders| == n + 1 && forall i :: 0 <= i < n ==> orders[i].id != orders[n].id
    ensures FindOrder(orders, orders[n].id) == n
  {
  }

  /** Booking one place and giving it back loses the places beyond the capacity. */
  lemma OverfullLosesPlaces(s: Stock, ref: string, id: string, k: nat) returns (ops: seq<Op>)
    requires IsOnly(s, ref, id, k) && !Unbookable(At(s, ref, k)) && NothingHeld(s, ref, id)
    requires At(s, ref, k).capacity.Some? && At(s, ref, k).capacity.value < At(s, ref, k).remaining.value
    ensures IsOnly(Run(s, ops), ref, id, k) && Places(Run(s, ops), ref, id, k) < Places(s, ref, id, k)
  {
    var newId := LongerThanAll(s.orders);
    var n := |s.orders|;
    var t := BookOne(s, ref, id, k, newId);
    forall i | 0 <= i < n
      ensures t.orders[i].id != newId
    {
      assert t.orders[i] == s.orders[i] && s.orders[i] in s.orders;
    }
    LastIsFound(t.orders, n);
    var u := CancelOne(t, ref, id, k, n);
    var reserve, cancel := ReserveOp(newId, ref, Parameters(Some(id), None), false), CancelOp(newId);
    ops := [reserve, cancel];
    assert ops[1..] == [cancel] && [cancel][1..] == [];
    assert Run(s, ops) == Run(t, [cancel]) == Run(u, []);
    NothingHeldBy(s.orders, ref, id);
    HeldAfterAppend(s.orders, u.orders[n], ref, Some(id));
    assert u.orders == s.orders + [u.orders[n]];
  }

  /**
   * From a departure nobody holds places of, every run conserves its places exactly when nothing can
   * be booked on it or the places left do not exceed the capacity.
   */
  lemma ConservedExactlyWhen(s: Stock, ref: string, id: string, k: nat)
    requires IsOnly(s, ref, id, k) && NothingHeld(s, ref, id)
    ensures (forall ops ::
               IsOnly(Run(s, ops), ref, id, k) && Places(Run(s, ops), ref, id, k) == Places(s, ref, id, k)) <==>
            var d := At(s, ref, k);
            Unbookable(d) || d.capacity.None? || d.remaining.value <= d.capacity.value
  {
    var d := At(s, ref, k);
    NothingHeldBy(s.orders, ref, id);
    if Unbookable(d) {
      forall ops {
        UnbookableConserves(s, ops, ref, id, k);
      }
    } else if d.capacity.None? || d.remaining.value <= d.capacity.value {
      forall ops {
        RunConserves(s, ops, ref, id, k);
      }
    } else {
      var ops := OverfullLosesPlaces(s, ref, id, k);
    }
  }

  // ---------------------------------------------------------------- cancelling is final

  ghost predicate KeepsOrders(before: seq<Order>, after: seq<Order>) {
    && |before| <= |after|
    && forall i :: 0 <= i < |before| ==>
         after[i] == before[i] || after[i] == before[i].(status := Cancelled)
  }

  /** Orders are never removed, and only their status ever changes, to cancelled. */
  lemma {:induction false} RunKeepsOrders(s: Stock, ops: seq<Op>)
    ensures KeepsOrders(s.orders, Run(s, ops).orders)
    decreases |ops|
  {
    if ops != [] {
      RunKeepsOrders(Step(s, ops[0]), ops[1..]);
    }
  }

  lemma {:induction false} FoundAgain(before: seq<Order>, after: seq<Order>, ref: string)
    requires KeepsOrders(before, after) && FindOrder(before, ref) < |before|
    ensures FindOrder(after, ref) == FindOrder(before, ref)
  {
    if before[0].id != ref {
      FoundAgain(before[1..], after[1..], ref);
    }
  }

  /** Once an order is cancelled, cancelling it again at any later time restocks nothing and refunds the same. */
  lemma CancelIsFinal(s: Stock, ref: string, ops: seq<Op>)
    requires Cancel(s, ref).1.Refunded?
    ensures var t := Run(Cancel(s, ref).0, ops);
            Cancel(t, ref) == (t, Cancel(s, ref).1)
  {
    var after := Cancel(s, ref).0;
    assert KeepsOrders(s.orders, after.orders);
    FoundAgain(s.orders, after.orders, ref);
    RunKeepsOrders(after, ops);
    FoundAgain(after.orders, Run(after, ops).orders, ref);
  }

  // ---------------------------------------------------------------- the row's own counter

  predicate NoNegative(rows: map<string, Row>) {
    forall ref :: ref in rows ==> rows[ref].available >= 0
  }

  lemma {:induction false} AvailableStaysNonNegative(s: Stock, ops: seq<Op>)
    requires NoNegative(s.rows)
    ensures NoNegative(Run(s, ops).rows)
    decreases |ops|
  {
    if ops != [] {
      AvailableStaysNonNegative(Step(s, ops[0]), ops[1..]);
    }
  }

  function Units(s: Stock, ref: string): int
    requires ref in s.rows
  {
    s.rows[ref].available + HeldBy(s.orders, ref, None)
  }

  /**
   * A reserve without a departure conserves the row's units exactly when one is available: a row sold
   * on the strength of its departures has its guarded decrement skipped.
   */
  lemma UnpinnedReserveConserves(s: Stock, ref: string, newId: string, p: Parameters, hold: bool)
    requires PinnedDeparture(p).None? && Reserve(s, newId, ref, p, hold).1.Reserved?
    ensures ref in s.rows && ref in Reserve(s, newId, ref, p, hold).0.rows
    ensures Units(Reserve(s, newId, ref, p, hold).0, ref) == Units(s, ref) <==> s.rows[ref].available > 0
    ensures s.rows[ref].available <= 0 ==> Units(Reserve(s, newId, ref, p, hold).0, ref) == Units(s, ref) + 1
  {
    HeldAfterAppend(s.orders, Reserve(s, newId, ref, p, hold).1.order, ref, None);
  }

  /** Such a reserve: nothing is available, and a departure with places left makes the row sellable. */
  lemma UnpinnedReserveCanOvershoot()
    ensures var open := Departure("d", "open", Some(5), Some(5), None);
            var s := Stock(map["r" := Row(0, 100, [open])], []);
            var (t, response) := Reserve(s, "o", "r", Parameters(None, None), false);
            response.Reserved? && Units(s, "r") == 0 && Units(t, "r") == 1
  {
    var open := Departure("d", "open", Some(5), Some(5), None);
    var s := Stock(map["r" := Row(0, 100, [open])], []);
    assert open in s.rows["r"].departures && open.status[0] == 'o' && |open.status| == 4;
    assert HasSellable(s.rows["r"].departures);
    UnpinnedReserveConserves(s, "r", "o", Parameters(None, None), false);
  }

  /** A cancel always conserves them. */
  lemma CancelConservesUnits(s: Stock, ref: string, orderRef: string)
    requires ref in s.rows && ref != ""
    ensures ref in Cancel(s, orderRef).0.rows && Units(Cancel(s, orderRef).0, ref) == Units(s, ref)
  {
    var i := FindOrder(s.orders, orderRef);
    if i < |s.orders| {
      HeldAfterUpdate(s.orders, i, s.orders[i].(status := Cancelled), ref, None);
    }
  }
}
