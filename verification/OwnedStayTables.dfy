/** From the tables to a quote: which rows are fetched, and what they say about each night. */
module OwnedStayTables {
  import opened Options
  import opened Calendar
  import opened OwnedStays

  // ---------------------------------------------------------------- fetched rows, night by night

  /** A lookup table by date keeps the last row of each date. */
  function LastOn<R>(rows: seq<R>, dateOf: R -> Day, d: Day): (row: Option<R>)
    ensures row.Some? ==> row.value in rows && dateOf(row.value) == d
    ensures row.None? ==> forall r :: r in rows ==> dateOf(r) != d
  {
    if rows == [] then None
    else if dateOf(rows[|rows| - 1]) == d then Some(rows[|rows| - 1])
    else LastOn(rows[..|rows| - 1], dateOf, d)
  }

  lemma LastOnAppend<R>(rows: seq<R>, last: R, dateOf: R -> Day, d: Day)
    ensures LastOn(rows + [last], dateOf, d) == if dateOf(last) == d then Some(last) else LastOn(rows, dateOf, d)
  {
    assert (rows + [last])[..|rows|] == rows;
  }

  function RateDate(r: Rate): Day {
    r.date
  }

  function InventoryDate(r: Inventory): Day {
    r.date
  }

  function RateOn(rates: seq<Rate>, d: Day): Option<Rate> {
    LastOn(rates, RateDate, d)
  }

  function InventoryOn(inventory: seq<Inventory>, d: Day): Option<Inventory> {
    LastOn(inventory, InventoryDate, d)
  }

  function Uses(s: Stay, d: Day): int {
    if s.checkIn <= d < s.checkOut then s.roomCount else 0
  }

  function BookedOn(stays: seq<Stay>, d: Day): int {
    if stays == [] then 0
    else BookedOn(stays[..|stays| - 1], d) + Uses(stays[|stays| - 1], d)
  }

  datatype Records = Records(
    room: Room, plan: Plan, rates: seq<Rate>, inventory: seq<Inventory>, stays: seq<Stay>)

  function NightFrom(records: Records, d: Day): Night {
    Night(d, RateOn(records.rates, d), InventoryOn(records.inventory, d), BookedOn(records.stays, d))
  }

  function NightsFrom(records: Records, dates: seq<Day>): seq<Night> {
    seq(|dates|, i requires 0 <= i < |dates| => NightFrom(records, dates[i]))
  }

  function Resolve(input: QuoteInput, records: Records): Quote {
    Judge(input, records.room, records.plan, NightsFrom(records, DateRange(input.checkIn, input.checkOut)))
  }

  // ---------------------------------------------------------------- the order of fetched rows

  ghost predicate OneRatePerDate(rates: seq<Rate>) {
    forall i, j :: 0 <= i < j < |rates| ==> rates[i].date != rates[j].date
  }

  ghost predicate OneInventoryPerDate(inventory: seq<Inventory>) {
    forall i, j :: 0 <= i < j < |inventory| ==> inventory[i].date != inventory[j].date
  }

  lemma RemoveOne<T>(s: seq<T>, j: nat)
    requires j < |s|
    ensures multiset(s[..j] + s[j + 1..]) == multiset(s) - multiset{s[j]}
  {
    assert s == s[..j] + [s[j]] + s[j + 1..];
  }

  lemma {:induction false} BookedIgnoresOrder(a: seq<Stay>, b: seq<Stay>, d: Day)
    requires multiset(a) == multiset(b)
    ensures BookedOn(a, d) == BookedOn(b, d)
  {
    if a == [] {
      assert |multiset(b)| == 0;
    } else {
      var n := |a| - 1;
      assert a[n] in multiset(b);
      var j :| 0 <= j < |b| && b[j] == a[n];
      RemoveOne(b, j);
      RemoveOne(a, n);
      assert a[..n] + a[n + 1..] == a[..n];
      BookedIgnoresOrder(a[..n], b[..j] + b[j + 1..], d);
      BookedWithout(b, j, d);
    }
  }

  lemma InitWithout(stays: seq<Stay>, j: nat)
    requires j < |stays| - 1
    ensures var n, rest := |stays| - 1, stays[..j] + stays[j + 1..];
            rest[..|rest| - 1] == stays[..n][..j] + stays[..n][j + 1..] && rest[|rest| - 1] == stays[n]
  {
    var n, rest := |stays| - 1, stays[..j] + stays[j + 1..];
    var init, other := rest[..|rest| - 1], stays[..n][..j] + stays[..n][j + 1..];
    forall i | 0 <= i < |init|
      ensures init[i] == other[i]
    {
      assert init[i] == stays[if i < j then i else i + 1];
    }
  }

  lemma {:induction false} BookedWithout(stays: seq<Stay>, j: nat, d: Day)
    requires j < |stays|
    ensures BookedOn(stays, d) == BookedOn(stays[..j] + stays[j + 1..], d) + Uses(stays[j], d)
  {
    var n := |stays| - 1;
    if j < n {
      BookedWithout(stays[..n], j, d);
      InitWithout(stays, j);
    } else {
      assert stays[..j] + stays[j + 1..] == stays[..n];
    }
  }

  lemma RateIgnoresOrder(a: seq<Rate>, b: seq<Rate>, d: Day)
    requires multiset(a) == multiset(b) && OneRatePerDate(a) && OneRatePerDate(b)
    ensures RateOn(a, d) == RateOn(b, d)
  {
    assert forall r :: r in a <==> r in multiset(a);
    assert forall r :: r in b <==> r in multiset(b);
  }

  lemma InventoryIgnoresOrder(a: seq<Inventory>, b: seq<Inventory>, d: Day)
    requires multiset(a) == multiset(b) && OneInventoryPerDate(a) && OneInventoryPerDate(b)
    ensures InventoryOn(a, d) == InventoryOn(b, d)
  {
    assert forall r :: r in a <==> r in multiset(a);
    assert forall r :: r in b <==> r in multiset(b);
  }

  /**
   * The tables have one rate and one inventory row per date, but no order. The quote does not depend
   * on the order in which the database returns them.
   */
  lemma RowOrderIsIrrelevant(input: QuoteInput, a: Records, b: Records)
    requires a.room == b.room && a.plan == b.plan
    requires multiset(a.rates) == multiset(b.rates) && OneRatePerDate(a.rates) && OneRatePerDate(b.rates)
    requires multiset(a.inventory) == multiset(b.inventory)
    requires OneInventoryPerDate(a.inventory) && OneInventoryPerDate(b.inventory)
    requires multiset(a.stays) == multiset(b.stays)
    ensures Resolve(input, a) == Resolve(input, b)
  {
    var dates := DateRange(input.checkIn, input.checkOut);
    forall d
      ensures NightFrom(a, d) == NightFrom(b, d)
    {
      RateIgnoresOrder(a.rates, b.rates, d);
      InventoryIgnoresOrder(a.inventory, b.inventory, d);
      BookedIgnoresOrder(a.stays, b.stays, d);
    }
    assert NightsFrom(a, dates) == NightsFrom(b, dates);
  }

  // ---------------------------------------------------------------- queries

  function Select<T>(rows: seq<T>, want: T -> bool): seq<T> {
    if rows == [] then []
    else Select(rows[..|rows| - 1], want) + if want(rows[|rows| - 1]) then [rows[|rows| - 1]] else []
  }

  function FindRoom(rooms: seq<Room>, id: string): Option<Room> {
    if rooms == [] then None else if rooms[0].id == id then Some(rooms[0]) else FindRoom(rooms[1..], id)
  }

  function FindPlan(plans: seq<Plan>, id: string): Option<Plan> {
    if plans == [] then None else if plans[0].id == id then Some(plans[0]) else FindPlan(plans[1..], id)
  }

  function RateWanted(roomTypeId: string, planIds: set<string>, from: Day, to: Day): Rate -> bool {
    (r: Rate) => r.roomTypeId == roomTypeId && r.planId in planIds && from <= r.date < to
  }

  function RateOfPlan(planId: string): Rate -> bool {
    (r: Rate) => r.planId == planId
  }

  function InventoryWanted(roomTypeId: string, from: Day, to: Day): Inventory -> bool {
    (r: Inventory) => r.roomTypeId == roomTypeId && from <= r.date < to
  }

  /** Reserved stays of the room type whose range overlaps the requested one. */
  function StayWanted(roomTypeId: string, from: Day, to: Day): Stay -> bool {
    (s: Stay) => s.roomTypeId == roomTypeId && s.reserved && s.checkIn < to && s.checkOut > from
  }

  function RecordsFor(db: Db, input: QuoteInput, room: Room, plan: Plan, from: Day, to: Day): Records {
    Records(room, plan,
            Select(db.rates, RateWanted(input.roomTypeId, {input.ratePlanId}, from, to)),
            Select(db.inventory, InventoryWanted(input.roomTypeId, from, to)),
            Select(db.stays, StayWanted(input.roomTypeId, from, to)))
  }

  /** The quote for the days from `from` up to `to`. */
  function QuoteDays(db: Db, input: QuoteInput, from: Day, to: Day): Quote {
    var room, plan := FindRoom(db.rooms, input.roomTypeId), FindPlan(db.plans, input.ratePlanId);
    if room.None? then RoomNotFound
    else if plan.None? then RatePlanNotFound
    else
      var records := RecordsFor(db, input, room.value, plan.value, from, to);
      Judge(input, room.value, plan.value, NightsFrom(records, Days(from, to)))
  }

  function QuoteOwnedStay(db: Db, input: QuoteInput): Quote {
    if DateRange(input.checkIn, input.checkOut) == [] then InvalidRange("check_out_after_check_in")
    else QuoteDays(db, input, ParseIso(input.checkIn).value, ParseIso(input.checkOut).value)
  }

  // ---------------------------------------------------------------- the filters lose nothing

  function RateOf(rates: seq<Rate>, roomTypeId: string, planId: string, d: Day): Option<Rate> {
    if rates == [] then None
    else
      var last := rates[|rates| - 1];
      if last.roomTypeId == roomTypeId && last.planId == planId && last.date == d then Some(last)
      else RateOf(rates[..|rates| - 1], roomTypeId, planId, d)
  }

  function InventoryOf(inventory: seq<Inventory>, roomTypeId: string, d: Day): Option<Inventory> {
    if inventory == [] then None
    else
      var last := inventory[|inventory| - 1];
      if last.roomTypeId == roomTypeId && last.date == d then Some(last)
      else InventoryOf(inventory[..|inventory| - 1], roomTypeId, d)
  }

  /** The rooms of a type taken on a night, over all reserved stays of the table. */
  function Booked(stays: seq<Stay>, roomTypeId: string, d: Day): int {
    if stays == [] then 0
    else
      var last := stays[|stays| - 1];
      Booked(stays[..|stays| - 1], roomTypeId, d)
      + if last.roomTypeId == roomTypeId && last.reserved then Uses(last, d) else 0
  }

  lemma SelectAppend<T>(rows: seq<T>, last: T, want: T -> bool)
    ensures Select(rows + [last], want) == Select(rows, want) + if want(last) then [last] else []
  {
    assert (rows + [last])[..|rows|] == rows;
  }

  /** Selecting from selected rows is selecting once by both conditions. */
  lemma {:induction false} SelectTwice<T(!new)>(rows: seq<T>, f: T -> bool, g: T -> bool, h: T -> bool)
    requires forall r :: h(r) == (f(r) && g(r))
    ensures Select(Select(rows, f), g) == Select(rows, h)
  {
    if rows != [] {
      var n := |rows| - 1;
      SelectTwice(rows[..n], f, g, h);
      if f(rows[n]) {
        SelectAppend(Select(rows[..n], f), rows[n], g);
      } else {
        assert Select(rows[..n], f) + [] == Select(rows[..n], f);
      }
    }
  }

  lemma {:induction false} SelectedRateOfPlan(rates: seq<Rate>, roomTypeId: string, planId: string, from: Day,
      to: Day, d: Day)
    requires from <= d < to
    ensures RateOn(Select(rates, RateWanted(roomTypeId, {planId}, from, to)), d) == RateOf(rates, roomTypeId, planId, d)
  {
    if rates != [] {
      var n := |rates| - 1;
      SelectedRateOfPlan(rates[..n], roomTypeId, planId, from, to, d);
      var want := RateWanted(roomTypeId, {planId}, from, to);
      SelectAppend(rates[..n], rates[n], want);
      assert rates[..n] + [rates[n]] == rates;
      if want(rates[n]) {
        LastOnAppend(Select(rates[..n], want), rates[n], RateDate, d);
      } else {
        assert Select(rates[..n], want) + [] == Select(rates[..n], want);
      }
    }
  }

  lemma SelectedRate(rates: seq<Rate>, roomTypeId: string, planId: string, planIds: set<string>, from: Day, to: Day,
      d: Day)
    requires from <= d < to && planId in planIds
    ensures var rows := Select(rates, RateWanted(roomTypeId, planIds, from, to));
            RateOn(Select(rows, RateOfPlan(planId)), d) == RateOf(rates, roomTypeId, planId, d)
  {
    SelectTwice(rates, RateWanted(roomTypeId, planIds, from, to), RateOfPlan(planId),
        RateWanted(roomTypeId, {planId}, from, to));
    SelectedRateOfPlan(rates, roomTypeId, planId, from, to, d);
  }

  lemma {:induction false} SelectedInventory(inventory: seq<Inventory>, roomTypeId: string, from: Day, to: Day, d: Day)
    requires from <= d < to
    ensures InventoryOn(Select(inventory, InventoryWanted(roomTypeId, from, to)), d)
        == InventoryOf(inventory, roomTypeId, d)
  {
    if inventory != [] {
      var n := |inventory| - 1;
      SelectedInventory(inventory[..n], roomTypeId, from, to, d);
      var want := InventoryWanted(roomTypeId, from, to);
      SelectAppend(inventory[..n], inventory[n], want);
      assert inventory[..n] + [inventory[n]] == inventory;
      if want(inventory[n]) {
        LastOnAppend(Select(inventory[..n], want), inventory[n], InventoryDate, d);
      } else {
        assert Select(inventory[..n], want) + [] == Select(inventory[..n], want);
      }
    }
  }

  /** The overlap condition drops no stay that covers a requested night. */
  lemma {:induction false} OverlapFilterLosesNothing(stays: seq<Stay>, roomTypeId: string, from: Day, to: Day, d: Day)
    requires from <= d < to
    ensures BookedOn(Select(stays, StayWanted(roomTypeId, from, to)), d) == Booked(stays, roomTypeId, d)
  {
    if stays != [] {
      var n := |stays| - 1;
      OverlapFilterLosesNothing(stays[..n], roomTypeId, from, to, d);
      var before := Select(stays[..n], StayWanted(roomTypeId, from, to));
      assert (before + [stays[n]])[..|before|] == before && before + [] == before;
    }
  }

  /** What the tables offer on a night, read without any range filter. */
  function Offer(db: Db, input: QuoteInput, d: Day): Night {
    Night(d, RateOf(db.rates, input.roomTypeId, input.ratePlanId, d), InventoryOf(db.inventory, input.roomTypeId, d),
          Booked(db.stays, input.roomTypeId, d))
  }

  function Offers(db: Db, input: QuoteInput, from: Day, to: Day): (nights: seq<Night>)
    ensures |nights| == |Days(from, to)|
    ensures forall i :: 0 <= i < |nights| ==> nights[i] == Offer(db, input, from + i)
  {
    seq(|Days(from, to)|, i => Offer(db, input, from + i))
  }

  lemma FetchedNightsAreOffers(db: Db, input: QuoteInput, room: Room, plan: Plan, from: Day, to: Day)
    ensures NightsFrom(RecordsFor(db, input, room, plan, from, to), Days(from, to)) == Offers(db, input, from, to)
  {
    forall d | from <= d < to
      ensures NightFrom(RecordsFor(db, input, room, plan, from, to), d) == Offer(db, input, d)
    {
      SelectedRateOfPlan(db.rates, input.roomTypeId, input.ratePlanId, from, to, d);
      SelectedInventory(db.inventory, input.roomTypeId, from, to, d);
      OverlapFilterLosesNothing(db.stays, input.roomTypeId, from, to, d);
    }
  }

  /** The same for rows fetched once for several plans and then filtered by plan. */
  lemma SharedNightsAreOffers(db: Db, input: QuoteInput, room: Room, plan: Plan, planIds: set<string>, from: Day,
      to: Day)
    requires input.ratePlanId in planIds
    ensures var records := RecordsFor(db, input, room, plan, from, to).(
              rates := Select(Select(db.rates, RateWanted(input.roomTypeId, planIds, from, to)),
                  RateOfPlan(input.ratePlanId)));
            NightsFrom(records, Days(from, to)) == Offers(db, input, from, to)
  {
    var rows := Select(db.rates, RateWanted(input.roomTypeId, planIds, from, to));
    var mine := Select(rows, RateOfPlan(input.ratePlanId));
    var records := RecordsFor(db, input, room, plan, from, to).(rates := mine);
    forall d | from <= d < to
      ensures NightFrom(records, d) == Offer(db, input, d)
    {
      SelectedRate(db.rates, input.roomTypeId, input.ratePlanId, planIds, from, to, d);
      SelectedInventory(db.inventory, input.roomTypeId, from, to, d);
      OverlapFilterLosesNothing(db.stays, input.roomTypeId, from, to, d);
    }
  }

  /**
   * A stay split at any day between check-in and check-out: quoted exactly when both parts are, in
   * one currency; then the totals add up, the smaller minimum wins, and both must be available.
   */
  lemma StaySplits(db: Db, input: QuoteInput, from: Day, mid: Day, to: Day)
    requires from < mid < to
    ensures var q, x, y := QuoteDays(db, input, from, to), QuoteDays(db, input, from, mid),
        QuoteDays(db, input, mid, to);
            && (q.Quoted? <==> x.Quoted? && y.Quoted? && x.currency == y.currency)
            && (q.Quoted? ==>
                  && q.currency == x.currency
                  && q.totalAmountCents == x.totalAmountCents + y.totalAmountCents
                  && q.minimumRemainingRooms == Min(x.minimumRemainingRooms, y.minimumRemainingRooms)
                  && (q.available <==> x.available && y.available))
  {
    var room, plan := FindRoom(db.rooms, input.roomTypeId), FindPlan(db.plans, input.ratePlanId);
    if room.Some? && plan.Some? {
      FetchedNightsAreOffers(db, input, room.value, plan.value, from, to);
      FetchedNightsAreOffers(db, input, room.value, plan.value, from, mid);
      FetchedNightsAreOffers(db, input, room.value, plan.value, mid, to);
      assert Offers(db, input, from, to) == Offers(db, input, from, mid) + Offers(db, input, mid, to);
      QuoteSplits(input, room.value, plan.value, Offers(db, input, from, mid), Offers(db, input, mid, to));
    }
  }

  // ---------------------------------------------------------------- no oversell

  ghost predicate OneInventoryRow(db: Db) {
    forall i, j :: 0 <= i < j < |db.inventory| ==>
      db.inventory[i].roomTypeId != db.inventory[j].roomTypeId || db.inventory[i].date != db.inventory[j].date
  }

  /** No night of any room type has more rooms reserved than its inventory row holds. */
  ghost predicate NotOverbooked(db: Db) {
    forall i :: 0 <= i < |db.inventory| ==>
      Booked(db.stays, db.inventory[i].roomTypeId, db.inventory[i].date) <= db.inventory[i].capacity
  }

  lemma {:induction false} InventoryOfRow(inventory: seq<Inventory>, i: nat)
    requires i < |inventory|
    requires forall j, k :: 0 <= j < k < |inventory| ==>
               inventory[j].roomTypeId != inventory[k].roomTypeId || inventory[j].date != inventory[k].date
    ensures InventoryOf(inventory, inventory[i].roomTypeId, inventory[i].date) == Some(inventory[i])
  {
    var n := |inventory| - 1;
    if i < n {
      InventoryOfRow(inventory[..n], i);
    }
  }

  function Reserved(input: QuoteInput, from: Day, to: Day): Stay {
    Stay(input.roomTypeId, true, from, to, input.roomCount.GetOr(1))
  }

  /** Reserve what was asked for if its quote says it is available. */
  function ReserveIfAvailable(db: Db, input: QuoteInput): Db {
    var q := QuoteOwnedStay(db, input);
    if q.Quoted? && q.available
    then db.(stays := db.stays + [Reserved(input, ParseIso(input.checkIn).value, ParseIso(input.checkOut).value)])
    else db
  }

  /** An available quote has the requested rooms left on every night. */
  lemma AvailableHasRoom(db: Db, input: QuoteInput, from: Day, to: Day)
    requires from < to && QuoteDays(db, input, from, to).Quoted? && QuoteDays(db, input, from, to).available
    ensures forall d {:trigger Offer(db, input, d)} :: from <= d < to ==>
              Capacity(Offer(db, input, d)) - Offer(db, input, d).booked >= input.roomCount.GetOr(1)
  {
    var room, plan := FindRoom(db.rooms, input.roomTypeId).value, FindPlan(db.plans, input.ratePlanId).value;
    FetchedNightsAreOffers(db, input, room, plan, from, to);
    var nights := Offers(db, input, from, to);
    QuoteMeaning(input, room, plan, nights);
    forall d | from <= d < to
      ensures Capacity(Offer(db, input, d)) - Offer(db, input, d).booked >= input.roomCount.GetOr(1)
    {
      assert nights[d - from] == Offer(db, input, d);
    }
  }

  lemma ReservationFits(db: Db, input: QuoteInput, from: Day, to: Day)
    requires from < to && OneInventoryRow(db) && NotOverbooked(db)
    requires QuoteDays(db, input, from, to).Quoted? && QuoteDays(db, input, from, to).available
    ensures NotOverbooked(db.(stays := db.stays + [Reserved(input, from, to)]))
  {
    AvailableHasRoom(db, input, from, to);
    var stay := Reserved(input, from, to);
    forall i | 0 <= i < |db.inventory|
      ensures Booked(db.stays + [stay], db.inventory[i].roomTypeId, db.inventory[i].date) <= db.inventory[i].capacity
    {
      var row := db.inventory[i];
      assert (db.stays + [stay])[..|db.stays|] == db.stays;
      if row.roomTypeId == input.roomTypeId && from <= row.date < to {
        InventoryOfRow(db.inventory, i);
        assert Capacity(Offer(db, input, row.date)) == row.capacity;
      }
    }
  }

  ghost function ReserveAll(db: Db, inputs: seq<QuoteInput>): Db
    decreases |inputs|
  {
    if inputs == [] then db else ReserveAll(ReserveIfAvailable(db, inputs[0]), inputs[1..])
  }

  /** However many requests are reserved one after the other, each on its own quote, nothing is oversold. */
  lemma {:induction false} ReservingNeverOverbooks(db: Db, inputs: seq<QuoteInput>)
    requires OneInventoryRow(db) && NotOverbooked(db)
    ensures NotOverbooked(ReserveAll(db, inputs))
    decreases |inputs|
  {
    if inputs != [] {
      var q := QuoteOwnedStay(db, inputs[0]);
      if q.Quoted? && q.available {
        var from, to := ParseIso(inputs[0].checkIn).value, ParseIso(inputs[0].checkOut).value;
        ReservationFits(db, inputs[0], from, to);
      }
      ReservingNeverOverbooks(ReserveIfAvailable(db, inputs[0]), inputs[1..]);
    }
  }
}
