/**
 * Quoting a stay in owned inventory. Judge decides a quote from what each night of the stay offers;
 * everything else gathers those facts from the tables.
 */
module OwnedStays {
  import opened Options
  import opened Calendar

  // ---------------------------------------------------------------- tables and requests

  datatype Room = Room(
    id: string, propertyId: string, active: bool, maxAdults: Option<int>, maxChildren: Option<int>,
    maxInfants: Option<int>, maxOccupancy: Option<int>)

  datatype Plan = Plan(id: string, propertyId: string, active: bool, mealPlanId: Option<string>)

  datatype Rate = Rate(
    planId: string, roomTypeId: string, date: Day, sellCurrency: string, sellAmountCents: int,
    occupancyBasis: Option<string>)

  datatype Inventory = Inventory(roomTypeId: string, date: Day, capacity: int, closed: bool)

  datatype Stay = Stay(roomTypeId: string, reserved: bool, checkIn: Day, checkOut: Day, roomCount: int)

  datatype Db = Db(rooms: seq<Room>, plans: seq<Plan>, rates: seq<Rate>, inventory: seq<Inventory>, stays: seq<Stay>)

  datatype Occupancy = Occupancy(adults: Option<int>, children: Option<int>, infants: Option<int>) {
    function People(): int {
      adults.GetOr(0) + children.GetOr(0) + infants.GetOr(0)
    }
  }

  datatype QuoteInput = QuoteInput(
    roomTypeId: string, ratePlanId: string, checkIn: string, checkOut: string, roomCount: Option<int>,
    occupancy: Option<Occupancy>, occupancies: seq<Occupancy>, currency: Option<string>)

  // ---------------------------------------------------------------- quotes

  datatype NightRate = NightRate(date: Day, sellCurrency: string, sellAmountCents: int, occupancyBasis: string,
                                 quantity: int, totalAmountCents: int)

  datatype NightAvailability = NightAvailability(date: Day, capacity: int, booked: int, remaining: int, closed: bool)

  datatype Quote =
    | Quoted(available: bool, propertyId: string, roomTypeId: string, ratePlanId: string, mealPlanId: Option<string>,
             roomCount: int, nights: int, currency: string, nightlyRates: seq<NightRate>, totalAmountCents: int,
             minimumRemainingRooms: int, availability: seq<NightAvailability>)
    | InvalidRange(reason: string)
    | RoomNotFound
    | RatePlanNotFound
    | RoomOccupancyExceeded
    | RatesMissing(dates: seq<Day>)
    | InventoryMissing(dates: seq<Day>)
    | CurrencyMismatch(expected: string, actual: string)

  /** What one night of a stay offers: its rate, its inventory, and the rooms already reserved. */
  datatype Night = Night(date: Day, rate: Option<Rate>, inventory: Option<Inventory>, booked: int)

  function Max(a: int, b: int): int {
    if a < b then b else a
  }

  function Min(a: int, b: int): int {
    if a < b then a else b
  }

  predicate Within(n: int, limit: Option<int>) {
    limit.Some? ==> n <= limit.value
  }

  predicate FitsOccupancy(room: Room, o: Occupancy) {
    && Within(o.adults.GetOr(0), room.maxAdults)
    && Within(o.children.GetOr(0), room.maxChildren)
    && Within(o.infants.GetOr(0), room.maxInfants)
    && Within(o.People(), room.maxOccupancy)
  }

  /** The parties a quote is for, one per room where the request lists them. */
  function Party(input: QuoteInput): seq<Occupancy> {
    if input.occupancies != [] then input.occupancies
    else if input.occupancy.Some? then [input.occupancy.value] else []
  }

  function PeopleIn(party: seq<Occupancy>): int {
    if party == [] then 0 else PeopleIn(party[..|party| - 1]) + party[|party| - 1].People()
  }

  /** How many units of a night's rate a stay pays: people for a per-person rate, rooms otherwise. */
  function RateQuantity(basis: Option<string>, roomCount: int, party: seq<Occupancy>): int {
    if basis == Some("per_person") then Max(1, PeopleIn(party)) else roomCount
  }

  function MissingRates(nights: seq<Night>): seq<Day> {
    if nights == [] then []
    else
      var last := nights[|nights| - 1];
      MissingRates(nights[..|nights| - 1]) + if last.rate.None? then [last.date] else []
  }

  function MissingInventory(nights: seq<Night>): seq<Day> {
    if nights == [] then []
    else
      var last := nights[|nights| - 1];
      MissingInventory(nights[..|nights| - 1]) + if last.inventory.None? then [last.date] else []
  }

  /** The currency of the first rate that is not in the given one. */
  function OtherCurrency(nights: seq<Night>, currency: string): Option<string> {
    if nights == [] then None
    else if nights[0].rate.Some?
        && nights[0].rate.value.sellCurrency != currency then Some(nights[0].rate.value.sellCurrency)
    else OtherCurrency(nights[1..], currency)
  }

  function Capacity(n: Night): int {
    if n.inventory.Some? then n.inventory.value.capacity else 0
  }

  predicate Closed(n: Night) {
    n.inventory.Some? && n.inventory.value.closed
  }

  function Remaining(n: Night): int {
    if Closed(n) then 0 else Max(0, Capacity(n) - n.booked)
  }

  function MinRemaining(nights: seq<Night>): int
    requires nights != []
  {
    var last := Remaining(nights[|nights| - 1]);
    if |nights| == 1 then last else Min(MinRemaining(nights[..|nights| - 1]), last)
  }

  function Amount(n: Night, roomCount: int, party: seq<Occupancy>): int {
    if n.rate.Some? then n.rate.value.sellAmountCents * RateQuantity(n.rate.value.occupancyBasis, roomCount, party)
        else 0
  }

  function Total(nights: seq<Night>, roomCount: int, party: seq<Occupancy>): int {
    if nights == [] then 0
    else Total(nights[..|nights| - 1], roomCount, party) + Amount(nights[|nights| - 1], roomCount, party)
  }

  function PricedNight(n: Night, roomCount: int, party: seq<Occupancy>): NightRate
    requires n.rate.Some?
  {
    var r := n.rate.value;
    var quantity := RateQuantity(r.occupancyBasis, roomCount, party);
    NightRate(n.date, r.sellCurrency, r.sellAmountCents, r.occupancyBasis.GetOr("room"), quantity,
        r.sellAmountCents * quantity)
  }

  function AvailableNight(n: Night): NightAvailability {
    NightAvailability(n.date, Capacity(n), n.booked, Remaining(n), Closed(n))
  }

  function PricedNights(nights: seq<Night>, roomCount: int, party: seq<Occupancy>): seq<NightRate>
    requires forall i :: 0 <= i < |nights| ==> nights[i].rate.Some?
  {
    seq(|nights|, i requires 0 <= i < |nights| => PricedNight(nights[i], roomCount, party))
  }

  function AvailableNights(nights: seq<Night>): seq<NightAvailability> {
    seq(|nights|, i requires 0 <= i < |nights| => AvailableNight(nights[i]))
  }

  function Dates(nights: seq<Night>): seq<Day> {
    seq(|nights|, i requires 0 <= i < |nights| => nights[i].date)
  }

  predicate RoomMatches(input: QuoteInput, room: Room) {
    room.active && room.id == input.roomTypeId
  }

  predicate PlanMatches(input: QuoteInput, room: Room, plan: Plan) {
    plan.active && plan.id == input.ratePlanId && plan.propertyId == room.propertyId
  }

  /** The currency a request insists on, if any. */
  predicate Wanted(input: QuoteInput, currency: string) {
    input.currency.Some? && input.currency.value != "" ==> input.currency.value == currency
  }

  lemma {:induction false} NoMissingRates(nights: seq<Night>)
    ensures MissingRates(nights) == [] <==> forall i :: 0 <= i < |nights| ==> nights[i].rate.Some?
  {
    if nights != [] {
      var n := |nights| - 1;
      NoMissingRates(nights[..n]);
      assert forall i :: 0 <= i < n ==> nights[..n][i] == nights[i];
    }
  }

  lemma {:induction false} NoMissingInventory(nights: seq<Night>)
    ensures MissingInventory(nights) == [] <==> forall i :: 0 <= i < |nights| ==> nights[i].inventory.Some?
  {
    if nights != [] {
      var n := |nights| - 1;
      NoMissingInventory(nights[..n]);
      assert forall i :: 0 <= i < n ==> nights[..n][i] == nights[i];
    }
  }

  lemma NoMissing(nights: seq<Night>)
    ensures MissingRates(nights) == [] <==> forall i :: 0 <= i < |nights| ==> nights[i].rate.Some?
    ensures MissingInventory(nights) == [] <==> forall i :: 0 <= i < |nights| ==> nights[i].inventory.Some?
  {
    NoMissingRates(nights);
    NoMissingInventory(nights);
  }

  function Judge(input: QuoteInput, room: Room, plan: Plan, nights: seq<Night>): Quote {
    var roomCount := input.roomCount.GetOr(1);
    var party := Party(input);
    if roomCount <= 0 then InvalidRange("room_count_must_be_positive")
    else if nights == [] then InvalidRange("check_out_after_check_in")
    else if !RoomMatches(input, room) then RoomNotFound
    else if !PlanMatches(input, room, plan) then RatePlanNotFound
    else if exists i :: 0 <= i < |party| && !FitsOccupancy(room, party[i]) then RoomOccupancyExceeded
    else if MissingRates(nights) != [] then RatesMissing(MissingRates(nights))
    else if MissingInventory(nights) != [] then InventoryMissing(MissingInventory(nights))
    else
      NoMissing(nights);
      var currency := nights[0].rate.value.sellCurrency;
      if currency == "" then RatesMissing(Dates(nights))
      else if !Wanted(input, currency) then CurrencyMismatch(input.currency.value, currency)
      else
        var other := OtherCurrency(nights, currency);
        if other.Some? then CurrencyMismatch(currency, other.value)
        else
          Quoted(MinRemaining(nights) >= roomCount, room.propertyId, input.roomTypeId, input.ratePlanId,
              plan.mealPlanId,
                 roomCount, |nights|, currency,
                 PricedNights(nights, roomCount, party), Total(nights, roomCount, party),
                 MinRemaining(nights), AvailableNights(nights))
  }

  // ---------------------------------------------------------------- what a quote means

  lemma {:induction false} OneCurrency(nights: seq<Night>, currency: string)
    requires forall i :: 0 <= i < |nights| ==> nights[i].rate.Some?
    ensures OtherCurrency(nights, currency).None? <==>
            forall i :: 0 <= i < |nights| ==> nights[i].rate.value.sellCurrency == currency
  {
    if nights != [] {
      OneCurrency(nights[1..], currency);
      assert forall i :: 1 <= i < |nights| ==> nights[i] == nights[1..][i - 1];
    }
  }

  lemma {:induction false} MinRemainingMeaning(nights: seq<Night>, bound: int)
    requires nights != []
    ensures MinRemaining(nights) >= bound <==> forall i :: 0 <= i < |nights| ==> Remaining(nights[i]) >= bound
    ensures exists i :: 0 <= i < |nights| && Remaining(nights[i]) == MinRemaining(nights)
  {
    var n := |nights| - 1;
    assert Remaining(nights[n]) == Remaining(nights[n]);
    if n > 0 {
      MinRemainingMeaning(nights[..n], bound);
      assert forall i :: 0 <= i < n ==> nights[..n][i] == nights[i];
    }
  }

  /** Every night has a rate and inventory, and all rates are in this one currency. */
  ghost predicate Sellable(nights: seq<Night>, currency: string) {
    && currency != ""
    && forall i :: 0 <= i < |nights| ==>
         nights[i].rate.Some? && nights[i].inventory.Some? && nights[i].rate.value.sellCurrency == currency
  }

  /** The part of a request that does not depend on the nights. */
  ghost predicate Admissible(input: QuoteInput, room: Room, plan: Plan) {
    && input.roomCount.GetOr(1) > 0
    && RoomMatches(input, room) && PlanMatches(input, room, plan)
    && forall i :: 0 <= i < |Party(input)| ==> FitsOccupancy(room, Party(input)[i])
  }

  lemma SellableIsQuoted(input: QuoteInput, room: Room, plan: Plan, nights: seq<Night>, currency: string)
    requires Admissible(input, room, plan) && nights != [] && Sellable(nights, currency) && Wanted(input, currency)
    ensures Judge(input, room, plan, nights).Quoted?
  {
    NoMissing(nights);
    OneCurrency(nights, currency);
    assert nights[0].rate.value.sellCurrency == currency;
  }

  lemma QuotedIsSellable(input: QuoteInput, room: Room, plan: Plan, nights: seq<Night>)
    requires Judge(input, room, plan, nights).Quoted?
    ensures Admissible(input, room, plan) && nights != []
    ensures var q := Judge(input, room, plan, nights);
            Sellable(nights, q.currency) && Wanted(input, q.currency)
  {
    NoMissing(nights);
    OneCurrency(nights, nights[0].rate.value.sellCurrency);
  }

  lemma EnoughRemaining(nights: seq<Night>, roomCount: int)
    requires nights != [] && roomCount > 0
    ensures MinRemaining(nights) >= roomCount <==>
            forall i :: 0 <= i < |nights| ==> !Closed(nights[i]) && Capacity(nights[i]) - nights[i].booked >= roomCount
  {
    MinRemainingMeaning(nights, roomCount);
  }

  /**
   * A request is quoted exactly when it is admissible, its stay is not empty, and one wanted currency
   * covers all nights. The total is the sum over the nights, and the stay is available exactly when
   * every night is open and has the requested rooms left beside those already booked.
   */
  lemma QuoteMeaning(input: QuoteInput, room: Room, plan: Plan, nights: seq<Night>)
    ensures var q := Judge(input, room, plan, nights);
            && (q.Quoted? <==> Admissible(input, room, plan) && nights != []
                               && exists c :: Sellable(nights, c) && Wanted(input, c))
            && (q.Quoted? ==>
                  && Sellable(nights, q.currency) && Wanted(input, q.currency)
                  && q.totalAmountCents == Total(nights, q.roomCount, Party(input))
                  && q.roomCount == input.roomCount.GetOr(1)
                  && q.minimumRemainingRooms == MinRemaining(nights)
                  && (q.available <==>
                      forall i :: 0 <= i < |nights| ==>
                        !Closed(nights[i]) && Capacity(nights[i]) - nights[i].booked >= q.roomCount))
  {
    if Judge(input, room, plan, nights).Quoted? {
      QuotedIsSellable(input, room, plan, nights);
      EnoughRemaining(nights, input.roomCount.GetOr(1));
    }
    if Admissible(input, room, plan) && nights != [] && exists c :: Sellable(nights, c) && Wanted(input, c) {
      var c :| Sellable(nights, c) && Wanted(input, c);
      SellableIsQuoted(input, room, plan, nights, c);
    }
  }

  // ---------------------------------------------------------------- splitting a stay

  lemma {:induction false} TotalSplits(a: seq<Night>, b: seq<Night>, roomCount: int, party: seq<Occupancy>)
    ensures Total(a + b, roomCount, party) == Total(a, roomCount, party) + Total(b, roomCount, party)
  {
    if b == [] {
      assert a + b == a;
    } else {
      var n := |b| - 1;
      TotalSplits(a, b[..n], roomCount, party);
      assert (a + b)[..|a + b| - 1] == a + b[..n];
    }
  }

  lemma {:induction false} MinRemainingSplits(a: seq<Night>, b: seq<Night>)
    requires a != [] && b != []
    ensures MinRemaining(a + b) == Min(MinRemaining(a), MinRemaining(b))
  {
    var n := |b| - 1;
    assert (a + b)[..|a + b| - 1] == a + b[..n];
    if n > 0 {
      MinRemainingSplits(a, b[..n]);
    } else {
      assert a + b[..n] == a;
    }
  }

  lemma SellableSplits(a: seq<Night>, b: seq<Night>, currency: string)
    ensures Sellable(a + b, currency) <==> Sellable(a, currency) && Sellable(b, currency)
  {
    assert forall i :: 0 <= i < |a| ==> (a + b)[i] == a[i];
    assert forall i :: 0 <= i < |b| ==> (a + b)[|a| + i] == b[i];
  }

  lemma OneSellableCurrency(nights: seq<Night>, c: string, d: string)
    requires nights != [] && Sellable(nights, c) && Sellable(nights, d)
    ensures c == d
  {
    assert nights[0].rate.value.sellCurrency == c;
  }

  lemma QuotedFigures(input: QuoteInput, room: Room, plan: Plan, nights: seq<Night>)
    requires nights != []
    ensures var q := Judge(input, room, plan, nights);
            q.Quoted? ==>
              && q.totalAmountCents == Total(nights, input.roomCount.GetOr(1), Party(input))
              && q.minimumRemainingRooms == MinRemaining(nights)
              && q.available == (MinRemaining(nights) >= input.roomCount.GetOr(1))
  {
  }

  lemma QuotedSplits(input: QuoteInput, room: Room, plan: Plan, a: seq<Night>, b: seq<Night>)
    requires a != [] && b != []
    ensures var q, x, y := Judge(input, room, plan, a + b), Judge(input, room, plan, a), Judge(input, room, plan, b);
            && (q.Quoted? <==> x.Quoted? && y.Quoted? && x.currency == y.currency)
            && (q.Quoted? ==> q.currency == x.currency)
  {
    var q, x, y := Judge(input, room, plan, a + b), Judge(input, room, plan, a), Judge(input, room, plan, b);
    if q.Quoted? {
      QuotedIsSellable(input, room, plan, a + b);
      SellableSplits(a, b, q.currency);
      SellableIsQuoted(input, room, plan, a, q.currency);
      SellableIsQuoted(input, room, plan, b, q.currency);
      QuotedIsSellable(input, room, plan, a);
      QuotedIsSellable(input, room, plan, b);
      OneSellableCurrency(a, q.currency, x.currency);
      OneSellableCurrency(b, q.currency, y.currency);
    }
    if x.Quoted? && y.Quoted? && x.currency == y.currency {
      QuotedIsSellable(input, room, plan, a);
      QuotedIsSellable(input, room, plan, b);
      SellableSplits(a, b, x.currency);
      SellableIsQuoted(input, room, plan, a + b, x.currency);
    }
  }

  /**
   * A stay can be cut at any night: the whole is quoted exactly when both parts are, in one currency.
   * Its total is then the sum of theirs, its minimum remaining the smaller one, and it is available
   * exactly when both are.
   */
  lemma QuoteSplits(input: QuoteInput, room: Room, plan: Plan, a: seq<Night>, b: seq<Night>)
    requires a != [] && b != []
    ensures var q, x, y := Judge(input, room, plan, a + b), Judge(input, room, plan, a), Judge(input, room, plan, b);
            && (q.Quoted? <==> x.Quoted? && y.Quoted? && x.currency == y.currency)
            && (q.Quoted? ==>
                  && q.currency == x.currency
                  && q.totalAmountCents == x.totalAmountCents + y.totalAmountCents
                  && q.minimumRemainingRooms == Min(x.minimumRemainingRooms, y.minimumRemainingRooms)
                  && (q.available <==> x.available && y.available))
  {
    QuotedSplits(input, room, plan, a, b);
    TotalSplits(a, b, input.roomCount.GetOr(1), Party(input));
    MinRemainingSplits(a, b);
    QuotedFigures(input, room, plan, a + b);
    QuotedFigures(input, room, plan, a);
    QuotedFigures(input, room, plan, b);
  }
}
