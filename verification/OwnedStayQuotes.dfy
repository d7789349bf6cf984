/**
 * The quoting service as it runs: lookup tables filled row by row, totals accumulated night by
 * night, and the batch form that fetches once for each group of requests.
 */
module OwnedStayQuotes {
  import opened Options
  import opened Calendar
  import opened OwnedStays
  import opened OwnedStayTables

  method RatesByDate(rates: seq<Rate>) returns (byDate: map<Day, Rate>)
    ensures forall d :: RateOn(rates, d) == if d in byDate then Some(byDate[d]) else None
  {
    byDate := map[];
    for i := 0 to |rates|
      invariant forall d :: RateOn(rates[..i], d) == if d in byDate then Some(byDate[d]) else None
    {
      assert rates[..i + 1][..i] == rates[..i];
      byDate := byDate[rates[i].date := rates[i]];
    }
    assert rates[..|rates|] == rates;
  }

  method InventoryByDate(inventory: seq<Inventory>) returns (byDate: map<Day, Inventory>)
    ensures forall d :: InventoryOn(inventory, d) == if d in byDate then Some(byDate[d]) else None
  {
    byDate := map[];
    for i := 0 to |inventory|
      invariant forall d :: InventoryOn(inventory[..i], d) == if d in byDate then Some(byDate[d]) else None
    {
      assert inventory[..i + 1][..i] == inventory[..i];
      byDate := byDate[inventory[i].date := inventory[i]];
    }
    assert inventory[..|inventory|] == inventory;
  }

  function CountOn(byDate: map<Day, int>, d: Day): int {
    if d in byDate then byDate[d] else 0
  }

  /** Rooms booked per requested night, counted stay by stay and night by night. */
  method BookedRoomsByNight(rows: seq<Stay>, nights: seq<Day>) returns (byDate: map<Day, int>)
    ensures forall d :: d in nights ==> CountOn(byDate, d) == BookedOn(rows, d)
    ensures forall d :: d in byDate ==> d in nights
  {
    byDate := map[];
    for i := 0 to |rows|
      invariant forall d :: d in nights ==> CountOn(byDate, d) == BookedOn(rows[..i], d)
      invariant forall d :: d in byDate ==> d in nights
    {
      var row := rows[i];
      var dates := Days(row.checkIn, row.checkOut);
      assert rows[..i + 1][..i] == rows[..i];
      for k := 0 to |dates|
        invariant forall d :: d in nights ==>
                    CountOn(byDate, d) == BookedOn(rows[..i], d) + if row.checkIn <= d < row.checkIn + k
                        then row.roomCount else 0
        invariant forall d :: d in byDate ==> d in nights
      {
        if dates[k] in nights {
          byDate := byDate[dates[k] := CountOn(byDate, dates[k]) + row.roomCount];
        }
      }
    }
    assert rows[..|rows|] == rows;
  }

  /** What every night offers, gathered from the three lookup tables. */
  method GatherNights(records: Records, dates: seq<Day>) returns (nights: seq<Night>)
    ensures nights == NightsFrom(records, dates)
  {
    var rates := RatesByDate(records.rates);
    var inventory := InventoryByDate(records.inventory);
    var booked := BookedRoomsByNight(records.stays, dates);
    nights := [];
    for i := 0 to |dates|
      invariant nights == NightsFrom(records, dates[..i])
    {
      var d := dates[i];
      assert RateOn(records.rates, d) == if d in rates then Some(rates[d]) else None;
      nights := nights + [Night(d, if d in rates then Some(rates[d]) else None,
                                if d in inventory then Some(inventory[d]) else None, CountOn(booked, d))];
    }
    assert dates[..|dates|] == dates;
  }

  method MissingDates(nights: seq<Night>) returns (rates: seq<Day>, inventory: seq<Day>)
    ensures rates == MissingRates(nights) && inventory == MissingInventory(nights)
  {
    rates, inventory := [], [];
    for i := 0 to |nights|
      invariant rates == MissingRates(nights[..i]) && inventory == MissingInventory(nights[..i])
    {
      assert nights[..i + 1][..i] == nights[..i];
      if nights[i].rate.None? {
        rates := rates + [nights[i].date];
      }
      if nights[i].inventory.None? {
        inventory := inventory + [nights[i].date];
      }
    }
    assert nights[..|nights|] == nights;
  }

  method FindOtherCurrency(nights: seq<Night>, currency: string) returns (other: Option<string>)
    ensures other == OtherCurrency(nights, currency)
  {
    for i := 0 to |nights|
      invariant OtherCurrency(nights, currency) == OtherCurrency(nights[i..], currency)
    {
      assert nights[i..][0] == nights[i] && nights[i..][1..] == nights[i + 1..];
      if nights[i].rate.Some? && nights[i].rate.value.sellCurrency != currency {
        return Some(nights[i].rate.value.sellCurrency);
      }
    }
    other := None;
  }

  method AvailabilityOf(nights: seq<Night>) returns (availability: seq<NightAvailability>, minimum: int)
    requires nights != []
    ensures availability == AvailableNights(nights)
    ensures minimum == MinRemaining(nights)
  {
    availability, minimum := [AvailableNight(nights[0])], Remaining(nights[0]);
    assert nights[..1] == [nights[0]];
    for i := 1 to |nights|
      invariant |availability| == i && forall k :: 0 <= k < i ==> availability[k] == AvailableNight(nights[k])
      invariant minimum == MinRemaining(nights[..i])
    {
      assert nights[..i + 1][..i] == nights[..i];
      availability := availability + [AvailableNight(nights[i])];
      minimum := Min(minimum, Remaining(nights[i]));
    }
    assert nights[..|nights|] == nights;
  }

  method PriceNights(nights: seq<Night>, roomCount: int, party: seq<Occupancy>)
    returns (rates: seq<NightRate>, totalAmountCents: int)
    requires forall i :: 0 <= i < |nights| ==> nights[i].rate.Some?
    ensures rates == PricedNights(nights, roomCount, party)
    ensures totalAmountCents == Total(nights, roomCount, party)
  {
    rates, totalAmountCents := [], 0;
    for i := 0 to |nights|
      invariant |rates| == i && forall k :: 0 <= k < i ==> rates[k] == PricedNight(nights[k], roomCount, party)
      invariant totalAmountCents == Total(nights[..i], roomCount, party)
    {
      assert nights[..i + 1][..i] == nights[..i];
      var priced := PricedNight(nights[i], roomCount, party);
      totalAmountCents := totalAmountCents + priced.totalAmountCents;
      rates := rates + [priced];
    }
    assert nights[..|nights|] == nights;
  }

  method ExceedsOccupancy(room: Room, party: seq<Occupancy>) returns (exceeds: bool)
    ensures exceeds <==> exists i :: 0 <= i < |party| && !FitsOccupancy(room, party[i])
  {
    for i := 0 to |party|
      invariant forall k :: 0 <= k < i ==> FitsOccupancy(room, party[k])
    {
      if !FitsOccupancy(room, party[i]) {
        return true;
      }
    }
    exceeds := false;
  }

  /** The checks and sums of a quote, in the order the service makes them. */
  method QuoteNights(input: QuoteInput, records: Records, dates: seq<Day>) returns (quote: Quote)
    ensures quote == Judge(input, records.room, records.plan, NightsFrom(records, dates))
  {
    var room, plan := records.room, records.plan;
    var roomCount := input.roomCount.GetOr(1);
    if roomCount <= 0 {
      return InvalidRange("room_count_must_be_positive");
    }
    if |dates| == 0 {
      return InvalidRange("check_out_after_check_in");
    }
    if !RoomMatches(input, room) {
      return RoomNotFound;
    }
    if !PlanMatches(input, room, plan) {
      return RatePlanNotFound;
    }
    var party := Party(input);
    var exceeds := ExceedsOccupancy(room, party);
    if exceeds {
      return RoomOccupancyExceeded;
    }
    var nights := GatherNights(records, dates);
    var missingRates, missingInventory := MissingDates(nights);
    if missingRates != [] {
      return RatesMissing(missingRates);
    }
    if missingInventory != [] {
      return InventoryMissing(missingInventory);
    }
    NoMissing(nights);
    var currency := nights[0].rate.value.sellCurrency;
    if currency == "" {
      return RatesMissing(Dates(nights));
    }
    if !Wanted(input, currency) {
      return CurrencyMismatch(input.currency.value, currency);
    }
    var other := FindOtherCurrency(nights, currency);
    if other.Some? {
      return CurrencyMismatch(currency, other.value);
    }
    var availability, minimum := AvailabilityOf(nights);
    var rates, total := PriceNights(nights, roomCount, party);
    quote := Quoted(minimum >= roomCount, room.propertyId, input.roomTypeId, input.ratePlanId, plan.mealPlanId,
        roomCount,
                    |nights|, currency, rates, total, minimum, availability);
  }

  method ResolveOwnedStayQuote(input: QuoteInput, records: Records) returns (quote: Quote)
    ensures quote == Resolve(input, records)
  {
    var dates := EachDateInRange(input.checkIn, input.checkOut);
    quote := QuoteNights(input, records, dates);
  }

  // ---------------------------------------------------------------- the batch form

  type Group = seq<(nat, QuoteInput)>

  /** The text that groups requests for the same room type and dates; U+001F separates the parts. */
  function GroupKey(input: QuoteInput): string {
    input.roomTypeId + [SEPARATOR] + input.checkIn + [SEPARATOR] + input.checkOut
  }

  const SEPARATOR := '\U{1f}'

  lemma LaterSeparator(p: string, y: string, p': string, y': string)
    requires p + [SEPARATOR] + y == p' + [SEPARATOR] + y' && |p| < |p'|
    ensures SEPARATOR in y
  {
    var s := p' + [SEPARATOR] + y';
    assert s[|p'|] == y[|p'| - |p| - 1];
  }

  lemma LastPart(p: string, y: string, p': string, y': string)
    requires p + [SEPARATOR] + y == p' + [SEPARATOR] + y' && SEPARATOR !in y && SEPARATOR !in y'
    ensures p == p' && y == y'
  {
    var s, s' := p + [SEPARATOR] + y, p' + [SEPARATOR] + y';
    if |p| < |p'| {
      LaterSeparator(p, y, p', y');
    } else if |p'| < |p| {
      LaterSeparator(p', y', p, y);
    }
    assert p == s[..|p|] && p' == s'[..|p'|] && y == s[|p| + 1..] && y' == s'[|p'| + 1..];
  }

  /** Requests whose date texts have no separator in them share a key only for the same room type and dates. */
  lemma GroupKeyInjective(a: QuoteInput, b: QuoteInput)
    requires SEPARATOR !in a.checkIn && SEPARATOR !in a.checkOut && SEPARATOR !in b.checkIn && SEPARATOR !in b.checkOut
    ensures GroupKey(a) == GroupKey(b) <==>
        a.roomTypeId == b.roomTypeId && a.checkIn == b.checkIn && a.checkOut == b.checkOut
  {
    if GroupKey(a) == GroupKey(b) {
      LastPart(a.roomTypeId + [SEPARATOR] + a.checkIn, a.checkOut, b.roomTypeId + [SEPARATOR] + b.checkIn, b.checkOut);
      LastPart(a.roomTypeId, a.checkIn, b.roomTypeId, b.checkIn);
    }
  }

  /** Texts that parse as dates have none. */
  lemma DatesHaveNoSeparator(text: string)
    requires ParseIso(text).Some?
    ensures SEPARATOR !in text
  {
  }

  /** A request whose dates parse to a range that is not empty. */
  predicate HasNights(input: QuoteInput) {
    DateRange(input.checkIn, input.checkOut) != []
  }

  ghost predicate PlanIdsUnique(db: Db) {
    forall i, j :: 0 <= i < j < |db.plans| ==> db.plans[i].id != db.plans[j].id
  }

  lemma {:induction false} FindPlanUnique(plans: seq<Plan>, i: nat)
    requires i < |plans| && forall j, k :: 0 <= j < k < |plans| ==> plans[j].id != plans[k].id
    ensures FindPlan(plans, plans[i].id) == Some(plans[i])
  {
    if i > 0 {
      FindPlanUnique(plans[1..], i - 1);
    }
  }

  lemma {:induction false} FindPlanAbsent(plans: seq<Plan>, id: string)
    requires forall j :: 0 <= j < |plans| ==> plans[j].id != id
    ensures FindPlan(plans, id).None?
  {
    if plans != [] {
      FindPlanAbsent(plans[1..], id);
    }
  }

  /** The plans of a group by id, from one query for all of its plan ids. */
  method PlansById(db: Db, planIds: set<string>) returns (plansById: map<string, Plan>)
    requires PlanIdsUnique(db)
    ensures forall id :: id in planIds ==>
              FindPlan(db.plans, id) == if id in plansById then Some(plansById[id]) else None
  {
    plansById := map[];
    for i := 0 to |db.plans|
      invariant forall id :: id in plansById ==>
          exists j :: 0 <= j < i && db.plans[j] == plansById[id] && db.plans[j].id == id
      invariant forall j :: 0 <= j < i && db.plans[j].id in planIds ==> db.plans[j].id in plansById
    {
      if db.plans[i].id in planIds {
        plansById := plansById[db.plans[i].id := db.plans[i]];
      }
    }
    forall id | id in planIds
      ensures FindPlan(db.plans, id) == if id in plansById then Some(plansById[id]) else None
    {
      if id in plansById {
        var j :| 0 <= j < |db.plans| && db.plans[j] == plansById[id] && db.plans[j].id == id;
        FindPlanUnique(db.plans, j);
      } else {
        FindPlanAbsent(db.plans, id);
      }
    }
  }

  /** What a group fetches once: its room type, its plans, and the rows of its room type and dates. */
  datatype Fetched = Fetched(
    room: Option<Room>, plansById: map<string, Plan>, rates: seq<Rate>, inventory: seq<Inventory>, stays: seq<Stay>)

  ghost predicate FetchedFor(f: Fetched, db: Db, roomTypeId: string, planIds: set<string>, from: Day, to: Day) {
    && f.room == FindRoom(db.rooms, roomTypeId)
    && (forall id :: id in planIds ==>
        FindPlan(db.plans, id) == if id in f.plansById then Some(f.plansById[id]) else None)
    && f.rates == Select(db.rates, RateWanted(roomTypeId, planIds, from, to))
    && f.inventory == Select(db.inventory, InventoryWanted(roomTypeId, from, to))
    && f.stays == Select(db.stays, StayWanted(roomTypeId, from, to))
  }

  method Fetch(db: Db, roomTypeId: string, planIds: set<string>, from: Day, to: Day) returns (f: Fetched)
    requires PlanIdsUnique(db)
    ensures FetchedFor(f, db, roomTypeId, planIds, from, to)
  {
    var plansById := PlansById(db, planIds);
    f := Fetched(FindRoom(db.rooms, roomTypeId), plansById,
                 Select(db.rates, RateWanted(roomTypeId, planIds, from, to)),
                 Select(db.inventory, InventoryWanted(roomTypeId, from, to)),
                 Select(db.stays, StayWanted(roomTypeId, from, to)));
  }

  /** The answer to one request of a group from what the group fetched. */
  function AnswerFrom(f: Fetched, input: QuoteInput, from: Day, to: Day): Quote {
    if f.room.None? then RoomNotFound
    else if input.ratePlanId !in f.plansById then RatePlanNotFound
    else
      var plan := f.plansById[input.ratePlanId];
      var records := Records(f.room.value, plan, Select(f.rates, RateOfPlan(input.ratePlanId)), f.inventory, f.stays);
      Judge(input, f.room.value, plan, NightsFrom(records, Days(from, to)))
  }

  method QuoteMember(f: Fetched, input: QuoteInput, from: Day, to: Day) returns (quote: Quote)
    ensures quote == AnswerFrom(f, input, from, to)
  {
    if f.room.None? {
      quote := RoomNotFound;
    } else if input.ratePlanId !in f.plansById {
      quote := RatePlanNotFound;
    } else {
      var plan := f.plansById[input.ratePlanId];
      var records := Records(f.room.value, plan, Select(f.rates, RateOfPlan(input.ratePlanId)), f.inventory, f.stays);
      quote := QuoteNights(input, records, Days(from, to));
    }
  }

  /** What the group fetched answers each request as fetching for it alone would. */
  lemma SharedAnswer(
    db: Db, f: Fetched, input: QuoteInput, roomTypeId: string, planIds: set<string>, from: Day, to: Day)
    requires from < to && FetchedFor(f, db, roomTypeId, planIds, from, to)
    requires input.roomTypeId == roomTypeId && input.ratePlanId in planIds
    ensures AnswerFrom(f, input, from, to) == QuoteDays(db, input, from, to)
  {
    if f.room.Some? && input.ratePlanId in f.plansById {
      var plan := f.plansById[input.ratePlanId];
      SharedNightsAreOffers(db, input, f.room.value, plan, planIds, from, to);
      FetchedNightsAreOffers(db, input, f.room.value, plan, from, to);
    }
  }

  function PlanIdsOf(group: Group): (planIds: set<string>)
    ensures forall i :: 0 <= i < |group| ==> group[i].1.ratePlanId in planIds
  {
    set i | 0 <= i < |group| :: group[i].1.ratePlanId
  }

  ghost function GroupAnswers(db: Db, group: Group, from: Day, to: Day): (quotes: seq<Quote>)
    ensures |quotes| == |group|
    ensures forall i :: 0 <= i < |group| ==> quotes[i] == QuoteDays(db, group[i].1, from, to)
  {
    seq(|group|, i requires 0 <= i < |group| => QuoteDays(db, group[i].1, from, to))
  }

  function AnswersFrom(f: Fetched, group: Group, from: Day, to: Day): seq<Quote> {
    seq(|group|, i requires 0 <= i < |group| => AnswerFrom(f, group[i].1, from, to))
  }

  method QuoteMembers(f: Fetched, group: Group, from: Day, to: Day) returns (quotes: seq<Quote>)
    ensures quotes == AnswersFrom(f, group, from, to)
  {
    ghost var answers := AnswersFrom(f, group, from, to);
    quotes := [];
    for i := 0 to |group|
      invariant quotes == answers[..i]
    {
      var quote := QuoteMember(f, group[i].1, from, to);
      assert quote == answers[i];
      quotes := quotes + [quote];
    }
  }

  lemma SharedAnswers(
    db: Db, f: Fetched, group: Group, roomTypeId: string, planIds: set<string>, from: Day, to: Day)
    requires from < to && FetchedFor(f, db, roomTypeId, planIds, from, to)
    requires forall i :: 0 <= i < |group| ==> group[i].1.roomTypeId == roomTypeId && group[i].1.ratePlanId in planIds
    ensures AnswersFrom(f, group, from, to) == GroupAnswers(db, group, from, to)
  {
    var a, b := AnswersFrom(f, group, from, to), GroupAnswers(db, group, from, to);
    forall i | 0 <= i < |group|
      ensures a[i] == b[i]
    {
      SharedAnswer(db, f, group[i].1, roomTypeId, planIds, from, to);
    }
  }

  /** All requests of a group, answered from rows fetched once for its room type and dates. */
  method QuoteGroup(db: Db, group: Group, from: Day, to: Day) returns (quotes: seq<Quote>)
    requires PlanIdsUnique(db) && group != [] && from < to
    requires forall i :: 0 <= i < |group| ==> group[i].1.roomTypeId == group[0].1.roomTypeId
    ensures quotes == GroupAnswers(db, group, from, to)
  {
    var planIds := PlanIdsOf(group);
    var fetched := Fetch(db, group[0].1.roomTypeId, planIds, from, to);
    quotes := QuoteMembers(fetched, group, from, to);
    SharedAnswers(db, fetched, group, group[0].1.roomTypeId, planIds, from, to);
  }

  /** `live` and `keys` list, input by input, whether it has nights and what its group key is. */
  ghost predicate Classified(inputs: seq<QuoteInput>, live: seq<bool>, keys: seq<string>) {
    && |live| == |keys| == |inputs|
    && (forall i {:trigger HasNights(inputs[i])} :: 0 <= i < |inputs| ==> live[i] == HasNights(inputs[i]))
    && (forall i {:trigger GroupKey(inputs[i])} :: 0 <= i < |inputs| ==> keys[i] == GroupKey(inputs[i]))
  }

  /** Groups are never empty; their members are the live ones of the first `n` inputs, filed under their keys. */
  ghost predicate GroupsOk(
    inputs: seq<QuoteInput>, live: seq<bool>, keys: seq<string>, groups: map<string, Group>, n: nat)
    requires n <= |inputs| == |live| == |keys|
  {
    && (forall key :: key in groups ==> groups[key] != [])
    && (forall key, i :: key in groups && 0 <= i < |groups[key]| ==>
          var j := groups[key][i].0;
          j < n && groups[key][i].1 == inputs[j] && live[j] && keys[j] == key)
    && (forall j: nat :: j < n && live[j] ==> keys[j] in groups && (j, inputs[j]) in groups[keys[j]])
  }

  method GroupInputs(inputs: seq<QuoteInput>, ghost live: seq<bool>, ghost keys: seq<string>)
    returns (groups: map<string, Group>, results: map<int, Quote>)
    requires Classified(inputs, live, keys)
    ensures GroupsOk(inputs, live, keys, groups, |inputs|)
    ensures forall j :: j in results <==> 0 <= j < |inputs| && !live[j]
    ensures forall j :: j in results ==> results[j] == InvalidRange("check_out_after_check_in")
  {
    groups, results := map[], map[];
    for index := 0 to |inputs|
      invariant GroupsOk(inputs, live, keys, groups, index)
      invariant forall j :: j in results <==> 0 <= j < index && !live[j]
      invariant forall j :: j in results ==> results[j] == InvalidRange("check_out_after_check_in")
    {
      var has := HasNights(inputs[index]);
      if !has {
        results := results[index := InvalidRange("check_out_after_check_in")];
      } else {
        var key := GroupKey(inputs[index]);
        groups := FileUnderKey(inputs, live, keys, groups, index, key);
      }
    }
  }

  /** Filing one more request under its key. */
  method FileUnderKey(
    inputs: seq<QuoteInput>, ghost live: seq<bool>, ghost keys: seq<string>, groups: map<string, Group>, n: nat,
        key: string)
    returns (grown: map<string, Group>)
    requires n < |inputs| == |live| == |keys| && GroupsOk(inputs, live, keys, groups, n)
    requires live[n] && keys[n] == key
    ensures GroupsOk(inputs, live, keys, grown, n + 1)
  {
    var group := if key in groups then groups[key] else [];
    grown := groups[key := group + [(n, inputs[n])]];
    forall j: nat | j < n + 1 && live[j]
      ensures keys[j] in grown && (j, inputs[j]) in grown[keys[j]]
    {
      if j < n && keys[j] == key {
        assert (j, inputs[j]) in group;
      }
    }
  }

  /** The answers so far agree with the expected ones. */
  ghost predicate Right(results: map<int, Quote>, expected: seq<Quote>) {
    forall j :: j in results ==> 0 <= j < |expected| && results[j] == expected[j]
  }

  /**
   * The batch form: group the requests, fetch once per group, and answer in input order exactly what
   * the one-at-a-time form answers on the same tables.
   */
  method QuoteOwnedStaysBatch(db: Db, inputs: seq<QuoteInput>) returns (quotes: seq<Quote>)
    requires PlanIdsUnique(db)
    ensures |quotes| == |inputs|
    ensures forall i :: 0 <= i < |inputs| ==> quotes[i] == QuoteOwnedStay(db, inputs[i])
  {
    ghost var live := seq(|inputs|, i requires 0 <= i < |inputs| => HasNights(inputs[i]));
    ghost var keys := seq(|inputs|, i requires 0 <= i < |inputs| => GroupKey(inputs[i]));
    ghost var expected := seq(|inputs|, i requires 0 <= i < |inputs| => QuoteOwnedStay(db, inputs[i]));
    quotes := AnswerAll(db, inputs, live, keys, expected);
  }

  /** `expected` lists the one-at-a-time answers. */
  ghost predicate Expected(db: Db, inputs: seq<QuoteInput>, expected: seq<Quote>) {
    && |expected| == |inputs|
    && forall i {:trigger QuoteOwnedStay(db, inputs[i])} :: 0 <= i < |inputs| ==>
        expected[i] == QuoteOwnedStay(db, inputs[i])
  }

  method AnswerAll(db: Db, inputs: seq<QuoteInput>, ghost live: seq<bool>, ghost keys: seq<string>,
      ghost expected: seq<Quote>)
    returns (quotes: seq<Quote>)
    requires PlanIdsUnique(db) && Classified(inputs, live, keys) && Expected(db, inputs, expected)
    ensures quotes == expected
  {
    var groups, results := GroupInputs(inputs, live, keys);
    forall j | j in results
      ensures results[j] == expected[j]
    {
      assert !HasNights(inputs[j]);
      assert expected[j] == QuoteOwnedStay(db, inputs[j]);
    }
    var todo := groups.Keys;
    while todo != {}
      invariant todo <= groups.Keys
      invariant Right(results, expected)
      invariant forall j :: 0 <= j < |inputs| && (!live[j] || keys[j] !in todo) ==> j in results
      decreases todo
    {
      var key :| key in todo;
      results := AnswerGroup(db, inputs, live, keys, expected, groups, key, results);
      todo := todo - {key};
    }
    quotes := [];
    for i := 0 to |inputs|
      invariant quotes == expected[..i]
    {
      quotes := quotes + [results[i]];
    }
  }

  lemma GroupShares(db: Db, input: QuoteInput, first: QuoteInput)
    requires HasNights(input) && HasNights(first) && GroupKey(input) == GroupKey(first)
    ensures input.roomTypeId == first.roomTypeId
    ensures ParseIso(first.checkIn).Some? && ParseIso(first.checkOut).Some?
    ensures ParseIso(first.checkIn).value < ParseIso(first.checkOut).value
    ensures QuoteOwnedStay(db, input)
        == QuoteDays(db, input, ParseIso(first.checkIn).value, ParseIso(first.checkOut).value)
  {
    DatesHaveNoSeparator(input.checkIn);
    DatesHaveNoSeparator(input.checkOut);
    DatesHaveNoSeparator(first.checkIn);
    DatesHaveNoSeparator(first.checkOut);
    GroupKeyInjective(input, first);
  }

  method AnswerGroup(
    db: Db, inputs: seq<QuoteInput>, ghost live: seq<bool>, ghost keys: seq<string>, ghost expected: seq<Quote>,
    groups: map<string, Group>, key: string, results: map<int, Quote>)
    returns (answered: map<int, Quote>)
    requires PlanIdsUnique(db) && Classified(inputs, live, keys) && Expected(db, inputs, expected)
    requires GroupsOk(inputs, live, keys, groups, |inputs|) && key in groups && Right(results, expected)
    ensures Right(answered, expected)
    ensures forall j :: j in results ==> j in answered
    ensures forall j :: 0 <= j < |inputs| && live[j] && keys[j] == key ==> j in answered
  {
    var group := groups[key];
    var first := group[0].1;
    ghost var at := group[0].0;
    assert HasNights(inputs[at]) && GroupKey(inputs[at]) == key;
    GroupShares(db, first, first);
    var from, to := ParseIso(first.checkIn).value, ParseIso(first.checkOut).value;
    forall i | 0 <= i < |group|
      ensures group[i].1.roomTypeId == first.roomTypeId
      ensures expected[group[i].0] == QuoteDays(db, group[i].1, from, to)
    {
      var j := group[i].0;
      assert HasNights(inputs[j]) && GroupKey(inputs[j]) == key;
      GroupShares(db, inputs[j], first);
      assert expected[j] == QuoteOwnedStay(db, inputs[j]);
    }
    var quotes := QuoteGroup(db, group, from, to);
    answered := RecordAnswers(group, quotes, expected, results);
    forall j | 0 <= j < |inputs| && live[j] && keys[j] == key
      ensures j in answered
    {
      var i :| 0 <= i < |group| && group[i] == (j, inputs[j]);
      assert group[i].0 in answered;
    }
  }

  method RecordAnswers(group: Group, quotes: seq<Quote>, ghost expected: seq<Quote>, results: map<int, Quote>)
    returns (answered: map<int, Quote>)
    requires |quotes| == |group| && Right(results, expected)
    requires forall i :: 0 <= i < |group| ==> group[i].0 < |expected| && quotes[i] == expected[group[i].0]
    ensures Right(answered, expected)
    ensures forall j :: j in results ==> j in answered
    ensures forall i :: 0 <= i < |group| ==> group[i].0 in answered
  {
    answered := results;
    for i := 0 to |group|
      invariant Right(answered, expected)
      invariant forall j :: j in results ==> j in answered
      invariant forall k :: 0 <= k < i ==> group[k].0 in answered
    {
      answered := answered[group[i].0 := quotes[i]];
    }
  }
}
