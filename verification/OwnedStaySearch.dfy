/** Searching owned stays: which room and plan pairs match, their order by price, and paging by cursor. */
module OwnedStaySearch {
  import opened Options
  import opened OwnedStays
  import opened OwnedStayTables
  import Decimal

  // ---------------------------------------------------------------- matches

  datatype Match = Match(roomTypeId: string, ratePlanId: string, totalAmountCents: int, currency: string)

  /** Room ids each plan is mapped to; a plan without an entry goes with every room of its property. */
  type Mappings = map<string, set<string>>

  predicate GoesWith(room: Room, plan: Plan, mappings: Mappings) {
    plan.propertyId == room.propertyId && (plan.id in mappings ==> room.id in mappings[plan.id])
  }

  /** The match a pair makes: its quote, when there is one and the rooms are available. */
  function PairMatch(db: Db, request: QuoteInput, room: Room, plan: Plan, mappings: Mappings): Option<Match> {
    var quote := QuoteOwnedStay(db, request.(roomTypeId := room.id, ratePlanId := plan.id));
    if GoesWith(room, plan, mappings) && quote.Quoted? && quote.available
    then Some(Match(room.id, plan.id, quote.totalAmountCents, quote.currency)) else None
  }

  ghost predicate Distinct(rooms: seq<Room>, plans: seq<Plan>) {
    && (forall i, j :: 0 <= i < j < |rooms| ==> rooms[i].id != rooms[j].id)
    && (forall i, j :: 0 <= i < j < |plans| ==> plans[i].id != plans[j].id)
  }

  /** The pairs a search has been through: the rooms before `i`, and room `i` with the plans before `j`. */
  predicate Seen(i: nat, j: nat, x: nat, y: nat) {
    x < i || (x == i && y < j)
  }

  /** What each pair of positions contributes. */
  type Grid = (nat, nat) -> Option<Match>

  ghost predicate Injective(grid: Grid) {
    forall x: nat, y: nat, x': nat, y': nat :: grid(x, y).Some? && grid(x, y) == grid(x', y') ==> x == x' && y == y'
  }

  /** `matches` holds exactly the matches of the pairs seen so far, each once. */
  ghost predicate Collected(grid: Grid, matches: seq<Match>, i: nat, j: nat) {
    && (forall m :: m in matches ==> exists x, y :: Seen(i, j, x, y) && grid(x, y) == Some(m))
    && (forall x, y :: Seen(i, j, x, y) && grid(x, y).Some? ==> grid(x, y).value in matches)
    && (forall a, b :: 0 <= a < b < |matches| ==> matches[a] != matches[b])
  }

  /** The matches of room `x` with the first `width` plans, in the order of the plans. */
  ghost function RowInOrder(grid: Grid, x: nat, width: nat): seq<Match> {
    if width == 0 then []
    else RowInOrder(grid, x, width - 1) + if grid(x, width - 1).Some? then [grid(x, width - 1).value] else []
  }

  /** The matches of the first `n` rooms, room by room. */
  ghost function InOrder(grid: Grid, n: nat, width: nat): seq<Match> {
    if n == 0 then [] else InOrder(grid, n - 1, width) + RowInOrder(grid, n - 1, width)
  }

  ghost function PairGrid(db: Db, request: QuoteInput, rooms: seq<Room>, plans: seq<Plan>, mappings: Mappings): Grid {
    (x: nat, y: nat) => if x < |rooms|
        && y < |plans| then PairMatch(db, request, rooms[x], plans[y], mappings) else None
  }

  /** Different pairs make different matches, because ids are unique. */
  lemma PairGridInjective(db: Db, request: QuoteInput, rooms: seq<Room>, plans: seq<Plan>, mappings: Mappings)
    requires Distinct(rooms, plans)
    ensures Injective(PairGrid(db, request, rooms, plans, mappings))
  {
    var grid := PairGrid(db, request, rooms, plans, mappings);
    forall x: nat, y: nat, x': nat, y': nat | grid(x, y).Some? && grid(x, y) == grid(x', y')
      ensures x == x' && y == y'
    {
      assert grid(x, y).value.roomTypeId == rooms[x].id && grid(x, y).value.ratePlanId == plans[y].id;
      assert grid(x', y').value.roomTypeId == rooms[x'].id && grid(x', y').value.ratePlanId == plans[y'].id;
    }
  }

  /**
   * The double loop over rooms and plans. Its list holds the match of every pair that goes together
   * and is quoted as available, each exactly once, and nothing else, room by room and plan by plan.
   */
  method CollectMatches(db: Db, request: QuoteInput, rooms: seq<Room>, plans: seq<Plan>, mappings: Mappings)
    returns (matches: seq<Match>)
    requires Distinct(rooms, plans)
    ensures Collected(PairGrid(db, request, rooms, plans, mappings), matches, |rooms|, 0)
    ensures matches == InOrder(PairGrid(db, request, rooms, plans, mappings), |rooms|, |plans|)
  {
    matches := [];
    ghost var grid := PairGrid(db, request, rooms, plans, mappings);
    for i := 0 to |rooms|
      invariant matches == InOrder(grid, i, |plans|)
    {
      var row := CollectRow(db, request, rooms, plans, mappings, i, grid);
      matches := matches + row;
    }
    PairGridInjective(db, request, rooms, plans, mappings);
    InOrderCollects(grid, |rooms|, |plans|);
  }

  /** The inner loop: one room with every plan. */
  method CollectRow(
    db: Db, request: QuoteInput, rooms: seq<Room>, plans: seq<Plan>, mappings: Mappings, i: nat, ghost grid: Grid)
    returns (row: seq<Match>)
    requires i < |rooms| && grid == PairGrid(db, request, rooms, plans, mappings)
    ensures row == RowInOrder(grid, i, |plans|)
  {
    row := [];
    for j := 0 to |plans|
      invariant row == RowInOrder(grid, i, j)
    {
      var pair := PairMatch(db, request, rooms[i], plans[j], mappings);
      assert grid(i, j) == pair;
      if pair.Some? {
        row := row + [pair.value];
      }
    }
  }

  lemma {:induction false} RowCollects(grid: Grid, matches: seq<Match>, i: nat, width: nat)
    requires Injective(grid) && Collected(grid, matches, i, 0)
    ensures Collected(grid, matches + RowInOrder(grid, i, width), i, width)
  {
    if width == 0 {
      assert matches + [] == matches;
    } else {
      RowCollects(grid, matches, i, width - 1);
      var row := RowInOrder(grid, i, width - 1);
      CollectNext(grid, matches + row, i, width - 1);
      var last := if grid(i, width - 1).Some? then [grid(i, width - 1).value] else [];
      assert matches + row + last == matches + (row + last);
    }
  }

  lemma OneMoreRoom(grid: Grid, matches: seq<Match>, i: nat, width: nat)
    requires Injective(grid) && Collected(grid, matches, i, 0) && forall y: nat :: y >= width ==> grid(i, y).None?
    ensures Collected(grid, matches + RowInOrder(grid, i, width), i + 1, 0)
  {
    RowCollects(grid, matches, i, width);
    NextRoom(grid, matches + RowInOrder(grid, i, width), i, width);
  }

  lemma {:induction false} InOrderCollects(grid: Grid, n: nat, width: nat)
    requires Injective(grid) && forall x: nat, y: nat :: y >= width ==> grid(x, y).None?
    ensures Collected(grid, InOrder(grid, n, width), n, 0)
  {
    if n > 0 {
      InOrderCollects(grid, n - 1, width);
      OneMoreRoom(grid, InOrder(grid, n - 1, width), n - 1, width);
    }
  }

  lemma CollectNext(grid: Grid, matches: seq<Match>, i: nat, j: nat)
    requires Injective(grid) && Collected(grid, matches, i, j)
    ensures Collected(grid, matches + (if grid(i, j).Some? then [grid(i, j).value] else []), i, j + 1)
  {
    var grown := matches + (if grid(i, j).Some? then [grid(i, j).value] else []);
    forall m | m in grown
      ensures exists x, y :: Seen(i, j + 1, x, y) && grid(x, y) == Some(m)
    {
      if m in matches {
        var x, y :| Seen(i, j, x, y) && grid(x, y) == Some(m);
        assert Seen(i, j + 1, x, y);
      } else {
        assert Seen(i, j + 1, i, j);
      }
    }
    forall x, y | Seen(i, j + 1, x, y) && grid(x, y).Some?
      ensures grid(x, y).value in grown
    {
      if Seen(i, j, x, y) {
        assert grid(x, y).value in matches;
      }
    }
    if grid(i, j).Some? {
      assert grid(i, j).value !in matches;
    }
  }

  lemma NextRoom(grid: Grid, matches: seq<Match>, i: nat, width: nat)
    requires Collected(grid, matches, i, width)
    requires forall y: nat :: y >= width ==> grid(i, y).None?
    ensures Collected(grid, matches, i + 1, 0)
  {
    forall m | m in matches
      ensures exists x, y :: Seen(i + 1, 0, x, y) && grid(x, y) == Some(m)
    {
      var x, y :| Seen(i, width, x, y) && grid(x, y) == Some(m);
      assert Seen(i + 1, 0, x, y);
    }
    forall x, y | Seen(i + 1, 0, x, y) && grid(x, y).Some?
      ensures grid(x, y).value in matches
    {
      assert Seen(i, width, x, y);
    }
  }

  // ---------------------------------------------------------------- order by price

  /** Insert behind everything that does not cost more. */
  function Insert(sorted: seq<Match>, m: Match): seq<Match> {
    if sorted == [] || sorted[|sorted| - 1].totalAmountCents <= m.totalAmountCents then sorted + [m]
    else Insert(sorted[..|sorted| - 1], m) + [sorted[|sorted| - 1]]
  }

  /** The stable sort by price. */
  function SortByPrice(matches: seq<Match>): seq<Match> {
    if matches == [] then [] else Insert(SortByPrice(matches[..|matches| - 1]), matches[|matches| - 1])
  }

  ghost predicate Sorted(matches: seq<Match>) {
    forall i, j :: 0 <= i < j < |matches| ==> matches[i].totalAmountCents <= matches[j].totalAmountCents
  }

  function Costs(cents: int): Match -> bool {
    (m: Match) => m.totalAmountCents == cents
  }

  lemma {:induction false} InsertKeeps(sorted: seq<Match>, m: Match)
    ensures multiset(Insert(sorted, m)) == multiset(sorted) + multiset{m}
  {
    var n := |sorted| - 1;
    if n >= 0 && sorted[n].totalAmountCents > m.totalAmountCents {
      InsertKeeps(sorted[..n], m);
      assert sorted == sorted[..n] + [sorted[n]];
    }
  }

  lemma {:induction false} InsertSorts(sorted: seq<Match>, m: Match)
    requires Sorted(sorted)
    ensures Sorted(Insert(sorted, m))
    ensures forall x :: x in Insert(sorted, m) ==> x == m || x in sorted
  {
    var n := |sorted| - 1;
    if n >= 0 && sorted[n].totalAmountCents > m.totalAmountCents {
      InsertSorts(sorted[..n], m);
      var inner := Insert(sorted[..n], m);
      forall i | 0 <= i < |inner|
        ensures inner[i].totalAmountCents <= sorted[n].totalAmountCents
      {
        assert inner[i] in inner;
      }
    }
  }

  lemma {:induction false} InsertIsStable(sorted: seq<Match>, m: Match, cents: int)
    requires Sorted(sorted)
    ensures Select(Insert(sorted, m), Costs(cents)) == Select(sorted, Costs(cents)) + if m.totalAmountCents == cents
        then [m] else []
  {
    var n := |sorted| - 1;
    if n >= 0 && sorted[n].totalAmountCents > m.totalAmountCents {
      var inner := Insert(sorted[..n], m);
      InsertIsStable(sorted[..n], m, cents);
      assert (inner + [sorted[n]])[..|inner|] == inner;
    } else {
      assert (sorted + [m])[..|sorted|] == sorted;
    }
  }

  lemma {:induction false} SortKeeps(matches: seq<Match>)
    ensures multiset(SortByPrice(matches)) == multiset(matches)
  {
    if matches != [] {
      var n := |matches| - 1;
      SortKeeps(matches[..n]);
      InsertKeeps(SortByPrice(matches[..n]), matches[n]);
      assert matches == matches[..n] + [matches[n]];
    }
  }

  lemma {:induction false} SortIsStable(matches: seq<Match>, cents: int)
    ensures Sorted(SortByPrice(matches))
    ensures Select(SortByPrice(matches), Costs(cents)) == Select(matches, Costs(cents))
  {
    if matches != [] {
      var n := |matches| - 1;
      SortIsStable(matches[..n], cents);
      InsertSorts(SortByPrice(matches[..n]), matches[n]);
      InsertIsStable(SortByPrice(matches[..n]), matches[n], cents);
    }
  }

  /** The result is sorted, holds the same matches, and keeps the order of those with one price. */
  lemma SortIsStableAndComplete(matches: seq<Match>, cents: int)
    ensures Sorted(SortByPrice(matches)) && multiset(SortByPrice(matches)) == multiset(matches)
    ensures Select(SortByPrice(matches), Costs(cents)) == Select(matches, Costs(cents))
  {
    SortKeeps(matches);
    SortIsStable(matches, cents);
  }

  // ---------------------------------------------------------------- cursors

  /** Largest integer that a double keeps apart from its neighbours. */
  const MAX_SAFE_INTEGER := 9007199254740991

  /** Largest length of an array in JavaScript. */
  const MAX_ARRAY_LENGTH := 4294967295

  const PREFIX := "owned:"

  function FormatCursor(offset: nat): string {
    PREFIX + Decimal.Print(offset)
  }

  /** The offset a cursor stands for; 0 for no cursor, for anything but digits, and past the safe range. */
  function ParseCursor(cursor: Option<string>): nat {
    if cursor.None? || cursor.value == "" then 0
    else
      var raw := if PREFIX <= cursor.value then cursor.value[|PREFIX|..] else cursor.value;
      if !Decimal.IsDigits(raw) then 0
      else
        var offset := Decimal.Value(raw);
        if offset <= MAX_SAFE_INTEGER then offset else 0
  }

  /** Parsing inverts printing exactly for the offsets in the safe range. */
  lemma CursorRoundTrip(offset: nat)
    ensures ParseCursor(Some(FormatCursor(offset))) == offset <==> offset <= MAX_SAFE_INTEGER
  {
    Decimal.ValueInvertsPrint(offset);
    var cursor := FormatCursor(offset);
    assert cursor[|PREFIX|..] == Decimal.Print(offset);
  }

  // ---------------------------------------------------------------- paging

  function PageSize(limit: Option<int>): (size: nat)
    ensures 1 <= size <= 100
  {
    Max(1, Min(limit.GetOr(50), 100))
  }

  datatype Page = Page(matches: seq<Match>, nextCursor: Option<string>)

  function PageFrom(sorted: seq<Match>, offset: nat, limit: Option<int>): Page {
    var end := offset + PageSize(limit);
    if end < |sorted| then Page(sorted[offset..end], Some(FormatCursor(end)))
    else Page(if offset < |sorted| then sorted[offset..] else [], None)
  }

  function PageAt(sorted: seq<Match>, cursor: Option<string>, limit: Option<int>): Page {
    PageFrom(sorted, ParseCursor(cursor), limit)
  }

  lemma NextCursorIs(end: nat)
    requires end < MAX_ARRAY_LENGTH
    ensures ParseCursor(Some(FormatCursor(end))) == end
  {
    CursorRoundTrip(end);
  }

  /** All pages from a cursor on, one after the other. */
  function FollowPages(sorted: seq<Match>, cursor: Option<string>, limit: Option<int>): seq<Match>
    requires |sorted| <= MAX_ARRAY_LENGTH
    decreases |sorted| - ParseCursor(cursor)
  {
    var page := PageAt(sorted, cursor, limit);
    if page.nextCursor.None? then page.matches
    else
      NextCursorIs(ParseCursor(cursor) + PageSize(limit));
      page.matches + FollowPages(sorted, page.nextCursor, limit)
  }

  /** The same pages by their offsets. */
  function PagesFrom(sorted: seq<Match>, offset: nat, limit: Option<int>): seq<Match>
    decreases |sorted| - offset
  {
    var end := offset + PageSize(limit);
    if end < |sorted| then sorted[offset..end] + PagesFrom(sorted, end, limit)
    else if offset < |sorted| then sorted[offset..] else []
  }

  lemma {:induction false} CursorsFollowOffsets(sorted: seq<Match>, cursor: Option<string>, limit: Option<int>,
      offset: nat)
    requires |sorted| <= MAX_ARRAY_LENGTH && ParseCursor(cursor) == offset
    ensures FollowPages(sorted, cursor, limit) == PagesFrom(sorted, offset, limit)
    decreases |sorted| - offset
  {
    var end := offset + PageSize(limit);
    if end < |sorted| {
      NextCursorIs(end);
      CursorsFollowOffsets(sorted, Some(FormatCursor(end)), limit, end);
    }
  }

  function Rest(sorted: seq<Match>, offset: nat): seq<Match> {
    if offset <= |sorted| then sorted[offset..] else []
  }

  lemma {:induction false} OffsetsCoverTheRest(sorted: seq<Match>, offset: nat, limit: Option<int>)
    ensures PagesFrom(sorted, offset, limit) == Rest(sorted, offset)
    decreases |sorted| - offset
  {
    var end := offset + PageSize(limit);
    if end < |sorted| {
      OffsetsCoverTheRest(sorted, end, limit);
      assert sorted[offset..] == sorted[offset..end] + sorted[end..];
    }
  }

  /** From any cursor, the pages that follow are the rest of the sorted list; past its end, nothing. */
  lemma PagesAreTheRest(sorted: seq<Match>, cursor: Option<string>, limit: Option<int>)
    requires |sorted| <= MAX_ARRAY_LENGTH
    ensures FollowPages(sorted, cursor, limit) == Rest(sorted, ParseCursor(cursor))
  {
    CursorsFollowOffsets(sorted, cursor, limit, ParseCursor(cursor));
    OffsetsCoverTheRest(sorted, ParseCursor(cursor), limit);
  }

  /**
   * Following the cursors from the first page, with any fixed limit, terminates and gives the whole
   * price-sorted list: every match exactly once.
   */
  lemma PagingIsComplete(matches: seq<Match>, limit: Option<int>)
    requires |matches| <= MAX_ARRAY_LENGTH
    ensures |SortByPrice(matches)| == |matches|
    ensures FollowPages(SortByPrice(matches), None, limit) == SortByPrice(matches)
    ensures multiset(FollowPages(SortByPrice(matches), None, limit)) == multiset(matches)
  {
    SortIsStableAndComplete(matches, 0);
    assert |SortByPrice(matches)| == |multiset(matches)|;
    PagesAreTheRest(SortByPrice(matches), None, limit);
  }
}
