/**
 * Room-block allotments: block headers, per-night counters and the append-only pickup ledger.
 *
 * Each operation is a function from the tables before to the tables after. Valid is what the
 * tables promise in every reachable state; ApplyKeepsValid proves that every operation keeps it.
 */
module RoomBlocks {
  import opened Options
  import opened Calendar
  import opened Sums

  type BlockId = string
  type PickupId = string
  type StayItemId = string

  /** Upper bound of a Postgres `integer` column. */
  const INT4_MAX := 2147483647

  datatype BlockStatus = Inquiry | Held | Confirmed | Released | Cancelled | Expired

  predicate IsClosed(status: BlockStatus) {
    status in {Released, Cancelled, Expired}
  }

  datatype NightKey = NightKey(block: BlockId, date: Day)

  datatype Night = Night(held: int, picked: int, released: int) {
    function Remaining(): int {
      held - picked - released
    }
  }

  /** The two CHECK constraints of the nights table, and the width of its columns. */
  predicate CheckNight(n: Night) {
    && n.held >= 0 && n.picked >= 0 && n.released >= 0
    && n.picked + n.released <= n.held
    && n.held <= INT4_MAX
  }

  datatype PickupStatus = Active | Reversed

  datatype Pickup = Pickup(
    id: PickupId, block: BlockId, booking: Option<string>, stayItem: Option<StayItemId>,
    checkIn: Day, checkOut: Day, rooms: int, status: PickupStatus)

  type Nights = map<NightKey, Night>

  datatype Db = Db(blocks: map<BlockId, BlockStatus>, nights: Nights, pickups: seq<Pickup>)

  // ---------------------------------------------------------------- the ledger and its projection

  predicate Covers(p: Pickup, k: NightKey) {
    p.block == k.block && p.checkIn <= k.date < p.checkOut
  }

  /** The rooms a ledger row takes up on a night. */
  function Share(p: Pickup, k: NightKey): int {
    if p.status.Active? && Covers(p, k) then p.rooms else 0
  }

  /** The rooms that the active pickups of the ledger take up on a night. */
  function PickedOn(ledger: seq<Pickup>, k: NightKey): int {
    if ledger == [] then 0
    else PickedOn(ledger[..|ledger| - 1], k) + Share(ledger[|ledger| - 1], k)
  }

  ghost predicate UniqueIds(ledger: seq<Pickup>) {
    forall i, j :: 0 <= i < j < |ledger| ==> ledger[i].id != ledger[j].id
  }

  /** At most one active pickup per stay item, over all blocks. */
  ghost predicate UniqueActive(ledger: seq<Pickup>) {
    forall i, j :: 0 <= i < j < |ledger| && ledger[i].status.Active? && ledger[j].status.Active? ==>
      ledger[i].stayItem.None? || ledger[i].stayItem != ledger[j].stayItem
  }

  ghost predicate PickupRowOk(db: Db, p: Pickup) {
    && p.rooms > 0
    && p.checkIn < p.checkOut
    && p.block in db.blocks
    && forall d :: p.checkIn <= d < p.checkOut ==> NightKey(p.block, d) in db.nights
  }

  ghost predicate NightRowOk(db: Db, k: NightKey)
    requires k in db.nights
  {
    k.block in db.blocks && CheckNight(db.nights[k]) && db.nights[k].picked == PickedOn(db.pickups, k)
  }

  ghost predicate Valid(db: Db) {
    && (forall k :: k in db.nights ==> NightRowOk(db, k))
    && (forall i :: 0 <= i < |db.pickups| ==> PickupRowOk(db, db.pickups[i]))
    && UniqueIds(db.pickups)
    && UniqueActive(db.pickups)
  }

  lemma {:induction false} PickedOnUpdate(ledger: seq<Pickup>, i: nat, p: Pickup, k: NightKey)
    requires i < |ledger|
    ensures PickedOn(ledger[i := p], k) == PickedOn(ledger, k) - Share(ledger[i], k) + Share(p, k)
  {
    var n := |ledger| - 1;
    if i < n {
      PickedOnUpdate(ledger[..n], i, p, k);
      assert ledger[i := p][..n] == ledger[..n][i := p];
    } else {
      assert ledger[i := p][..n] == ledger[..n];
    }
  }

  lemma PickedOnAppend(ledger: seq<Pickup>, p: Pickup, k: NightKey)
    ensures PickedOn(ledger + [p], k) == PickedOn(ledger, k) + Share(p, k)
  {
    assert (ledger + [p])[..|ledger|] == ledger;
  }

  /** Why a reversal cannot underflow: the counter is a sum that includes the pickup's own share. */
  lemma {:induction false} ShareWithinPickedOn(ledger: seq<Pickup>, i: nat, k: NightKey)
    requires i < |ledger|
    requires forall j :: 0 <= j < |ledger| ==> ledger[j].rooms > 0
    ensures 0 <= Share(ledger[i], k) <= PickedOn(ledger, k)
  {
    var n := |ledger| - 1;
    PickedOnNonNegative(ledger[..n], k);
    if i < n {
      ShareWithinPickedOn(ledger[..n], i, k);
    }
  }

  lemma {:induction false} PickedOnNonNegative(ledger: seq<Pickup>, k: NightKey)
    requires forall j :: 0 <= j < |ledger| ==> ledger[j].rooms > 0
    ensures PickedOn(ledger, k) >= 0
  {
    if ledger != [] {
      PickedOnNonNegative(ledger[..|ledger| - 1], k);
    }
  }

  lemma {:induction false} NothingPickedOn(ledger: seq<Pickup>, k: NightKey)
    requires forall j :: 0 <= j < |ledger| ==> !Covers(ledger[j], k)
    ensures PickedOn(ledger, k) == 0
  {
    if ledger != [] {
      NothingPickedOn(ledger[..|ledger| - 1], k);
    }
  }

  /** Position of the first active row of a stay item. */
  function FindActive(ledger: seq<Pickup>, s: StayItemId): (at: Option<nat>)
    ensures at.Some? ==> at.value < |ledger|
                         && ledger[at.value].status.Active? && ledger[at.value].stayItem == Some(s)
    ensures at.None? ==> forall i :: 0 <= i < |ledger| && ledger[i].status.Active? ==> ledger[i].stayItem != Some(s)
  {
    if ledger == [] then None
    else
      var n := |ledger| - 1;
      var before := FindActive(ledger[..n], s);
      if before.Some? then before
      else if ledger[n].status.Active? && ledger[n].stayItem == Some(s) then Some(n)
      else None
  }

  /** Position of the row with an id, the primary key. */
  function FindId(ledger: seq<Pickup>, id: PickupId): (at: Option<nat>)
    ensures at.Some? ==> at.value < |ledger| && ledger[at.value].id == id
    ensures at.None? ==> forall i :: 0 <= i < |ledger| ==> ledger[i].id != id
  {
    if ledger == [] then None
    else
      var n := |ledger| - 1;
      var before := FindId(ledger[..n], id);
      if before.Some? then before
      else if ledger[n].id == id then Some(n)
      else None
  }

  // ---------------------------------------------------------------- setRoomBlockNights

  datatype NightInput = NightInput(date: Day, held: int)

  /**
   * One INSERT .. ON CONFLICT DO UPDATE over the rows in order. It is refused as a whole when a row
   * breaks a CHECK constraint or hits a night that this same statement already wrote.
   */
  function UpsertNights(nights: Nights, block: BlockId, rows: seq<NightInput>, written: set<Day>): Option<Nights>
    decreases |rows|
  {
    if rows == [] then Some(nights)
    else
      var k := NightKey(block, rows[0].date);
      var night := if k in nights then nights[k].(held := rows[0].held) else Night(rows[0].held, 0, 0);
      if rows[0].date in written || !CheckNight(night) then None
      else UpsertNights(nights[k := night], block, rows[1..], written + {rows[0].date})
  }

  /** Set the held rooms per night; the flag tells whether the database accepted the statement. */
  function SetNights(db: Db, block: BlockId, rows: seq<NightInput>): (Db, bool) {
    if rows == [] then (db, true)
    else
      var nights := UpsertNights(db.nights, block, rows, {});
      if block !in db.blocks || nights.None? then (db, false)
      else (db.(nights := nights.value), true)
  }

  // ---------------------------------------------------------------- pickupRoomBlock

  datatype PickupInput = PickupInput(
    block: BlockId, booking: Option<string>, stayItem: Option<StayItemId>,
    checkIn: string, checkOut: string, rooms: Option<int>)

  datatype PickupOutcome =
    | PickedUp(pickup: Pickup, idempotent: bool)
    | InvalidRange
    | PickupBlockNotFound
    | BlockNotActive
    | NightUnavailable(date: Day, remaining: int, needed: int)
    | PickupIdTaken

  /** The first night that is missing or has too few rooms left, with what is left there. */
  function FirstUnavailable(nights: Nights, block: BlockId, dates: seq<Day>, rooms: int): (at: Option<(Day, int)>)
    decreases |dates|
    ensures at.None? <==>
              forall i :: 0 <= i < |dates| ==> NightKey(block, dates[i]) in nights
                                               && nights[NightKey(block, dates[i])].Remaining() >= rooms
  {
    if dates == [] then None
    else
      var k := NightKey(block, dates[0]);
      var remaining := if k in nights then nights[k].Remaining() else 0;
      if k !in nights || remaining < rooms then
        Some((dates[0], remaining))
      else
        var at := FirstUnavailable(nights, block, dates[1..], rooms);
        assert forall i :: 1 <= i < |dates| ==> dates[i] == dates[1..][i - 1];
        at
  }

  /** A night that the capacity check accepts. */
  predicate HasRooms(nights: Nights, k: NightKey, rooms: int) {
    k in nights && nights[k].Remaining() >= rooms
  }

  /** The date reported is the first that fails the check, with the rooms left there, none if the night is missing. */
  lemma {:induction false} FirstUnavailableIs(nights: Nights, block: BlockId, dates: seq<Day>, rooms: int)
      returns (i: nat)
    requires FirstUnavailable(nights, block, dates, rooms).Some?
    ensures i < |dates| && !HasRooms(nights, NightKey(block, dates[i]), rooms)
    ensures forall j :: 0 <= j < i ==> HasRooms(nights, NightKey(block, dates[j]), rooms)
    ensures FirstUnavailable(nights, block, dates, rooms).value ==
            (dates[i], if NightKey(block, dates[i]) in nights then nights[NightKey(block, dates[i])].Remaining() else 0)
    decreases |dates|
  {
    if HasRooms(nights, NightKey(block, dates[0]), rooms) {
      var rest := FirstUnavailableIs(nights, block, dates[1..], rooms);
      i := rest + 1;
      assert forall j :: 1 <= j < |dates| ==> dates[j] == dates[1..][j - 1];
    } else {
      i := 0;
    }
  }

  /** Add `rooms` to the picked-up counter of every existing night of the block in the range. */
  function AddPicked(nights: Nights, block: BlockId, from: Day, to: Day, rooms: int): Nights {
    map k | k in nights ::
      if k.block == block && from <= k.date < to then nights[k].(picked := nights[k].picked + rooms) else nights[k]
  }

  /** The ledger row a request asks for, or None when its room count or its date range is empty. */
  function RequestedRow(id: PickupId, input: PickupInput): (row: Option<Pickup>)
    ensures row.Some? ==>
              && row.value.id == id && row.value.block == input.block && row.value.stayItem == input.stayItem
              && row.value.rooms == input.rooms.GetOr(1) > 0 && row.value.status.Active?
              && row.value.checkIn < row.value.checkOut
              && Days(row.value.checkIn, row.value.checkOut) == DateRange(input.checkIn, input.checkOut)
    ensures row.None? <==> input.rooms.GetOr(1) <= 0 || DateRange(input.checkIn, input.checkOut) == []
  {
    if input.rooms.GetOr(1) <= 0 || DateRange(input.checkIn, input.checkOut) == [] then None
    else
      Some(Pickup(id, input.block, input.booking, input.stayItem, ParseIso(input.checkIn).value,
                  ParseIso(input.checkOut).value, input.rooms.GetOr(1), Active))
  }

  /** The active pickup that a request for this stay item would be a repetition of. */
  function Existing(ledger: seq<Pickup>, stayItem: Option<StayItemId>): (at: Option<nat>)
    ensures at.Some? ==> at.value < |ledger| && ledger[at.value].status.Active?
                         && stayItem.Some? && ledger[at.value].stayItem == stayItem
  {
    if stayItem.Some? then FindActive(ledger, stayItem.value) else None
  }

  /** The transaction that records a requested row. */
  function PickupRow(db: Db, row: Pickup): (Db, PickupOutcome) {
    if row.block !in db.blocks then (db, PickupBlockNotFound)
    else if IsClosed(db.blocks[row.block]) then (db, BlockNotActive)
    else
      var existing := Existing(db.pickups, row.stayItem);
      if existing.Some? then (db, PickedUp(db.pickups[existing.value], true))
      else
        var short := FirstUnavailable(db.nights, row.block, Days(row.checkIn, row.checkOut), row.rooms);
        if short.Some? then (db, NightUnavailable(short.value.0, short.value.1, row.rooms))
        else if FindId(db.pickups, row.id).Some? then (db, PickupIdTaken)
        else
          (Db(db.blocks, AddPicked(db.nights, row.block, row.checkIn, row.checkOut, row.rooms), db.pickups + [row]),
           PickedUp(row, false))
  }

  /** Record a pickup. `id` is the id generated for the row that an accepted pickup inserts. */
  function PickupRoomBlock(db: Db, id: PickupId, input: PickupInput): (Db, PickupOutcome) {
    var row := RequestedRow(id, input);
    if row.None? then (db, InvalidRange) else PickupRow(db, row.value)
  }

  // ---------------------------------------------------------------- reverseRoomBlockPickup

  datatype ReversalInput = ReversalInput(
    block: Option<BlockId>, pickupId: Option<PickupId>, stayItem: Option<StayItemId>)

  datatype ReversalOutcome = Reversal(pickup: Pickup) | PickupNotFound

  /** The active ledger row a reversal request designates, if any. */
  function ReversalTarget(db: Db, input: ReversalInput): (at: Option<nat>)
    ensures at.Some? ==> at.value < |db.pickups| && db.pickups[at.value].status.Active?
  {
    var found :=
      if input.pickupId.Some? then FindId(db.pickups, input.pickupId.value)
      else if input.stayItem.Some? then FindActive(db.pickups, input.stayItem.value)
      else None;
    if found.None? || db.pickups[found.value].status.Reversed? then None
    else if input.block.Some? && db.pickups[found.value].block != input.block.value then None
    else found
  }

  /** The request asks for this row, and does not scope it to another block. */
  predicate Designates(input: ReversalInput, p: Pickup) {
    && (if input.pickupId.Some? then p.id == input.pickupId.value
        else input.stayItem.Some? && p.stayItem == input.stayItem)
    && (input.block.Some? ==> p.block == input.block.value)
  }

  /** A reversal finds a row exactly when an active one is asked for, and then that one. */
  lemma ReversalTargetIs(db: Db, input: ReversalInput, i: nat)
    requires UniqueIds(db.pickups) && UniqueActive(db.pickups)
    ensures ReversalTarget(db, input) == Some(i) <==>
            i < |db.pickups| && db.pickups[i].status.Active? && Designates(input, db.pickups[i])
  {
  }

  function ReverseAt(db: Db, i: nat): Db
    requires i < |db.pickups|
  {
    var p := db.pickups[i];
    Db(db.blocks, AddPicked(db.nights, p.block, p.checkIn, p.checkOut, -p.rooms),
       db.pickups[i := p.(status := Reversed)])
  }

  function ReversePickup(db: Db, input: ReversalInput): (Db, ReversalOutcome) {
    var at := ReversalTarget(db, input);
    if at.None? then (db, PickupNotFound)
    else (ReverseAt(db, at.value), Reversal(db.pickups[at.value].(status := Reversed)))
  }

  // ---------------------------------------------------------------- releaseRoomBlockAtCutoff

  datatype CutoffOutcome = CutOff(releasedRooms: int, status: BlockStatus) | CutoffBlockNotFound

  function NightDates(nights: Nights, block: BlockId): set<Day> {
    set k | k in nights && k.block == block :: k.date
  }

  /** What a cutoff hands back on one night: whatever is left, and nothing when nothing is. */
  function Unpicked(nights: Nights, block: BlockId, d: Day): int {
    var k := NightKey(block, d);
    if k in nights && nights[k].Remaining() > 0 then nights[k].Remaining() else 0
  }

  function ReleaseNights(nights: Nights, block: BlockId, dates: set<Day>): Nights {
    map k | k in nights ::
      if k.block == block && k.date in dates
      then nights[k].(released := nights[k].released + Unpicked(nights, block, k.date)) else nights[k]
  }

  function UnpickedBy(nights: Nights, block: BlockId): int -> int {
    d => Unpicked(nights, block, d)
  }

  ghost function ReleasedRooms(nights: Nights, block: BlockId, dates: set<Day>): int {
    Sum(dates, UnpickedBy(nights, block))
  }

  /** Cutoff: every night of the block hands back what is left there. */
  ghost function ReleaseBlock(db: Db, block: BlockId): (Db, CutoffOutcome) {
    if block !in db.blocks then (db, CutoffBlockNotFound)
    else
      var dates := NightDates(db.nights, block);
      (Db(db.blocks[block := Released], ReleaseNights(db.nights, block, dates), db.pickups),
       CutOff(ReleasedRooms(db.nights, block, dates), Released))
  }

  // ---------------------------------------------------------------- all operations

  datatype Op =
    | SetNightsOp(block: BlockId, rows: seq<NightInput>)
    | PickupOp(id: PickupId, pickup: PickupInput)
    | ReverseOp(reversal: ReversalInput)
    | ReleaseOp(block: BlockId)

  ghost function Apply(db: Db, op: Op): Db {
    match op
    case SetNightsOp(block, rows) => SetNights(db, block, rows).0
    case PickupOp(id, input) => PickupRoomBlock(db, id, input).0
    case ReverseOp(input) => ReversePickup(db, input).0
    case ReleaseOp(block) => ReleaseBlock(db, block).0
  }

  ghost function Run(db: Db, ops: seq<Op>): Db
    decreases |ops|
  {
    if ops == [] then db else Run(Apply(db, ops[0]), ops[1..])
  }

  /** Before any nights are set: some block headers, no nights, an empty ledger. */
  predicate Initial(db: Db) {
    db.nights == map[] && db.pickups == []
  }

  // ---------------------------------------------------------------- what every operation keeps

  /**
   * What an accepted upsert does, night by night: the listed nights get their held rooms, new ones
   * start with zero counters, and nothing else changes. It is accepted exactly when no date is
   * listed twice and every held count is in range and covers what that night has already used.
   */
  ghost predicate UpsertAcceptable(nights: Nights, block: BlockId, rows: seq<NightInput>, written: set<Day>) {
    && (forall i, j :: 0 <= i < j < |rows| ==> rows[i].date != rows[j].date)
    && (forall i :: 0 <= i < |rows| ==> rows[i].date !in written && 0 <= rows[i].held <= INT4_MAX)
    && (forall i :: 0 <= i < |rows| && NightKey(block, rows[i].date) in nights ==>
          nights[NightKey(block, rows[i].date)].picked + nights[NightKey(block, rows[i].date)].released <= rows[i].held)
  }

  lemma {:induction false} UpsertAccepted(nights: Nights, block: BlockId, rows: seq<NightInput>, written: set<Day>)
    requires forall k :: k in nights ==> CheckNight(nights[k])
    ensures UpsertNights(nights, block, rows, written).Some? <==> UpsertAcceptable(nights, block, rows, written)
    decreases |rows|
  {
    if rows != [] {
      var row, rest := rows[0], rows[1..];
      var k := NightKey(block, row.date);
      var night := if k in nights then nights[k].(held := row.held) else Night(row.held, 0, 0);
      if row.date !in written && CheckNight(night) {
        UpsertAccepted(nights[k := night], block, rest, written + {row.date});
        assert forall i :: 1 <= i < |rows| ==> rows[i] == rest[i - 1];
        if UpsertAcceptable(nights[k := night], block, rest, written + {row.date}) {
          assert forall i :: 0 <= i < |rest| ==> rest[i].date != row.date;
        }
        if UpsertAcceptable(nights, block, rows, written) {
          assert forall i :: 0 <= i < |rest| ==> rest[i].date != row.date && rest[i] == rows[i + 1];
        }
      } else {
        assert !UpsertAcceptable(nights, block, rows, written);
      }
    }
  }

  lemma {:induction false} UpsertDomain(nights: Nights, block: BlockId, rows: seq<NightInput>, written: set<Day>)
    requires UpsertNights(nights, block, rows, written).Some?
    ensures forall k :: k in UpsertNights(nights, block, rows, written).value <==>
                        k in nights || (k.block == block && exists i :: 0 <= i < |rows| && rows[i].date == k.date)
    decreases |rows|
  {
    if rows != [] {
      var row, rest := rows[0], rows[1..];
      var k := NightKey(block, row.date);
      var night := if k in nights then nights[k].(held := row.held) else Night(row.held, 0, 0);
      UpsertDomain(nights[k := night], block, rest, written + {row.date});
      var after := UpsertNights(nights, block, rows, written).value;
      forall x: NightKey
        ensures x in after <==>
            x in nights || (x.block == block && exists i :: 0 <= i < |rows| && rows[i].date == x.date)
      {
        if x.block == block && exists i :: 0 <= i < |rest| && rest[i].date == x.date {
          var i :| 0 <= i < |rest| && rest[i].date == x.date;
          assert rows[i + 1].date == x.date;
        }
        if x.block == block && exists i :: 0 <= i < |rows| && rows[i].date == x.date {
          var i :| 0 <= i < |rows| && rows[i].date == x.date;
          assert i > 0 ==> rest[i - 1].date == x.date;
        }
      }
    }
  }

  lemma {:induction false} UpsertEffect(nights: Nights, block: BlockId, rows: seq<NightInput>, written: set<Day>)
    requires UpsertNights(nights, block, rows, written).Some?
    ensures var after := UpsertNights(nights, block, rows, written).value;
            && (forall k :: k in after <==>
                k in nights || (k.block == block && exists i :: 0 <= i < |rows| && rows[i].date == k.date))
            && (forall k :: k in after && k.block == block && k.date in written ==>
                k in nights && after[k] == nights[k])
            && (forall k ::
                  k in nights && (k.block != block || forall i :: 0 <= i < |rows| ==> rows[i].date != k.date) ==>
                    after[k] == nights[k])
            && (forall i :: 0 <= i < |rows| ==>
                  var k := NightKey(block, rows[i].date);
                  k in after && CheckNight(after[k])
                  && after[k] == if k in nights then nights[k].(held := rows[i].held) else Night(rows[i].held, 0, 0))
    decreases |rows|
  {
    if rows != [] {
      var row, rest := rows[0], rows[1..];
      var k := NightKey(block, row.date);
      var night := if k in nights then nights[k].(held := row.held) else Night(row.held, 0, 0);
      var mid := nights[k := night];
      UpsertEffect(mid, block, rest, written + {row.date});
      var after := UpsertNights(nights, block, rows, written).value;
      assert k in after && after[k] == night;
      forall i | 0 < i < |rows|
        ensures var ki := NightKey(block, rows[i].date);
                ki in after && CheckNight(after[ki])
                && after[ki] == if ki in nights then nights[ki].(held := rows[i].held) else Night(rows[i].held, 0, 0)
      {
        assert rest[i - 1] == rows[i];
        if rows[i].date == row.date {
          assert after[k] == mid[k];
        }
      }
      forall x | x in nights && (x.block != block || forall i :: 0 <= i < |rows| ==> rows[i].date != x.date)
        ensures after[x] == nights[x]
      {
        assert rows[0].date == row.date;
        assert forall i :: 0 <= i < |rest| ==> rest[i] == rows[i + 1];
      }
    }
    UpsertDomain(nights, block, rows, written);
  }

  lemma SetNightsKeepsValid(db: Db, block: BlockId, rows: seq<NightInput>)
    requires Valid(db)
    ensures Valid(SetNights(db, block, rows).0)
  {
    var db' := SetNights(db, block, rows).0;
    if db' != db {
      UpsertEffect(db.nights, block, rows, {});
      forall k | k in db'.nights
        ensures NightRowOk(db', k)
      {
        if k in db.nights {
          assert NightRowOk(db, k);
          if k.block == block && exists i :: 0 <= i < |rows| && rows[i].date == k.date {
            var i :| 0 <= i < |rows| && rows[i].date == k.date;
            assert NightKey(block, rows[i].date) == k;
          }
        } else {
          var i :| 0 <= i < |rows| && rows[i].date == k.date;
          assert NightKey(block, rows[i].date) == k;
          NothingPickedOn(db.pickups, k);
        }
      }
      forall i | 0 <= i < |db'.pickups|
        ensures PickupRowOk(db', db'.pickups[i])
      {
        assert PickupRowOk(db, db.pickups[i]);
      }
    }
  }

  /** When the transaction records a new row: judged on the tables before it. */
  ghost predicate Acceptable(db: Db, row: Pickup) {
    && row.block in db.blocks && !IsClosed(db.blocks[row.block])
    && Existing(db.pickups, row.stayItem).None?
    && FindId(db.pickups, row.id).None?
    && forall d :: row.checkIn <= d < row.checkOut ==>
         NightKey(row.block, d) in db.nights && db.nights[NightKey(row.block, d)].Remaining() >= row.rooms
  }

  predicate IsFresh(outcome: PickupOutcome) {
    outcome.PickedUp? && !outcome.idempotent
  }

  function Recorded(db: Db, row: Pickup): Db {
    Db(db.blocks, AddPicked(db.nights, row.block, row.checkIn, row.checkOut, row.rooms), db.pickups + [row])
  }

  /** A pickup records its row exactly when the row is acceptable; otherwise it changes nothing. */
  lemma PickupRowAccepted(db: Db, row: Pickup)
    requires row.checkIn < row.checkOut
    ensures IsFresh(PickupRow(db, row).1) <==> Acceptable(db, row)
    ensures PickupRow(db, row).0 == (if Acceptable(db, row) then Recorded(db, row) else db)
    ensures Acceptable(db, row) ==> PickupRow(db, row).1 == PickedUp(row, false)
  {
    var dates := Days(row.checkIn, row.checkOut);
    if FirstUnavailable(db.nights, row.block, dates, row.rooms).None? {
      forall d | row.checkIn <= d < row.checkOut
        ensures NightKey(row.block, d) in db.nights && db.nights[NightKey(row.block, d)].Remaining() >= row.rooms
      {
        assert dates[d - row.checkIn] == d;
      }
    }
  }

  lemma RecordedKeepsValid(db: Db, row: Pickup)
    requires Valid(db) && Acceptable(db, row)
    requires row.rooms > 0 && row.checkIn < row.checkOut && row.status.Active?
    ensures Valid(Recorded(db, row))
  {
    var db' := Recorded(db, row);
    assert db'.nights.Keys == db.nights.Keys;
    assert PickupRowOk(db', row);
    forall k | k in db'.nights
      ensures NightRowOk(db', k)
    {
      assert NightRowOk(db, k);
      PickedOnAppend(db.pickups, row, k);
      assert NightKey(k.block, k.date) == k;
    }
    forall i | 0 <= i < |db'.pickups|
      ensures PickupRowOk(db', db'.pickups[i])
    {
      if i < |db.pickups| {
        assert PickupRowOk(db, db.pickups[i]);
      }
    }
  }

  lemma PickupKeepsValid(db: Db, id: PickupId, input: PickupInput)
    requires Valid(db)
    ensures Valid(PickupRoomBlock(db, id, input).0)
  {
    var row := RequestedRow(id, input);
    if row.Some? {
      PickupRowAccepted(db, row.value);
      if Acceptable(db, row.value) {
        RecordedKeepsValid(db, row.value);
      }
    }
  }

  lemma ReverseKeepsValid(db: Db, input: ReversalInput)
    requires Valid(db)
    ensures Valid(ReversePickup(db, input).0)
  {
    var at := ReversalTarget(db, input);
    if at.Some? {
      var i, db' := at.value, ReversePickup(db, input).0;
      var p := db.pickups[i];
      assert PickupRowOk(db, p);
      assert forall j :: 0 <= j < |db.pickups| ==> PickupRowOk(db, db.pickups[j]);
      forall k | k in db'.nights
        ensures NightRowOk(db', k)
      {
        assert NightRowOk(db, k);
        PickedOnUpdate(db.pickups, i, p.(status := Reversed), k);
        ShareWithinPickedOn(db.pickups, i, k);
      }
      forall j | 0 <= j < |db'.pickups|
        ensures PickupRowOk(db', db'.pickups[j])
      {
        assert PickupRowOk(db, db.pickups[j]);
      }
    }
  }

  lemma ReleaseKeepsValid(db: Db, block: BlockId)
    requires Valid(db)
    ensures Valid(ReleaseBlock(db, block).0)
  {
    var db' := ReleaseBlock(db, block).0;
    forall k | k in db'.nights
      ensures NightRowOk(db', k)
    {
      assert NightRowOk(db, k);
      assert NightKey(k.block, k.date) == k;
    }
    forall i | 0 <= i < |db'.pickups|
      ensures PickupRowOk(db', db'.pickups[i])
    {
      assert PickupRowOk(db, db.pickups[i]);
    }
  }

  lemma ApplyKeepsValid(db: Db, op: Op)
    requires Valid(db)
    ensures Valid(Apply(db, op))
  {
    match op
    case SetNightsOp(block, rows) => SetNightsKeepsValid(db, block, rows);
    case PickupOp(id, input) => PickupKeepsValid(db, id, input);
    case ReverseOp(input) => ReverseKeepsValid(db, input);
    case ReleaseOp(block) => ReleaseKeepsValid(db, block);
  }

  /** Every state of every run satisfies Valid: counters equal the ledger, and no night is oversold. */
  lemma {:induction false} RunKeepsValid(db: Db, ops: seq<Op>)
    requires Valid(db)
    ensures Valid(Run(db, ops))
    decreases |ops|
  {
    if ops != [] {
      ApplyKeepsValid(db, ops[0]);
      RunKeepsValid(Apply(db, ops[0]), ops[1..]);
    }
  }

  lemma ReachableIsValid(db: Db, ops: seq<Op>)
    requires Initial(db)
    ensures Valid(Run(db, ops))
  {
    RunKeepsValid(db, ops);
  }
}
