/**
 * Properties of whole runs: the ledger only grows, a repeated request changes nothing, and a
 * reversal undoes its pickup exactly, whatever happened in between.
 */
module RoomBlockHistory {
  import opened Options
  import opened Calendar
  import opened RoomBlocks

  // ---------------------------------------------------------------- which requests succeed

  ghost predicate Succeeds(db: Db, op: Op) {
    match op
    case SetNightsOp(block, rows) => SetNights(db, block, rows).1
    case PickupOp(id, input) => PickupRoomBlock(db, id, input).1.PickedUp?
    case ReverseOp(input) => ReversePickup(db, input).1.Reversal?
    case ReleaseOp(block) => ReleaseBlock(db, block).1.CutOff?
  }

  ghost predicate AllSucceed(db: Db, ops: seq<Op>)
    decreases |ops|
  {
    ops == [] || (Succeeds(db, ops[0]) && AllSucceed(Apply(db, ops[0]), ops[1..]))
  }

  /** Running one more operation at the end. */
  lemma {:induction false} RunAppend(db: Db, ops: seq<Op>, op: Op)
    ensures Run(db, ops + [op]) == Apply(Run(db, ops), op)
    ensures AllSucceed(db, ops) && Succeeds(Run(db, ops), op) ==> AllSucceed(db, ops + [op])
    decreases |ops|
  {
    if ops == [] {
      assert [op][1..] == [] && ops + [op] == [op];
    } else {
      RunAppend(Apply(db, ops[0]), ops[1..], op);
      assert (ops + [op])[1..] == ops[1..] + [op];
    }
  }

  /** Exactly when the database accepts a set of nights, judged before the statement is sent. */
  lemma SetNightsAccepted(db: Db, block: BlockId, rows: seq<NightInput>)
    requires Valid(db)
    ensures SetNights(db, block, rows).1 <==>
            rows == [] || (block in db.blocks && UpsertAcceptable(db.nights, block, rows, {}))
    ensures !SetNights(db, block, rows).1 ==> SetNights(db, block, rows).0 == db
  {
    forall k | k in db.nights
      ensures CheckNight(db.nights[k])
    {
      assert NightRowOk(db, k);
    }
    UpsertAccepted(db.nights, block, rows, {});
  }

  // ---------------------------------------------------------------- ledger history

  /** A later version of a ledger row: unchanged, or reversed. */
  predicate LaterRow(p: Pickup, q: Pickup) {
    q == p || q == p.(status := Reversed)
  }

  ghost predicate LedgerGrows(before: seq<Pickup>, after: seq<Pickup>) {
    |before| <= |after| && forall i :: 0 <= i < |before| ==> LaterRow(before[i], after[i])
  }

  lemma LedgerStep(db: Db, op: Op)
    ensures LedgerGrows(db.pickups, Apply(db, op).pickups)
  {
    match op
    case SetNightsOp(block, rows) =>
      assert SetNights(db, block, rows).0.pickups == db.pickups;
    case PickupOp(id, input) =>
      var row := RequestedRow(id, input);
      if row.Some? {
        PickupLedger(db, row.value);
      }
    case ReverseOp(input) =>
    case ReleaseOp(_) =>
  }

  lemma PickupLedger(db: Db, row: Pickup)
    ensures PickupRow(db, row).0.pickups in {db.pickups, db.pickups + [row]}
  {
  }

  lemma LaterStill(a: seq<Pickup>, b: seq<Pickup>, c: seq<Pickup>)
    requires LedgerGrows(a, b) && LedgerGrows(b, c)
    ensures LedgerGrows(a, c)
  {
    forall i | 0 <= i < |a|
      ensures LaterRow(a[i], c[i])
    {
      assert LaterRow(a[i], b[i]) && LaterRow(b[i], c[i]);
    }
  }

  lemma {:induction false} LedgerHistory(db: Db, ops: seq<Op>)
    ensures LedgerGrows(db.pickups, Run(db, ops).pickups)
    decreases |ops|
  {
    if ops != [] {
      LedgerStep(db, ops[0]);
      LedgerHistory(Apply(db, ops[0]), ops[1..]);
      LaterStill(db.pickups, Apply(db, ops[0]).pickups, Run(db, ops).pickups);
    }
  }

  predicate IsOpen(db: Db, block: BlockId) {
    block in db.blocks && !IsClosed(db.blocks[block])
  }

  /**
   * At most one active pickup per stay item in every reachable state, and a later request for a stay
   * item whose pickup is still active returns that pickup exactly when the block it names is open.
   * Otherwise it is refused; either way nothing changes.
   */
  lemma ResentPickupIsIdle(db: Db, ops: seq<Op>, i: nat, id: PickupId, input: PickupInput)
    requires Valid(db) && i < |db.pickups| && db.pickups[i].stayItem.Some?
    requires i < |Run(db, ops).pickups| && Run(db, ops).pickups[i].status.Active?
    requires input.stayItem == db.pickups[i].stayItem
    requires input.rooms.GetOr(1) > 0 && DateRange(input.checkIn, input.checkOut) != []
    ensures var later := Run(db, ops);
            && PickupRoomBlock(later, id, input).0 == later
            && (PickupRoomBlock(later, id, input).1 == PickedUp(db.pickups[i], true) <==> IsOpen(later, input.block))
            && (input.block !in later.blocks ==> PickupRoomBlock(later, id, input).1 == PickupBlockNotFound)
            && (input.block in later.blocks && !IsOpen(later, input.block) ==>
                  PickupRoomBlock(later, id, input).1 == BlockNotActive)
  {
    RunKeepsValid(db, ops);
    LedgerHistory(db, ops);
    var ledger := Run(db, ops).pickups;
    var at := FindActive(ledger, input.stayItem.value);
    assert at.Some? && at.value == i;
  }

  // ---------------------------------------------------------------- replay of a reversal

  predicate ReplayMatches(p: Pickup, input: ReversalInput) {
    if input.pickupId.Some? then p.id == input.pickupId.value
    else input.stayItem.Some? && p.stayItem == input.stayItem
  }

  function ReplayJudgement(p: Pickup, input: ReversalInput): ReversalOutcome {
    if input.block == Some(p.block) && p.status.Reversed? then Reversal(p) else PickupNotFound
  }

  /**
   * The outcomes the replay reader can give. It takes one matching row, in no particular order, so
   * several outcomes are possible when several rows match.
   */
  ghost predicate ReplayMayReturn(db: Db, input: ReversalInput, outcome: ReversalOutcome) {
    if exists i :: 0 <= i < |db.pickups| && ReplayMatches(db.pickups[i], input) then
      exists i :: 0 <= i < |db.pickups| && ReplayMatches(db.pickups[i], input)
                  && outcome == ReplayJudgement(db.pickups[i], input)
    else outcome == PickupNotFound
  }

  lemma FindIdIsUnique(ledger: seq<Pickup>, i: nat)
    requires UniqueIds(ledger) && i < |ledger|
    ensures FindId(ledger, ledger[i].id) == Some(i)
  {
  }

  /**
   * After a reversal by pickup id, in every later state: the replay reader can only return that same
   * reversed row, and every further reversal request for the id finds nothing and changes nothing.
   */
  lemma ReversalIsFinal(db: Db, input: ReversalInput, ops: seq<Op>, again: ReversalInput, outcome: ReversalOutcome)
    requires Valid(db) && input.pickupId.Some? && input.block.Some?
    requires ReversePickup(db, input).1.Reversal?
    requires again.pickupId == input.pickupId
    ensures var later := Run(ReversePickup(db, input).0, ops);
            && (ReplayMayReturn(later, input, outcome) <==> outcome == ReversePickup(db, input).1)
            && ReversePickup(later, again) == (later, PickupNotFound)
  {
    var at := ReversalTarget(db, input).value;
    var mid := ReversePickup(db, input).0;
    ReverseKeepsValid(db, input);
    LedgerHistory(mid, ops);
    RunKeepsValid(mid, ops);
    var later := Run(mid, ops);
    assert LaterRow(mid.pickups[at], later.pickups[at]);
    FindIdIsUnique(later.pickups, at);
    assert ReplayMatches(later.pickups[at], input);
    forall i | 0 <= i < |later.pickups| && ReplayMatches(later.pickups[i], input)
      ensures i == at
    {
    }
  }

  /**
   * Asked by stay item instead, the reader ignores the status and may land on any row of the item.
   * It is sure to report a reversal exactly when the item has rows and all of them are reversed
   * pickups of the requested block.
   */
  lemma ReplayByStayItemIsSure(db: Db, block: BlockId, s: StayItemId)
    ensures var input := ReversalInput(Some(block), None, Some(s));
            (forall o :: ReplayMayReturn(db, input, o) ==> o.Reversal?) <==>
            && (exists i :: 0 <= i < |db.pickups| && db.pickups[i].stayItem == Some(s))
            && (forall i :: 0 <= i < |db.pickups| && db.pickups[i].stayItem == Some(s) ==>
                  db.pickups[i].status.Reversed? && db.pickups[i].block == block)
  {
    var input := ReversalInput(Some(block), None, Some(s));
    if exists i :: 0 <= i < |db.pickups| && db.pickups[i].stayItem == Some(s) {
      var w :| 0 <= w < |db.pickups| && db.pickups[w].stayItem == Some(s);
      assert ReplayMatches(db.pickups[w], input);
      forall i | 0 <= i < |db.pickups| && db.pickups[i].stayItem == Some(s)
        ensures ReplayMayReturn(db, input, ReplayJudgement(db.pickups[i], input))
      {
        assert ReplayMatches(db.pickups[i], input);
      }
    } else {
      assert forall i :: 0 <= i < |db.pickups| ==> !ReplayMatches(db.pickups[i], input);
      assert ReplayMayReturn(db, input, PickupNotFound);
    }
  }

  // ---------------------------------------------------------------- a reversal undoes its pickup

  function Without(ledger: seq<Pickup>, at: nat): seq<Pickup>
    requires at < |ledger|
  {
    ledger[..at] + ledger[at + 1..]
  }

  /**
   * `lean` is `full` with the ledger row at `at` taken out: the row's own share of every night is the
   * only other difference. Once that row is reversed its share is nothing, and the nights are equal.
   */
  ghost predicate Skips(full: Db, lean: Db, at: nat) {
    && at < |full.pickups|
    && lean.blocks == full.blocks
    && lean.pickups == Without(full.pickups, at)
    && lean.nights.Keys == full.nights.Keys
    && forall k :: k in full.nights ==>
         full.nights[k] == lean.nights[k].(picked := lean.nights[k].picked + Share(full.pickups[at], k))
  }

  /** The requests that have nothing to do with ledger row `q`. */
  predicate Avoids(op: Op, q: Pickup) {
    match op
    case SetNightsOp(_, _) => true
    case PickupOp(id, input) =>
      id != q.id && (q.status.Active? ==> input.stayItem.None? || input.stayItem != q.stayItem)
    case ReverseOp(input) =>
      q.status.Active? ==>
        input.pickupId != Some(q.id)
        && (input.pickupId.None? ==> input.stayItem.None? || input.stayItem != q.stayItem)
    case ReleaseOp(block) => q.status.Reversed? || block != q.block
  }

  lemma WithoutIndex(ledger: seq<Pickup>, at: nat)
    requires at < |ledger|
    ensures forall i :: 0 <= i < at ==> Without(ledger, at)[i] == ledger[i]
    ensures forall i :: at < i < |ledger| ==> Without(ledger, at)[i - 1] == ledger[i]
    ensures forall i :: at <= i < |ledger| - 1 ==> Without(ledger, at)[i] == ledger[i + 1]
  {
  }

  lemma WithoutAt(ledger: seq<Pickup>, at: nat, i: nat)
    requires at < |ledger| && i < |ledger| && i != at
    ensures var j := if i < at then i else i - 1;
            j < |Without(ledger, at)| && Without(ledger, at)[j] == ledger[i]
  {
  }

  lemma FindIdWithout(ledger: seq<Pickup>, at: nat, id: PickupId)
    requires at < |ledger| && UniqueIds(ledger) && UniqueIds(Without(ledger, at)) && id != ledger[at].id
    ensures var lean, full := FindId(Without(ledger, at), id), FindId(ledger, id);
            && (full.None? <==> lean.None?)
            && (full.Some? ==> full.value != at && lean.value == if full.value < at then full.value else full.value - 1)
  {
    var full, lean := FindId(ledger, id), Without(ledger, at);
    WithoutIndex(ledger, at);
    if full.Some? {
      var j := if full.value < at then full.value else full.value - 1;
      assert lean[j] == ledger[full.value];
      FindIdIsUnique(lean, j);
    }
  }

  lemma FindActiveWithout(ledger: seq<Pickup>, at: nat, s: StayItemId)
    requires at < |ledger| && UniqueActive(ledger) && UniqueActive(Without(ledger, at))
    requires ledger[at].status.Active? ==> ledger[at].stayItem != Some(s)
    ensures var lean, full := FindActive(Without(ledger, at), s), FindActive(ledger, s);
            && (full.None? <==> lean.None?)
            && (full.Some? ==> full.value != at && lean.value == if full.value < at then full.value else full.value - 1)
  {
    var full, lean := FindActive(ledger, s), Without(ledger, at);
    WithoutIndex(ledger, at);
    if full.Some? {
      var j := if full.value < at then full.value else full.value - 1;
      assert lean[j] == ledger[full.value];
      FindActiveIsUnique(lean, j, s);
    }
  }

  lemma FindActiveIsUnique(ledger: seq<Pickup>, i: nat, s: StayItemId)
    requires UniqueActive(ledger) && i < |ledger| && ledger[i].status.Active? && ledger[i].stayItem == Some(s)
    ensures FindActive(ledger, s) == Some(i)
  {
  }

  lemma AddPickedSkips(full: Nights, lean: Nights, q: Pickup, block: BlockId, from: Day, to: Day, rooms: int)
    requires full.Keys == lean.Keys
    requires forall k :: k in full ==> full[k] == lean[k].(picked := lean[k].picked + Share(q, k))
    ensures var full', lean' := AddPicked(full, block, from, to, rooms), AddPicked(lean, block, from, to, rooms);
            && full'.Keys == lean'.Keys
            && forall k :: k in full' ==> full'[k] == lean'[k].(picked := lean'[k].picked + Share(q, k))
  {
    var full', lean' := AddPicked(full, block, from, to, rooms), AddPicked(lean, block, from, to, rooms);
    assert full'.Keys == full.Keys && lean'.Keys == lean.Keys;
    forall k | k in full'
      ensures full'[k] == lean'[k].(picked := lean'[k].picked + Share(q, k))
    {
      assert k in full && k in lean;
    }
  }

  /** The row a repeated request would return is the same with and without the other row. */
  lemma ExistingSkips(full: Db, lean: Db, at: nat, stayItem: Option<StayItemId>)
    requires Valid(full) && Valid(lean) && Skips(full, lean, at)
    requires full.pickups[at].status.Active? ==> stayItem.None? || stayItem != full.pickups[at].stayItem
    ensures var i, j := Existing(full.pickups, stayItem), Existing(lean.pickups, stayItem);
            (i.None? <==> j.None?) && (i.Some? ==> full.pickups[i.value] == lean.pickups[j.value])
  {
    if stayItem.Some? {
      FindActiveWithout(full.pickups, at, stayItem.value);
      WithoutIndex(full.pickups, at);
    }
  }

  lemma AcceptableSkips(full: Db, lean: Db, at: nat, row: Pickup)
    requires Valid(full) && Valid(lean) && Skips(full, lean, at) && row.id != full.pickups[at].id
    requires full.pickups[at].status.Active? ==> row.stayItem.None? || row.stayItem != full.pickups[at].stayItem
    requires Acceptable(full, row)
    ensures Acceptable(lean, row)
  {
    ExistingSkips(full, lean, at, row.stayItem);
    FindIdWithout(full.pickups, at, row.id);
    assert PickupRowOk(full, full.pickups[at]);
    forall d | row.checkIn <= d < row.checkOut
      ensures NightKey(row.block, d) in lean.nights && lean.nights[NightKey(row.block, d)].Remaining() >= row.rooms
    {
      assert NightKey(row.block, d) in full.nights;
    }
  }

  lemma RecordedSkips(full: Db, lean: Db, at: nat, row: Pickup)
    requires Skips(full, lean, at)
    ensures Skips(Recorded(full, row), Recorded(lean, row), at)
  {
    AddPickedSkips(full.nights, lean.nights, full.pickups[at], row.block, row.checkIn, row.checkOut, row.rooms);
    assert Without(full.pickups + [row], at) == Without(full.pickups, at) + [row];
  }

  lemma PickupRowSkips(full: Db, lean: Db, at: nat, row: Pickup)
    requires Valid(full) && Valid(lean) && Skips(full, lean, at)
    requires row.id != full.pickups[at].id && row.checkIn < row.checkOut
    requires full.pickups[at].status.Active? ==> row.stayItem.None? || row.stayItem != full.pickups[at].stayItem
    requires PickupRow(full, row).1.PickedUp?
    ensures PickupRow(lean, row).1 == PickupRow(full, row).1
    ensures Skips(PickupRow(full, row).0, PickupRow(lean, row).0, at)
  {
    PickupRowAccepted(full, row);
    if Acceptable(full, row) {
      PickupRowAccepted(lean, row);
      AcceptableSkips(full, lean, at, row);
      RecordedSkips(full, lean, at, row);
    } else {
      ExistingSkips(full, lean, at, row.stayItem);
    }
  }

  /** Position `j` is where position `i` ends up once row `at` is taken out. */
  predicate Shifted(i: Option<nat>, j: Option<nat>, at: nat) {
    && (i.None? <==> j.None?)
    && (i.Some? ==> i.value != at && j.value == if i.value < at then i.value else i.value - 1)
  }

  lemma FindIdShifted(ledger: seq<Pickup>, at: nat, id: PickupId)
    requires at < |ledger| && UniqueIds(ledger) && UniqueIds(Without(ledger, at))
    ensures id != ledger[at].id ==> Shifted(FindId(ledger, id), FindId(Without(ledger, at), id), at)
    ensures id == ledger[at].id ==> FindId(ledger, id) == Some(at) && FindId(Without(ledger, at), id).None?
  {
    if id == ledger[at].id {
      WithoutIndex(ledger, at);
      FindIdIsUnique(ledger, at);
      var lean := Without(ledger, at);
      forall j | 0 <= j < |lean|
        ensures lean[j].id != id
      {
        assert lean[j] == ledger[if j < at then j else j + 1];
      }
    } else {
      FindIdWithout(ledger, at, id);
    }
  }

  lemma TargetById(full: Db, lean: Db, at: nat, input: ReversalInput)
    requires at < |full.pickups| && UniqueIds(full.pickups) && UniqueIds(lean.pickups)
    requires lean.pickups == Without(full.pickups, at) && input.pickupId.Some?
    requires full.pickups[at].status.Active? ==> input.pickupId != Some(full.pickups[at].id)
    ensures Shifted(ReversalTarget(full, input), ReversalTarget(lean, input), at)
  {
    FindIdShifted(full.pickups, at, input.pickupId.value);
    var found := FindId(full.pickups, input.pickupId.value);
    if found.Some? && found.value != at {
      WithoutAt(full.pickups, at, found.value);
    }
  }

  lemma TargetByStayItem(full: Db, lean: Db, at: nat, input: ReversalInput)
    requires at < |full.pickups| && UniqueActive(full.pickups) && UniqueActive(lean.pickups)
    requires lean.pickups == Without(full.pickups, at) && input.pickupId.None? && input.stayItem.Some?
    requires full.pickups[at].status.Active? ==> input.stayItem != full.pickups[at].stayItem
    ensures Shifted(ReversalTarget(full, input), ReversalTarget(lean, input), at)
  {
    FindActiveWithout(full.pickups, at, input.stayItem.value);
    var found := FindActive(full.pickups, input.stayItem.value);
    if found.Some? {
      WithoutAt(full.pickups, at, found.value);
    }
  }

  /** A reversal request designates the same row with and without the other row. */
  lemma TargetSkips(full: Db, lean: Db, at: nat, input: ReversalInput)
    requires Valid(full) && Valid(lean) && Skips(full, lean, at) && Avoids(ReverseOp(input), full.pickups[at])
    ensures Shifted(ReversalTarget(full, input), ReversalTarget(lean, input), at)
  {
    if input.pickupId.Some? {
      TargetById(full, lean, at, input);
    } else if input.stayItem.Some? {
      TargetByStayItem(full, lean, at, input);
    }
  }

  lemma ReverseAtSkips(full: Db, lean: Db, at: nat, i: nat)
    requires Skips(full, lean, at) && i < |full.pickups| && i != at
    ensures var j := if i < at then i else i - 1;
            && j < |lean.pickups| && lean.pickups[j] == full.pickups[i]
            && Skips(ReverseAt(full, i), ReverseAt(lean, j), at)
  {
    WithoutAt(full.pickups, at, i);
    var p := full.pickups[i];
    AddPickedSkips(full.nights, lean.nights, full.pickups[at], p.block, p.checkIn, p.checkOut, -p.rooms);
    WithoutUpdate(full.pickups, at, i, p.(status := Reversed));
  }

  lemma WithoutUpdate(ledger: seq<Pickup>, at: nat, i: nat, p: Pickup)
    requires at < |ledger| && i < |ledger| && i != at
    ensures Without(ledger[i := p], at) == Without(ledger, at)[(if i < at then i else i - 1) := p]
  {
  }

  lemma ReverseSkips(full: Db, lean: Db, at: nat, input: ReversalInput)
    requires Valid(full) && Valid(lean) && Skips(full, lean, at) && Avoids(ReverseOp(input), full.pickups[at])
    ensures ReversePickup(lean, input).1 == ReversePickup(full, input).1
    ensures Skips(ReversePickup(full, input).0, ReversePickup(lean, input).0, at)
    ensures ReversePickup(full, input).0.pickups[at] == full.pickups[at]
  {
    TargetSkips(full, lean, at, input);
    var target := ReversalTarget(full, input);
    if target.Some? {
      ReverseAtSkips(full, lean, at, target.value);
    }
  }

  ghost predicate NightsSkip(full: Nights, lean: Nights, q: Pickup) {
    && full.Keys == lean.Keys
    && forall k :: k in full ==> full[k] == lean[k].(picked := lean[k].picked + Share(q, k))
  }

  lemma LeanAcceptsNights(full: Nights, lean: Nights, q: Pickup, block: BlockId, rows: seq<NightInput>)
    requires NightsSkip(full, lean, q) && q.rooms > 0 && UpsertAcceptable(full, block, rows, {})
    ensures UpsertAcceptable(lean, block, rows, {})
  {
    forall i | 0 <= i < |rows| && NightKey(block, rows[i].date) in lean
      ensures lean[NightKey(block, rows[i].date)].picked + lean[NightKey(block, rows[i].date)].released <= rows[i].held
    {
      assert NightKey(block, rows[i].date) in full;
    }
  }

  lemma UpsertSkipsAt(full: Nights, lean: Nights, q: Pickup, block: BlockId, rows: seq<NightInput>, k: NightKey)
    requires NightsSkip(full, lean, q) && (Share(q, k) != 0 ==> k in full)
    requires UpsertNights(full, block, rows, {}).Some? && UpsertNights(lean, block, rows, {}).Some?
    ensures var full', lean' := UpsertNights(full, block, rows, {}).value, UpsertNights(lean, block, rows, {}).value;
            && (k in full' <==> k in lean')
            && (k in full' ==> full'[k] == lean'[k].(picked := lean'[k].picked + Share(q, k)))
  {
    UpsertEffect(full, block, rows, {});
    UpsertEffect(lean, block, rows, {});
    if k.block == block && exists i :: 0 <= i < |rows| && rows[i].date == k.date {
      var i :| 0 <= i < |rows| && rows[i].date == k.date;
      assert NightKey(block, rows[i].date) == k;
    }
  }

  lemma UpsertSkips(full: Nights, lean: Nights, q: Pickup, block: BlockId, rows: seq<NightInput>)
    requires NightsSkip(full, lean, q) && forall k :: Share(q, k) != 0 ==> k in full
    requires UpsertNights(full, block, rows, {}).Some? && UpsertNights(lean, block, rows, {}).Some?
    ensures NightsSkip(UpsertNights(full, block, rows, {}).value, UpsertNights(lean, block, rows, {}).value, q)
  {
    forall k {
      UpsertSkipsAt(full, lean, q, block, rows, k);
    }
  }

  lemma SharesHaveNights(db: Db, q: Pickup)
    requires PickupRowOk(db, q)
    ensures forall k :: Share(q, k) != 0 ==> k in db.nights
  {
    forall k | Share(q, k) != 0
      ensures k in db.nights
    {
      assert NightKey(q.block, k.date) == k;
    }
  }

  lemma SetNightsSkips(full: Db, lean: Db, at: nat, block: BlockId, rows: seq<NightInput>)
    requires Valid(full) && Valid(lean) && Skips(full, lean, at)
    requires SetNights(full, block, rows).1
    ensures SetNights(lean, block, rows).1
    ensures Skips(SetNights(full, block, rows).0, SetNights(lean, block, rows).0, at)
  {
    var q := full.pickups[at];
    SetNightsAccepted(full, block, rows);
    SetNightsAccepted(lean, block, rows);
    if rows != [] {
      LeanAcceptsNights(full.nights, lean.nights, q, block, rows);
      SharesHaveNights(full, q);
      UpsertSkips(full.nights, lean.nights, q, block, rows);
    }
  }

  /** A cutoff of a block whose nights are the same on both sides, or of one the row has no part in. */
  lemma ReleaseSkips(full: Db, lean: Db, at: nat, block: BlockId)
    requires Skips(full, lean, at) && (full.pickups[at].status.Reversed? || block != full.pickups[at].block)
    ensures ReleaseBlock(lean, block).1.CutOff? <==> ReleaseBlock(full, block).1.CutOff?
    ensures Skips(ReleaseBlock(full, block).0, ReleaseBlock(lean, block).0, at)
  {
    assert NightDates(full.nights, block) == NightDates(lean.nights, block) by {
      assert forall k :: k in full.nights <==> k in lean.nights;
    }
    var full', lean' := ReleaseBlock(full, block).0, ReleaseBlock(lean, block).0;
    assert full'.nights.Keys == lean'.nights.Keys;
    forall k | k in full'.nights
      ensures full'.nights[k] == lean'.nights[k].(picked := lean'.nights[k].picked + Share(full.pickups[at], k))
    {
      assert k == NightKey(k.block, k.date);
    }
  }

  lemma PickupSkips(full: Db, lean: Db, at: nat, id: PickupId, input: PickupInput)
    requires Valid(full) && Valid(lean) && Skips(full, lean, at) && Avoids(PickupOp(id, input), full.pickups[at])
    requires PickupRoomBlock(full, id, input).1.PickedUp?
    ensures PickupRoomBlock(lean, id, input).1 == PickupRoomBlock(full, id, input).1
    ensures Skips(PickupRoomBlock(full, id, input).0, PickupRoomBlock(lean, id, input).0, at)
    ensures PickupRoomBlock(full, id, input).0.pickups[at] == full.pickups[at]
  {
    PickupRowSkips(full, lean, at, RequestedRow(id, input).value);
  }

  /** One request that succeeds next to the row also succeeds without it, and keeps the difference. */
  lemma ApplySkips(full: Db, lean: Db, at: nat, op: Op)
    requires Valid(full) && Valid(lean) && Skips(full, lean, at) && Avoids(op, full.pickups[at])
    requires Succeeds(full, op)
    ensures Succeeds(lean, op)
    ensures Skips(Apply(full, op), Apply(lean, op), at)
    ensures Apply(full, op).pickups[at] == full.pickups[at]
  {
    match op
    case SetNightsOp(block, rows) => SetNightsSkips(full, lean, at, block, rows);
    case PickupOp(id, input) => PickupSkips(full, lean, at, id, input);
    case ReverseOp(input) => ReverseSkips(full, lean, at, input);
    case ReleaseOp(block) => ReleaseSkips(full, lean, at, block);
  }

  lemma {:induction false} RunSkips(full: Db, lean: Db, at: nat, ops: seq<Op>)
    requires Valid(full) && Valid(lean) && Skips(full, lean, at)
    requires forall op :: op in ops ==> Avoids(op, full.pickups[at])
    requires AllSucceed(full, ops)
    ensures AllSucceed(lean, ops)
    ensures Skips(Run(full, ops), Run(lean, ops), at)
    ensures Run(full, ops).pickups[at] == full.pickups[at]
    decreases |ops|
  {
    if ops != [] {
      ApplySkips(full, lean, at, ops[0]);
      ApplyKeepsValid(full, ops[0]);
      ApplyKeepsValid(lean, ops[0]);
      RunSkips(Apply(full, ops[0]), Apply(lean, ops[0]), at, ops[1..]);
    }
  }

  /** Reversing the row itself brings the two sides together. */
  lemma ReversalClosesTheGap(full: Db, lean: Db, at: nat)
    requires Skips(full, lean, at) && full.pickups[at].status.Active?
    ensures ReverseAt(full, at).nights == lean.nights
    ensures Skips(ReverseAt(full, at), lean, at)
  {
    var reversed := ReverseAt(full, at);
    forall k | k in reversed.nights
      ensures k in lean.nights && reversed.nights[k] == lean.nights[k]
    {
      assert k in full.nights;
    }
    assert reversed.nights.Keys == full.nights.Keys;
    assert reversed.nights == lean.nights;
    assert Without(reversed.pickups, at) == Without(full.pickups, at);
  }

  lemma RecordingOpensTheGap(db: Db, row: Pickup)
    ensures Skips(Recorded(db, row), db, |db.pickups|) || row.status.Reversed?
  {
    var picked := Recorded(db, row);
    assert Without(picked.pickups, |db.pickups|) == db.pickups;
    assert picked.nights.Keys == db.nights.Keys;
  }

  lemma GapOpensAndCloses(
    full: Db, lean: Db, at: nat, between: seq<Op>, undo: ReversalInput, after: seq<Op>)
    requires Valid(full) && Valid(lean) && Skips(full, lean, at)
    requires var late := Run(full, between);
             && AllSucceed(full, between)
             && (forall op :: op in between ==> Avoids(op, full.pickups[at]))
             && ReversalTarget(late, undo) == Some(at)
             && AllSucceed(ReversePickup(late, undo).0, after)
             && (forall op :: op in after ==> Avoids(op, full.pickups[at].(status := Reversed)))
    ensures var undone := Run(ReversePickup(Run(full, between), undo).0, after);
            var never := Run(Run(lean, between), after);
            && AllSucceed(lean, between) && AllSucceed(Run(lean, between), after)
            && Skips(undone, never, at) && undone.nights == never.nights
            && undone.pickups[at] == full.pickups[at].(status := Reversed)
  {
    RunSkips(full, lean, at, between);
    var late, lean' := Run(full, between), Run(lean, between);
    RunKeepsValid(full, between);
    RunKeepsValid(lean, between);
    ReverseKeepsValid(late, undo);
    ReversalClosesTheGap(late, lean', at);
    var reversed := ReverseAt(late, at);
    RunSkips(reversed, lean', at, after);
    var undone, never := Run(reversed, after), Run(lean', after);
    forall k | k in undone.nights
      ensures k in never.nights && undone.nights[k] == never.nights[k]
    {
    }
    assert undone.nights == never.nights;
  }

  /**
   * A reversal undoes its pickup exactly. Take a fresh accepted pickup, any successful requests about
   * other pickups, the reversal, and any further successful requests. Delete the pickup and its
   * reversal: every remaining request still succeeds, all headers and night counters end the same,
   * and the ledger differs by nothing but the reversed row.
   */
  lemma ReversalUndoesPickup(
    db: Db, row: Pickup, between: seq<Op>, undo: ReversalInput, after: seq<Op>)
    requires Valid(db) && IsFresh(PickupRow(db, row).1)
    requires row.rooms > 0 && row.checkIn < row.checkOut && row.status.Active?
    requires var picked := PickupRow(db, row).0;
             var late := Run(picked, between);
             && AllSucceed(picked, between)
             && (forall op :: op in between ==> Avoids(op, row))
             && ReversalTarget(late, undo) == Some(|db.pickups|)
             && AllSucceed(ReversePickup(late, undo).0, after)
             && (forall op :: op in after ==> Avoids(op, row.(status := Reversed)))
    ensures var undone := Run(ReversePickup(Run(PickupRow(db, row).0, between), undo).0, after);
            var never := Run(Run(db, between), after);
            && AllSucceed(db, between) && AllSucceed(Run(db, between), after)
            && undone.blocks == never.blocks && undone.nights == never.nights
            && |db.pickups| < |undone.pickups| == |never.pickups| + 1
            && undone.pickups[|db.pickups|] == row.(status := Reversed)
            && Without(undone.pickups, |db.pickups|) == never.pickups
  {
    PickupRowAccepted(db, row);
    RecordedKeepsValid(db, row);
    RecordingOpensTheGap(db, row);
    GapOpensAndCloses(Recorded(db, row), db, |db.pickups|, between, undo, after);
  }
}
