/**
 * Concurrent room-block transactions under read committed isolation.
 *
 * A transaction advances one row at a time. It takes exactly the row locks that the service's
 * statements take, holds them until it ends, keeps its writes to itself, and at any point may end
 * without effect (an early return, a refused statement, a deadlock victim, a crash). The main result,
 * CommitsAreSerial, says that the committed tables of any interleaving went through nothing but the
 * operations of RoomBlocks, one per commit.
 */
module RoomBlockTransactions {
  import opened Options
  import opened Calendar
  import opened RoomBlocks
  import opened RoomBlockHistory

  /** What a transaction can hold a lock on: a row, or a key of the active-stay-item unique index. */
  datatype Row =
    | BlockRow(block: BlockId)
    | NightRow(night: NightKey)
    | LedgerRow(id: PickupId)
    | StayKey(item: StayItemId)

  datatype PickupStage =
    | PickupStart
    | HeaderLocked
    | NotRepeated
    | LockingNights(todo: set<Day>, got: Nights)
    | Inserted(got: Nights)

  datatype ReverseStage = ReverseStart | GivingBack(p: Pickup, next: Day, buffer: Nights)

  datatype ReleaseStage = ReleaseStart | BlockLocked | ScanningNights(todo: set<Day>, got: Nights)

  datatype Txn =
    | SetNightsTxn(block: BlockId, rows: seq<NightInput>, at: nat, buffer: Nights, keyed: bool)
    | PickupTxn(id: PickupId, input: PickupInput, row: Pickup, pickup: PickupStage)
    | ReverseTxn(reversal: ReversalInput, reverse: ReverseStage)
    | ReleaseTxn(block: BlockId, release: ReleaseStage)

  datatype Sys = Sys(db: Db, txns: map<nat, Txn>)

  function NightRows(nights: Nights): set<Row> {
    set k | k in nights :: NightRow(k)
  }

  /** The row locks a transaction holds against all others at each stage. */
  function Locks(txn: Txn): set<Row> {
    match txn
    case SetNightsTxn(_, _, _, buffer, _) => NightRows(buffer)
    case PickupTxn(_, _, row, stage) =>
      (match stage
       case PickupStart => {}
       case HeaderLocked => {BlockRow(row.block)}
       case NotRepeated => {BlockRow(row.block)}
       case LockingNights(_, got) => {BlockRow(row.block)} + NightRows(got)
       case Inserted(got) => {BlockRow(row.block), LedgerRow(row.id)} + NightRows(got)
                             + if row.stayItem.Some? then {StayKey(row.stayItem.value)} else {})
    case ReverseTxn(_, stage) =>
      (match stage
       case ReverseStart => {}
       case GivingBack(p, _, buffer) => {LedgerRow(p.id)} + NightRows(buffer))
    case ReleaseTxn(block, stage) =>
      (match stage
       case ReleaseStart => {}
       case BlockLocked => {BlockRow(block)}
       case ScanningNights(_, got) => {BlockRow(block)} + NightRows(got))
  }

  /** The rows a transaction holds a shared lock on: the header that its inserted nights refer to. */
  function Shares(txn: Txn): set<Row> {
    if txn.SetNightsTxn? && txn.keyed then {BlockRow(txn.block)} else {}
  }

  /** Nobody else holds the row. */
  ghost predicate Free(s: Sys, t: nat, row: Row) {
    forall u :: u in s.txns && u != t ==> row !in Locks(s.txns[u]) && row !in Shares(s.txns[u])
  }

  /** Nobody else holds the row against sharing. */
  ghost predicate Shareable(s: Sys, t: nat, row: Row) {
    forall u :: u in s.txns && u != t ==> row !in Locks(s.txns[u])
  }

  // ---------------------------------------------------------------- the steps of a transaction

  /** The version of a night that an upserted row writes. */
  function Upserted(nights: Nights, k: NightKey, held: int): Night {
    if k in nights then nights[k].(held := held) else Night(held, 0, 0)
  }

  predicate InsertsNothing(db: Db, txn: Txn)
    requires txn.SetNightsTxn?
  {
    forall k :: k in txn.buffer ==> k in db.nights
  }

  /**
   * The next row; or, at the end of a statement that inserts a night, the check of its foreign key,
   * which keeps the header from being locked by others until the commit.
   */
  ghost predicate SetNightsStep(s: Sys, t: nat, txn: Txn, next: Txn)
    requires txn.SetNightsTxn?
  {
    if txn.at < |txn.rows| then
      var k := NightKey(txn.block, txn.rows[txn.at].date);
      var night := Upserted(s.db.nights, k, txn.rows[txn.at].held);
      && k !in txn.buffer && CheckNight(night) && Free(s, t, NightRow(k))
      && next == txn.(at := txn.at + 1, buffer := txn.buffer[k := night])
    else
      && !InsertsNothing(s.db, txn) && txn.block in s.db.blocks && Shareable(s, t, BlockRow(txn.block))
      && next == txn.(keyed := true)
  }

  ghost predicate PickupStep(s: Sys, t: nat, txn: Txn, next: Txn)
    requires txn.PickupTxn?
  {
    var db, row := s.db, txn.row;
    match txn.pickup
    case PickupStart =>
      && Free(s, t, BlockRow(row.block))
      && row.block in db.blocks && !IsClosed(db.blocks[row.block])
      && next == txn.(pickup := HeaderLocked)
    case HeaderLocked =>
      && Existing(db.pickups, row.stayItem).None?
      && next == txn.(pickup := NotRepeated)
    case NotRepeated =>
      next == txn.(pickup := LockingNights(
        set d | d in Days(row.checkIn, row.checkOut) && NightKey(row.block, d) in db.nights, map[]))
    case LockingNights(todo, got) =>
      if todo != {} then
        exists d :: d in todo
          && var k := NightKey(row.block, d);
             && k in db.nights && Free(s, t, NightRow(k))
             && next == txn.(pickup := LockingNights(todo - {d}, got[k := db.nights[k]]))
      else
        && (forall d :: row.checkIn <= d < row.checkOut ==>
              NightKey(row.block, d) in got && got[NightKey(row.block, d)].Remaining() >= row.rooms)
        && FindId(db.pickups, row.id).None? && Free(s, t, LedgerRow(row.id))
        && Existing(db.pickups, row.stayItem).None?
        && (row.stayItem.Some? ==> Free(s, t, StayKey(row.stayItem.value)))
        && next == txn.(pickup := Inserted(got))
    case Inserted(_) => false
  }

  ghost predicate ReverseStep(s: Sys, t: nat, txn: Txn, next: Txn)
    requires txn.ReverseTxn?
  {
    match txn.reverse
    case ReverseStart =>
      var target := ReversalTarget(s.db, txn.reversal);
      && target.Some?
      && var p := s.db.pickups[target.value];
         Free(s, t, LedgerRow(p.id)) && next == txn.(reverse := GivingBack(p, p.checkIn, map[]))
    case GivingBack(p, d, buffer) =>
      && d < p.checkOut
      && var k := NightKey(p.block, d);
         if k in s.db.nights then
           var night := s.db.nights[k].(picked := s.db.nights[k].picked - p.rooms);
           && CheckNight(night) && Free(s, t, NightRow(k))
           && next == txn.(reverse := GivingBack(p, d + 1, buffer[k := night]))
         else next == txn.(reverse := GivingBack(p, d + 1, buffer))
  }

  ghost predicate ReleaseStep(s: Sys, t: nat, txn: Txn, next: Txn)
    requires txn.ReleaseTxn?
  {
    match txn.release
    case ReleaseStart =>
      && Free(s, t, BlockRow(txn.block)) && txn.block in s.db.blocks
      && next == txn.(release := BlockLocked)
    case BlockLocked =>
      next == txn.(release := ScanningNights(NightDates(s.db.nights, txn.block), map[]))
    case ScanningNights(todo, got) =>
      exists d :: d in todo
        && var k := NightKey(txn.block, d);
           && k in s.db.nights && Free(s, t, NightRow(k))
           && next == txn.(release := ScanningNights(todo - {d}, got[k := s.db.nights[k]]))
  }

  ghost predicate Advances(s: Sys, t: nat, txn: Txn, next: Txn) {
    match txn
    case SetNightsTxn(_, _, _, _, _) => SetNightsStep(s, t, txn, next)
    case PickupTxn(_, _, _, _) => PickupStep(s, t, txn, next)
    case ReverseTxn(_, _) => ReverseStep(s, t, txn, next)
    case ReleaseTxn(_, _) => ReleaseStep(s, t, txn, next)
  }

  ghost predicate Begins(txn: Txn) {
    match txn
    case SetNightsTxn(_, rows, at, buffer, keyed) => rows != [] && at == 0 && buffer == map[] && !keyed
    case PickupTxn(id, input, row, stage) => RequestedRow(id, input) == Some(row) && stage.PickupStart?
    case ReverseTxn(_, stage) => stage.ReverseStart?
    case ReleaseTxn(_, stage) => stage.ReleaseStart?
  }

  ghost predicate CanCommit(db: Db, txn: Txn) {
    match txn
    case SetNightsTxn(block, rows, at, _, keyed) =>
      at == |rows| && block in db.blocks && (keyed || InsertsNothing(db, txn))
    case PickupTxn(_, _, _, stage) => stage.Inserted?
    case ReverseTxn(_, stage) =>
      stage.GivingBack? && stage.next >= stage.p.checkOut && FindId(db.pickups, stage.p.id).Some?
    case ReleaseTxn(_, stage) => stage.ScanningNights? && stage.todo == {}
  }

  function ReleasedVersion(night: Night): Night {
    night.(released := night.released + if night.Remaining() > 0 then night.Remaining() else 0)
  }

  /** The tables once the transaction's own writes replace the committed versions of its rows. */
  function Committed(db: Db, txn: Txn): Db
    requires CanCommit(db, txn)
  {
    match txn
    case SetNightsTxn(_, _, _, buffer, _) => db.(nights := db.nights + buffer)
    case PickupTxn(_, _, row, stage) =>
      var buffer := map k | k in stage.got :: stage.got[k].(picked := stage.got[k].picked + row.rooms);
      Db(db.blocks, db.nights + buffer, db.pickups + [row])
    case ReverseTxn(_, stage) =>
      var at := FindId(db.pickups, stage.p.id).value;
      Db(db.blocks, db.nights + stage.buffer, db.pickups[at := stage.p.(status := Reversed)])
    case ReleaseTxn(block, stage) =>
      var buffer := map k | k in stage.got :: ReleasedVersion(stage.got[k]);
      Db(db.blocks[block := Released], db.nights + buffer, db.pickups)
  }

  datatype Step = Begin(t: nat, txn: Txn) | Advance(t: nat, txn: Txn) | End(t: nat) | Commit(t: nat)

  ghost predicate Next(s: Sys, s': Sys, step: Step) {
    match step
    case Begin(t, txn) => t !in s.txns && Begins(txn) && s' == s.(txns := s.txns[t := txn])
    case Advance(t, txn) => t in s.txns && Advances(s, t, s.txns[t], txn) && s' == s.(txns := s.txns[t := txn])
    case End(t) => t in s.txns && s' == s.(txns := s.txns - {t})
    case Commit(t) =>
      t in s.txns && CanCommit(s.db, s.txns[t]) && s' == Sys(Committed(s.db, s.txns[t]), s.txns - {t})
  }

  // ---------------------------------------------------------------- what every interleaving keeps

  /** The versions a transaction read under lock are still the committed ones. */
  ghost predicate Current(db: Db, got: Nights) {
    forall k :: k in got ==> k in db.nights && db.nights[k] == got[k]
  }

  function RowDates(rows: seq<NightInput>, n: nat): set<Day>
    requires n <= |rows|
  {
    set i | 0 <= i < n :: rows[i].date
  }

  ghost predicate SetNightsOk(db: Db, txn: Txn)
    requires txn.SetNightsTxn?
  {
    && txn.at <= |txn.rows| && txn.rows != []
    && (forall k :: k in txn.buffer <==> k.block == txn.block && k.date in RowDates(txn.rows, txn.at))
    && (forall k :: k in txn.buffer ==> CheckNight(txn.buffer[k]))
    && (forall i :: 0 <= i < txn.at ==>
          var k := NightKey(txn.block, txn.rows[i].date);
          k in txn.buffer && txn.buffer[k] == Upserted(db.nights, k, txn.rows[i].held))
    && (forall i, j :: 0 <= i < j < txn.at ==> txn.rows[i].date != txn.rows[j].date)
    && (txn.keyed ==> txn.at == |txn.rows| && txn.block in db.blocks)
  }

  /** No pickup of the stay item is active on the row's own block. */
  ghost predicate NewHere(ledger: seq<Pickup>, row: Pickup) {
    row.stayItem.Some? ==>
      forall i :: 0 <= i < |ledger| && ledger[i].status.Active? && ledger[i].stayItem == row.stayItem ==>
        ledger[i].block != row.block
  }

  ghost predicate PickupStageOk(db: Db, row: Pickup, stage: PickupStage) {
    && row.rooms > 0 && row.checkIn < row.checkOut && row.status.Active?
    && (!stage.PickupStart? ==> row.block in db.blocks && !IsClosed(db.blocks[row.block]))
    && (!stage.PickupStart? && !stage.HeaderLocked? ==> NewHere(db.pickups, row))
    && (stage.LockingNights? || stage.Inserted? ==>
          && Current(db, stage.got)
          && (forall k :: k in stage.got ==> k.block == row.block && row.checkIn <= k.date < row.checkOut))
    && (stage.LockingNights? ==> forall d :: d in stage.todo ==> row.checkIn <= d < row.checkOut)
    && (stage.Inserted? ==>
          && (forall d :: row.checkIn <= d < row.checkOut ==>
                NightKey(row.block, d) in stage.got && stage.got[NightKey(row.block, d)].Remaining() >= row.rooms)
          && Existing(db.pickups, row.stayItem).None?
          && FindId(db.pickups, row.id).None?)
  }

  ghost predicate PickupTxnOk(db: Db, txn: Txn)
    requires txn.PickupTxn?
  {
    RequestedRow(txn.id, txn.input) == Some(txn.row) && PickupStageOk(db, txn.row, txn.pickup)
  }

  predicate Designates(input: ReversalInput, p: Pickup) {
    && (if input.pickupId.Some? then p.id == input.pickupId.value
        else input.stayItem.Some? && p.stayItem == input.stayItem)
    && (input.block.Some? ==> p.block == input.block.value)
  }

  ghost predicate ReverseTxnOk(db: Db, txn: Txn)
    requires txn.ReverseTxn?
  {
    txn.reverse.GivingBack? ==>
      var p, next, buffer := txn.reverse.p, txn.reverse.next, txn.reverse.buffer;
      && Designates(txn.reversal, p) && p.status.Active?
      && FindId(db.pickups, p.id).Some? && db.pickups[FindId(db.pickups, p.id).value] == p
      && p.checkIn <= next <= p.checkOut
      && (forall k :: k in buffer <==> k.block == p.block && p.checkIn <= k.date < next)
      && (forall k :: k in buffer ==>
            k in db.nights && buffer[k] == db.nights[k].(picked := db.nights[k].picked - p.rooms))
  }

  ghost predicate ReleaseTxnOk(db: Db, txn: Txn)
    requires txn.ReleaseTxn?
  {
    && (!txn.release.ReleaseStart? ==> txn.block in db.blocks)
    && (txn.release.ScanningNights? ==>
          var dates, todo, got := NightDates(db.nights, txn.block), txn.release.todo, txn.release.got;
          && todo <= dates && Current(db, got)
          && (forall k :: k in got <==> k.block == txn.block && k.date in dates - todo))
  }

  ghost predicate TxnOk(db: Db, txn: Txn) {
    match txn
    case SetNightsTxn(_, _, _, _, _) => SetNightsOk(db, txn)
    case PickupTxn(_, _, _, _) => PickupTxnOk(db, txn)
    case ReverseTxn(_, _) => ReverseTxnOk(db, txn)
    case ReleaseTxn(_, _) => ReleaseTxnOk(db, txn)
  }

  ghost predicate SysOk(s: Sys) {
    && Valid(s.db)
    && (forall t :: t in s.txns ==> TxnOk(s.db, s.txns[t]))
    && (forall t, u :: t in s.txns && u in s.txns && t != u ==> Apart(s.txns[t], s.txns[u]))
  }

  /** Two transactions hold no row both, unless both share it. */
  predicate Apart(a: Txn, b: Txn) {
    Locks(a) !! Locks(b) && Locks(a) !! Shares(b) && Shares(a) !! Locks(b)
  }

  /**
   * The tables differ only on locked rows; unlocked ledger rows stay, and new ones were locked, their
   * headers too. No night goes, and the header of every new one was shared.
   */
  ghost predicate SameOutside(db: Db, db': Db, locks: set<Row>, shares: set<Row>) {
    && db'.blocks.Keys == db.blocks.Keys
    && (forall b :: b in db.blocks && BlockRow(b) !in locks ==> db'.blocks[b] == db.blocks[b])
    && (forall k :: NightRow(k) !in locks ==> (k in db.nights <==> k in db'.nights))
    && (forall k :: k in db.nights && NightRow(k) !in locks ==> db'.nights[k] == db.nights[k])
    && (forall k :: k in db.nights ==> k in db'.nights)
    && (forall k :: k in db'.nights && k !in db.nights ==> BlockRow(k.block) in shares)
    && |db.pickups| <= |db'.pickups|
    && (forall i :: 0 <= i < |db.pickups| ==>
          db'.pickups[i] == db.pickups[i]
          || (LedgerRow(db.pickups[i].id) in locks && db'.pickups[i] == db.pickups[i].(status := Reversed)))
    && (forall i :: |db.pickups| <= i < |db'.pickups| ==>
          LedgerRow(db'.pickups[i].id) in locks && BlockRow(db'.pickups[i].block) in locks
          && (db'.pickups[i].stayItem.Some? ==> StayKey(db'.pickups[i].stayItem.value) in locks))
  }

  // ---------------------------------------------------------------- a commit is one operation

  /** The sequential operation a committing transaction amounts to. */
  function OpOf(txn: Txn): Op {
    match txn
    case SetNightsTxn(block, rows, _, _, _) => SetNightsOp(block, rows)
    case PickupTxn(id, input, _, _) => PickupOp(id, input)
    case ReverseTxn(input, _) => ReverseOp(input)
    case ReleaseTxn(block, _) => ReleaseOp(block)
  }

  lemma SetNightsAcceptable(db: Db, txn: Txn)
    requires Valid(db) && txn.SetNightsTxn? && SetNightsOk(db, txn) && txn.at == |txn.rows|
    ensures UpsertNights(db.nights, txn.block, txn.rows, {}).Some?
  {
    var block, rows, buffer := txn.block, txn.rows, txn.buffer;
    forall k | k in db.nights
      ensures CheckNight(db.nights[k])
    {
      assert NightRowOk(db, k);
    }
    forall i | 0 <= i < |rows|
      ensures CheckNight(Upserted(db.nights, NightKey(block, rows[i].date), rows[i].held))
    {
      assert NightKey(block, rows[i].date) in buffer;
    }
    UpsertAccepted(db.nights, block, rows, {});
  }

  lemma SetNightsOverlay(db: Db, txn: Txn)
    requires Valid(db) && txn.SetNightsTxn? && SetNightsOk(db, txn) && txn.at == |txn.rows|
    ensures UpsertNights(db.nights, txn.block, txn.rows, {}) == Some(db.nights + txn.buffer)
  {
    var block, rows, buffer := txn.block, txn.rows, txn.buffer;
    SetNightsAcceptable(db, txn);
    var after := UpsertNights(db.nights, block, rows, {}).value;
    forall k: NightKey
      ensures k in after <==> k in db.nights || k in buffer
      ensures k in after ==> after[k] == if k in buffer then buffer[k] else db.nights[k]
    {
      SetNightsOverlayAt(db, txn, k);
    }
    assert after == db.nights + buffer;
  }

  lemma SetNightsOverlayAt(db: Db, txn: Txn, k: NightKey)
    requires txn.SetNightsTxn? && SetNightsOk(db, txn) && txn.at == |txn.rows|
    requires UpsertNights(db.nights, txn.block, txn.rows, {}).Some?
    ensures var after := UpsertNights(db.nights, txn.block, txn.rows, {}).value;
            && (k in after <==> k in db.nights || k in txn.buffer)
            && (k in after ==> after[k] == if k in txn.buffer then txn.buffer[k] else db.nights[k])
  {
    UpsertEffect(db.nights, txn.block, txn.rows, {});
    if k in txn.buffer {
      var i :| 0 <= i < |txn.rows| && k.date == txn.rows[i].date;
      assert k == NightKey(txn.block, txn.rows[i].date);
    }
  }

  lemma SetNightsCommit(db: Db, txn: Txn)
    requires Valid(db) && txn.SetNightsTxn? && SetNightsOk(db, txn) && CanCommit(db, txn)
    ensures SetNights(db, txn.block, txn.rows) == (Committed(db, txn), true)
    ensures SameOutside(db, Committed(db, txn), Locks(txn), Shares(txn))
  {
    SetNightsOverlay(db, txn);
    assert forall k :: k in txn.buffer ==> NightRow(k) in Locks(txn);
  }

  /** A pickup's writes, computed from what it read under lock, are the sequential increments. */
  lemma PickupOverlay(db: Db, row: Pickup, got: Nights)
    requires Current(db, got) && row.checkIn < row.checkOut
    requires forall k :: k in got ==> k.block == row.block && row.checkIn <= k.date < row.checkOut
    requires forall d :: row.checkIn <= d < row.checkOut ==>
               NightKey(row.block, d) in got && got[NightKey(row.block, d)].Remaining() >= row.rooms
    ensures forall d :: row.checkIn <= d < row.checkOut ==>
              NightKey(row.block, d) in db.nights && db.nights[NightKey(row.block, d)].Remaining() >= row.rooms
    ensures db.nights + (map k | k in got :: got[k].(picked := got[k].picked + row.rooms))
         == AddPicked(db.nights, row.block, row.checkIn, row.checkOut, row.rooms)
  {
    forall d | row.checkIn <= d < row.checkOut
      ensures NightKey(row.block, d) in db.nights && db.nights[NightKey(row.block, d)].Remaining() >= row.rooms
    {
      assert NightKey(row.block, d) in got;
    }
    var buffer := map k | k in got :: got[k].(picked := got[k].picked + row.rooms);
    var after := AddPicked(db.nights, row.block, row.checkIn, row.checkOut, row.rooms);
    forall k | k in db.nights
      ensures k in after && after[k] == (db.nights + buffer)[k]
    {
      assert k == NightKey(k.block, k.date);
    }
    assert db.nights + buffer == after;
  }

  lemma PickupRowCommit(db: Db, txn: Txn)
    requires txn.PickupTxn? && txn.pickup.Inserted? && PickupStageOk(db, txn.row, txn.pickup)
    ensures PickupRow(db, txn.row) == (Committed(db, txn), PickedUp(txn.row, false))
  {
    PickupOverlay(db, txn.row, txn.pickup.got);
    PickupRowAccepted(db, txn.row);
  }

  lemma PickupOutside(db: Db, txn: Txn)
    requires txn.PickupTxn? && txn.pickup.Inserted? && PickupStageOk(db, txn.row, txn.pickup)
    ensures SameOutside(db, Committed(db, txn), Locks(txn), Shares(txn))
  {
    assert forall k :: k in txn.pickup.got ==> NightRow(k) in Locks(txn);
  }

  lemma PickupCommit(db: Db, txn: Txn)
    requires txn.PickupTxn? && PickupTxnOk(db, txn) && CanCommit(db, txn)
    ensures PickupRoomBlock(db, txn.id, txn.input) == (Committed(db, txn), PickedUp(txn.row, false))
    ensures SameOutside(db, Committed(db, txn), Locks(txn), Shares(txn))
  {
    PickupRowCommit(db, txn);
    PickupOutside(db, txn);
  }

  lemma ReverseCommit(db: Db, txn: Txn)
    requires Valid(db) && txn.ReverseTxn? && TxnOk(db, txn) && CanCommit(db, txn)
    ensures ReversePickup(db, txn.reversal) == (Committed(db, txn), Reversal(txn.reverse.p.(status := Reversed)))
    ensures SameOutside(db, Committed(db, txn), Locks(txn), Shares(txn))
  {
    var p, buffer := txn.reverse.p, txn.reverse.buffer;
    var at := FindId(db.pickups, p.id).value;
    assert ReversalTarget(db, txn.reversal) == Some(at);
    forall k: NightKey
      ensures k in db.nights + buffer <==> k in db.nights
      ensures k in db.nights ==>
          (db.nights + buffer)[k] == AddPicked(db.nights, p.block, p.checkIn, p.checkOut, -p.rooms)[k]
      ensures NightRow(k) !in Locks(txn) ==> k !in buffer
    {
      assert k in buffer ==> NightRow(k) in NightRows(buffer);
    }
    assert db.nights + buffer == AddPicked(db.nights, p.block, p.checkIn, p.checkOut, -p.rooms);
  }

  lemma ReleaseCommit(db: Db, txn: Txn)
    requires Valid(db) && txn.ReleaseTxn? && TxnOk(db, txn) && CanCommit(db, txn)
    ensures Committed(db, txn) == ReleaseBlock(db, txn.block).0
    ensures SameOutside(db, Committed(db, txn), Locks(txn), Shares(txn))
  {
    ReleaseOverlay(db.nights, txn.block, NightDates(db.nights, txn.block), txn.release.got);
    forall k: NightKey
      ensures NightRow(k) !in Locks(txn) ==> k !in txn.release.got
    {
      assert k in txn.release.got ==> NightRow(k) in NightRows(txn.release.got);
    }
    assert db.blocks[txn.block := Released].Keys == db.blocks.Keys;
  }

  /** A cutoff's writes, computed from what it read under lock, are those of the sequential cutoff. */
  lemma ReleaseOverlay(nights: Nights, block: BlockId, seen: set<Day>, got: Nights)
    requires forall k :: k in got ==> k in nights && nights[k] == got[k]
    requires forall k :: k in got <==> k.block == block && k.date in seen
    ensures nights + (map k | k in got :: ReleasedVersion(got[k])) == ReleaseNights(nights, block, seen)
  {
    var overlaid := nights + (map k | k in got :: ReleasedVersion(got[k]));
    var after := ReleaseNights(nights, block, seen);
    assert overlaid.Keys == nights.Keys == after.Keys;
    forall k | k in nights
      ensures overlaid[k] == after[k]
    {
      assert k == NightKey(k.block, k.date);
    }
  }

  /** Committing a transaction is one successful sequential operation, and touches only locked rows. */
  lemma CommitIsOneOperation(db: Db, txn: Txn)
    requires Valid(db) && TxnOk(db, txn) && CanCommit(db, txn)
    ensures Committed(db, txn) == Apply(db, OpOf(txn)) && Succeeds(db, OpOf(txn))
    ensures Valid(Committed(db, txn))
    ensures SameOutside(db, Committed(db, txn), Locks(txn), Shares(txn))
  {
    ApplyKeepsValid(db, OpOf(txn));
    match txn
    case SetNightsTxn(_, _, _, _, _) => SetNightsCommit(db, txn);
    case PickupTxn(_, _, _, _) => PickupCommit(db, txn);
    case ReverseTxn(_, _) => ReverseCommit(db, txn);
    case ReleaseTxn(_, _) => ReleaseCommit(db, txn);
  }

  // ---------------------------------------------------------------- others do not disturb what it knows

  lemma PickupUndisturbed(db: Db, db': Db, locks: set<Row>, shares: set<Row>, txn: Txn)
    requires SameOutside(db, db', locks, shares) && locks !! Locks(txn) && txn.PickupTxn? && TxnOk(db, txn)
    ensures TxnOk(db', txn)
  {
    var row := txn.row;
    if !txn.pickup.PickupStart? {
      assert BlockRow(row.block) in Locks(txn);
    }
    if !txn.pickup.PickupStart? && !txn.pickup.HeaderLocked? {
      StillNewHere(db, db', locks, shares, row);
    }
    if txn.pickup.LockingNights? || txn.pickup.Inserted? {
      forall k | k in txn.pickup.got
        ensures k in db'.nights && db'.nights[k] == txn.pickup.got[k]
      {
        assert NightRow(k) in Locks(txn);
      }
    }
    if txn.pickup.Inserted? {
      StillNew(db, db', locks, shares, row);
    }
  }

  /** Nobody else can record a pickup on a block whose header is held. */
  lemma StillNewHere(db: Db, db': Db, locks: set<Row>, shares: set<Row>, row: Pickup)
    requires SameOutside(db, db', locks, shares) && BlockRow(row.block) !in locks && NewHere(db.pickups, row)
    ensures NewHere(db'.pickups, row)
  {
    forall i | 0 <= i < |db'.pickups| && db'.pickups[i].status.Active? && row.stayItem.Some? &&
               db'.pickups[i].stayItem == row.stayItem
      ensures db'.pickups[i].block != row.block
    {
      assert i < |db.pickups| ==> db.pickups[i] == db'.pickups[i];
    }
  }

  /** Nobody else can insert a row with the id or the stay item of a row inserted but not committed. */
  lemma StillNew(db: Db, db': Db, locks: set<Row>, shares: set<Row>, row: Pickup)
    requires SameOutside(db, db', locks, shares)
    requires LedgerRow(row.id) !in locks && (row.stayItem.Some? ==> StayKey(row.stayItem.value) !in locks)
    requires Existing(db.pickups, row.stayItem).None? && FindId(db.pickups, row.id).None?
    ensures Existing(db'.pickups, row.stayItem).None? && FindId(db'.pickups, row.id).None?
  {
  }

  lemma ReverseUndisturbed(db: Db, db': Db, locks: set<Row>, shares: set<Row>, txn: Txn)
    requires Valid(db') && SameOutside(db, db', locks, shares) && locks !! Locks(txn) && txn.ReverseTxn?
        && TxnOk(db, txn)
    ensures TxnOk(db', txn)
  {
    if txn.reverse.GivingBack? {
      var p := txn.reverse.p;
      var at := FindId(db.pickups, p.id).value;
      assert LedgerRow(p.id) in Locks(txn);
      assert db'.pickups[at] == p;
      FindIdIsUnique(db'.pickups, at);
      forall k | k in txn.reverse.buffer
        ensures k in db'.nights && db'.nights[k] == db.nights[k]
      {
        assert NightRow(k) in Locks(txn);
      }
    }
  }

  lemma SetNightsUndisturbed(db: Db, db': Db, locks: set<Row>, shares: set<Row>, txn: Txn)
    requires SameOutside(db, db', locks, shares) && locks !! Locks(txn) && txn.SetNightsTxn? && TxnOk(db, txn)
    ensures TxnOk(db', txn)
  {
    forall i | 0 <= i < txn.at
      ensures var k := NightKey(txn.block, txn.rows[i].date);
              Upserted(db'.nights, k, txn.rows[i].held) == Upserted(db.nights, k, txn.rows[i].held)
    {
      assert NightRow(NightKey(txn.block, txn.rows[i].date)) in Locks(txn);
    }
  }

  /** While a cutoff holds its header, no commit adds a night to the block. */
  lemma NoNewNights(db: Db, db': Db, locks: set<Row>, shares: set<Row>, txn: Txn)
    requires SameOutside(db, db', locks, shares) && shares !! Locks(txn) && txn.ReleaseTxn?
        && !txn.release.ReleaseStart?
    ensures NightDates(db'.nights, txn.block) == NightDates(db.nights, txn.block)
  {
    assert BlockRow(txn.block) in Locks(txn);
    forall k | k in db'.nights && k.block == txn.block
      ensures k in db.nights
    {
    }
  }

  lemma ReleaseUndisturbed(db: Db, db': Db, locks: set<Row>, shares: set<Row>, txn: Txn)
    requires SameOutside(db, db', locks, shares) && locks !! Locks(txn) && shares !! Locks(txn) && txn.ReleaseTxn?
        && TxnOk(db, txn)
    ensures TxnOk(db', txn)
  {
    if txn.release.ScanningNights? {
      NoNewNights(db, db', locks, shares, txn);
      forall k | k in txn.release.got
        ensures k in db'.nights && db'.nights[k] == txn.release.got[k]
      {
        assert NightRow(k) in Locks(txn);
      }
    }
  }

  lemma Undisturbed(db: Db, db': Db, locks: set<Row>, shares: set<Row>, txn: Txn)
    requires Valid(db') && SameOutside(db, db', locks, shares) && locks !! Locks(txn) && shares !! Locks(txn)
        && TxnOk(db, txn)
    ensures TxnOk(db', txn)
  {
    match txn
    case SetNightsTxn(_, _, _, _, _) => SetNightsUndisturbed(db, db', locks, shares, txn);
    case PickupTxn(_, _, _, _) => PickupUndisturbed(db, db', locks, shares, txn);
    case ReverseTxn(_, _) => ReverseUndisturbed(db, db', locks, shares, txn);
    case ReleaseTxn(_, _) => ReleaseUndisturbed(db, db', locks, shares, txn);
  }

  // ---------------------------------------------------------------- its own steps keep what it knows

  lemma SetNightsNextOk(db: Db, txn: Txn)
    requires txn.SetNightsTxn? && SetNightsOk(db, txn) && txn.at < |txn.rows|
    requires var k := NightKey(txn.block, txn.rows[txn.at].date);
             k !in txn.buffer && CheckNight(Upserted(db.nights, k, txn.rows[txn.at].held))
    ensures var k := NightKey(txn.block, txn.rows[txn.at].date);
            SetNightsOk(db,
                txn.(at := txn.at + 1, buffer := txn.buffer[k := Upserted(db.nights, k, txn.rows[txn.at].held)]))
  {
    var date := txn.rows[txn.at].date;
    var next := txn.(at := txn.at + 1,
                     buffer := txn.buffer[NightKey(txn.block, date) := Upserted(db.nights, NightKey(txn.block, date),
                         txn.rows[txn.at].held)]);
    assert RowDates(txn.rows, next.at) == RowDates(txn.rows, txn.at) + {date};
    forall i | 0 <= i < txn.at
      ensures txn.rows[i].date != date
    {
      assert NightKey(txn.block, txn.rows[i].date) in txn.buffer;
    }
    forall k: NightKey
      ensures k in next.buffer <==> k.block == txn.block && k.date in RowDates(txn.rows, next.at)
    {
      assert k == NightKey(k.block, k.date);
    }
  }

  lemma SetNightsAdvance(s: Sys, t: nat, txn: Txn, next: Txn)
    requires txn.SetNightsTxn? && SetNightsOk(s.db, txn) && SetNightsStep(s, t, txn, next)
    ensures SetNightsOk(s.db, next)
    ensures forall row :: row in Locks(next) ==> row in Locks(txn) || Free(s, t, row)
    ensures forall row :: row in Shares(next) ==> row in Shares(txn) || Shareable(s, t, row)
  {
    if txn.at < |txn.rows| {
      SetNightsNextOk(s.db, txn);
      forall x | x in NightRows(next.buffer)
        ensures x in NightRows(txn.buffer) || Free(s, t, x)
      {
        assert x.night in next.buffer;
      }
    }
  }

  lemma PickupAdvance(s: Sys, t: nat, txn: Txn, next: Txn)
    requires SysOk(s) && txn.PickupTxn? && TxnOk(s.db, txn) && PickupStep(s, t, txn, next)
    ensures TxnOk(s.db, next)
    ensures forall row :: row in Locks(next) ==> row in Locks(txn) || Free(s, t, row)
    ensures forall row :: row in Shares(next) ==> row in Shares(txn) || Shareable(s, t, row)
  {
    PickupStageAdvance(s, t, txn, next);
    PickupLocksAdvance(s, t, txn, next);
  }

  lemma PickupStageAdvance(s: Sys, t: nat, txn: Txn, next: Txn)
    requires txn.PickupTxn? && PickupStageOk(s.db, txn.row, txn.pickup) && PickupStep(s, t, txn, next)
    ensures next == txn.(pickup := next.pickup) && PickupStageOk(s.db, next.row, next.pickup)
  {
  }

  lemma PickupLocksAdvance(s: Sys, t: nat, txn: Txn, next: Txn)
    requires txn.PickupTxn? && PickupStep(s, t, txn, next)
    ensures forall row :: row in Locks(next) ==> row in Locks(txn) || Free(s, t, row)
    ensures forall row :: row in Shares(next) ==> row in Shares(txn) || Shareable(s, t, row)
  {
    if txn.pickup.NotRepeated? {
      assert NightRows(next.pickup.got) == {};
    } else if txn.pickup.LockingNights? && txn.pickup.todo != {} {
      forall x | x in NightRows(next.pickup.got)
        ensures x in NightRows(txn.pickup.got) || Free(s, t, x)
      {
        assert x.night in next.pickup.got;
      }
    }
  }

  lemma ReverseAdvance(s: Sys, t: nat, txn: Txn, next: Txn)
    requires SysOk(s) && txn.ReverseTxn? && TxnOk(s.db, txn) && ReverseStep(s, t, txn, next)
    ensures TxnOk(s.db, next)
    ensures forall row :: row in Locks(next) ==> row in Locks(txn) || Free(s, t, row)
    ensures forall row :: row in Shares(next) ==> row in Shares(txn) || Shareable(s, t, row)
  {
    if txn.reverse.ReverseStart? {
      var at := ReversalTarget(s.db, txn.reversal).value;
      FindIdIsUnique(s.db.pickups, at);
      assert PickupRowOk(s.db, s.db.pickups[at]);
      assert NightRows(next.reverse.buffer) == {};
    } else {
      var p := txn.reverse.p;
      assert PickupRowOk(s.db, s.db.pickups[FindId(s.db.pickups, p.id).value]);
      forall x | x in NightRows(next.reverse.buffer)
        ensures x in NightRows(txn.reverse.buffer) || Free(s, t, x)
      {
        assert x.night in next.reverse.buffer;
      }
    }
  }

  lemma ReleaseAdvance(s: Sys, t: nat, txn: Txn, next: Txn)
    requires SysOk(s) && txn.ReleaseTxn? && TxnOk(s.db, txn) && ReleaseStep(s, t, txn, next)
    ensures TxnOk(s.db, next)
    ensures forall row :: row in Locks(next) ==> row in Locks(txn) || Free(s, t, row)
    ensures forall row :: row in Shares(next) ==> row in Shares(txn) || Shareable(s, t, row)
  {
    if txn.release.BlockLocked? {
      assert NightRows(next.release.got) == {};
    } else if txn.release.ScanningNights? {
      forall x | x in NightRows(next.release.got)
        ensures x in NightRows(txn.release.got) || Free(s, t, x)
      {
        assert x.night in next.release.got;
      }
    }
  }

  lemma AdvanceKeepsOk(s: Sys, t: nat, txn: Txn, next: Txn)
    requires SysOk(s) && TxnOk(s.db, txn) && Advances(s, t, txn, next)
    ensures TxnOk(s.db, next)
    ensures forall row :: row in Locks(next) ==> row in Locks(txn) || Free(s, t, row)
    ensures forall row :: row in Shares(next) ==> row in Shares(txn) || Shareable(s, t, row)
  {
    match txn
    case SetNightsTxn(_, _, _, _, _) => SetNightsAdvance(s, t, txn, next);
    case PickupTxn(_, _, _, _) => PickupAdvance(s, t, txn, next);
    case ReverseTxn(_, _) => ReverseAdvance(s, t, txn, next);
    case ReleaseTxn(_, _) => ReleaseAdvance(s, t, txn, next);
  }

  lemma AdvanceStaysApart(s: Sys, t: nat, next: Txn, u: nat)
    requires SysOk(s) && t in s.txns && u in s.txns && u != t
    requires forall row :: row in Locks(next) ==> row in Locks(s.txns[t]) || Free(s, t, row)
    requires forall row :: row in Shares(next) ==> row in Shares(s.txns[t]) || Shareable(s, t, row)
    ensures Apart(next, s.txns[u]) && Apart(s.txns[u], next)
  {
    assert Apart(s.txns[t], s.txns[u]);
  }

  lemma AdvanceStepKeepsOk(s: Sys, t: nat, next: Txn)
    requires SysOk(s) && t in s.txns && Advances(s, t, s.txns[t], next)
    ensures SysOk(s.(txns := s.txns[t := next]))
  {
    AdvanceKeepsOk(s, t, s.txns[t], next);
    forall u | u in s.txns && u != t {
      AdvanceStaysApart(s, t, next, u);
    }
  }

  lemma CommitKeepsOk(s: Sys, t: nat)
    requires SysOk(s) && t in s.txns && CanCommit(s.db, s.txns[t])
    ensures SysOk(Sys(Committed(s.db, s.txns[t]), s.txns - {t}))
    ensures Committed(s.db, s.txns[t]) == Apply(s.db, OpOf(s.txns[t])) && Succeeds(s.db, OpOf(s.txns[t]))
  {
    CommitIsOneOperation(s.db, s.txns[t]);
    forall u | u in s.txns && u != t
      ensures TxnOk(Committed(s.db, s.txns[t]), s.txns[u])
    {
      assert Apart(s.txns[t], s.txns[u]);
      Undisturbed(s.db, Committed(s.db, s.txns[t]), Locks(s.txns[t]), Shares(s.txns[t]), s.txns[u]);
    }
  }

  lemma BeginKeepsOk(s: Sys, t: nat, txn: Txn)
    requires SysOk(s) && t !in s.txns && Begins(txn)
    ensures SysOk(s.(txns := s.txns[t := txn]))
  {
    BeginsClean(s.db, txn);
  }

  lemma BeginsClean(db: Db, txn: Txn)
    requires Begins(txn)
    ensures Locks(txn) == {} && Shares(txn) == {} && TxnOk(db, txn)
  {
  }

  lemma EndKeepsOk(s: Sys, t: nat)
    requires SysOk(s) && t in s.txns
    ensures SysOk(s.(txns := s.txns - {t}))
  {
  }

  /** Every step of every transaction keeps the tables valid, the locks exclusive, and reads current. */
  lemma NextKeepsOk(s: Sys, s': Sys, step: Step)
    requires SysOk(s) && Next(s, s', step)
    ensures SysOk(s')
    ensures if step.Commit? then s'.db == Apply(s.db, OpOf(s.txns[step.t])) && Succeeds(s.db, OpOf(s.txns[step.t]))
            else s'.db == s.db
  {
    match step
    case Begin(t, txn) => BeginKeepsOk(s, t, txn);
    case Advance(t, txn) => AdvanceStepKeepsOk(s, t, txn);
    case End(t) => EndKeepsOk(s, t);
    case Commit(t) => CommitKeepsOk(s, t);
  }

  // ---------------------------------------------------------------- whole interleavings

  ghost predicate Interleaving(states: seq<Sys>, steps: seq<Step>)
    decreases |steps|
  {
    && |states| == |steps| + 1
    && if steps == [] then states[0].txns == map[] && Valid(states[0].db)
       else
         var n := |steps| - 1;
         Interleaving(states[..n + 1], steps[..n]) && Next(states[n], states[n + 1], steps[n])
  }

  /** The operations of the transactions that committed, in commit order. */
  function CommittedOps(states: seq<Sys>, steps: seq<Step>): seq<Op>
    requires |states| == |steps| + 1
    decreases |steps|
  {
    if steps == [] then []
    else
      var n := |steps| - 1;
      CommittedOps(states[..n + 1], steps[..n])
      + if steps[n].Commit? && steps[n].t in states[n].txns then [OpOf(states[n].txns[steps[n].t])] else []
  }

  /**
   * Serializability. In every interleaving, the committed tables are those of running the committed
   * transactions' operations one after the other in commit order, each of them successfully. Hence
   * they are valid: counters match the ledger, nothing is oversold, and no stay item is active twice.
   */
  lemma {:induction false} CommitsAreSerial(states: seq<Sys>, steps: seq<Step>)
    requires Interleaving(states, steps)
    ensures var ops := CommittedOps(states, steps);
            && states[|steps|].db == Run(states[0].db, ops) && AllSucceed(states[0].db, ops)
            && SysOk(states[|steps|])
    decreases |steps|
  {
    if steps == [] {
      assert CommittedOps(states, steps) == [];
    } else {
      var n := |steps| - 1;
      CommitsAreSerial(states[..n + 1], steps[..n]);
      StepIsSerial(states[0].db, CommittedOps(states[..n + 1], steps[..n]), states[n], states[n + 1], steps[n]);
    }
  }

  lemma StepIsSerial(start: Db, ops: seq<Op>, s: Sys, s': Sys, step: Step)
    requires SysOk(s) && Next(s, s', step) && s.db == Run(start, ops) && AllSucceed(start, ops)
    ensures var ops' := ops + if step.Commit? && step.t in s.txns then [OpOf(s.txns[step.t])] else [];
            s'.db == Run(start, ops') && AllSucceed(start, ops') && SysOk(s')
  {
    NextKeepsOk(s, s', step);
    var more := if step.Commit? && step.t in s.txns then [OpOf(s.txns[step.t])] else [];
    if step.Commit? {
      RunAppend(start, ops, OpOf(s.txns[step.t]));
      assert ops + more == ops + [OpOf(s.txns[step.t])];
    } else {
      assert ops + more == ops;
    }
  }

  /**
   * However the transactions interleave, the next row update of a reversal finds its night and passes
   * the CHECK constraints.
   */
  lemma ReversalNeverRefused(s: Sys, t: nat)
    requires SysOk(s) && t in s.txns && s.txns[t].ReverseTxn? && s.txns[t].reverse.GivingBack?
    requires s.txns[t].reverse.next < s.txns[t].reverse.p.checkOut
    ensures var p := s.txns[t].reverse.p;
            var k := NightKey(p.block, s.txns[t].reverse.next);
            k in s.db.nights && CheckNight(s.db.nights[k].(picked := s.db.nights[k].picked - p.rooms))
  {
    var p := s.txns[t].reverse.p;
    var k := NightKey(p.block, s.txns[t].reverse.next);
    var at := FindId(s.db.pickups, p.id).value;
    assert TxnOk(s.db, s.txns[t]);
    assert forall j :: 0 <= j < |s.db.pickups| ==> PickupRowOk(s.db, s.db.pickups[j]);
    assert PickupRowOk(s.db, p);
    assert NightRowOk(s.db, k);
    ShareWithinPickedOn(s.db.pickups, at, k);
  }

  /** Likewise, every night that a pickup or a cutoff writes passes the CHECK constraints. */
  lemma CommitNeverRefused(s: Sys, t: nat)
    requires SysOk(s) && t in s.txns && CanCommit(s.db, s.txns[t])
    ensures forall k :: k in Committed(s.db, s.txns[t]).nights ==> CheckNight(Committed(s.db, s.txns[t]).nights[k])
  {
    var db' := Committed(s.db, s.txns[t]);
    CommitIsOneOperation(s.db, s.txns[t]);
    forall k | k in db'.nights
      ensures CheckNight(db'.nights[k])
    {
      assert NightRowOk(db', k);
    }
  }

  lemma ReleaseLeavesNothing(db: Db, block: BlockId)
    requires Valid(db)
    ensures block in db.blocks ==>
              forall k :: k in ReleaseBlock(db, block).0.nights && k.block == block ==>
                ReleaseBlock(db, block).0.nights[k].Remaining() == 0
  {
    forall k | k in db.nights && k.block == block
      ensures block in db.blocks ==> ReleaseBlock(db, block).0.nights[k].Remaining() == 0
    {
      assert NightRowOk(db, k);
      assert k == NightKey(block, k.date);
    }
  }

  /** However the transactions interleave, a committed cutoff leaves no night of its block with a room. */
  lemma CutoffLeavesNothing(s: Sys, t: nat)
    requires SysOk(s) && t in s.txns && s.txns[t].ReleaseTxn? && CanCommit(s.db, s.txns[t])
    ensures var after := Committed(s.db, s.txns[t]);
            && after == ReleaseBlock(s.db, s.txns[t].block).0
            && forall k :: k in after.nights && k.block == s.txns[t].block ==> after.nights[k].Remaining() == 0
  {
    var block := s.txns[t].block;
    assert TxnOk(s.db, s.txns[t]);
    ReleaseCommit(s.db, s.txns[t]);
    ReleaseLeavesNothing(s.db, block);
  }

  lemma HolderOfStayKey(txn: Txn, item: StayItemId)
    requires StayKey(item) in Locks(txn)
    ensures txn.PickupTxn? && txn.row.stayItem == Some(item) && BlockRow(txn.row.block) in Locks(txn)
  {
  }

  lemma NewHereMeans(db: Db, row: Pickup)
    requires NewHere(db.pickups, row)
    ensures Existing(db.pickups, row.stayItem).Some? ==>
              db.pickups[Existing(db.pickups, row.stayItem).value].block != row.block
  {
  }

  lemma LockingPickup(s: Sys, t: nat)
    requires SysOk(s) && t in s.txns && s.txns[t].PickupTxn? && s.txns[t].pickup.LockingNights?
    ensures NewHere(s.db.pickups, s.txns[t].row) && BlockRow(s.txns[t].row.block) in Locks(s.txns[t])
  {
    assert TxnOk(s.db, s.txns[t]);
  }

  /**
   * A pickup can only meet the unique index on active stay items because of another block: a pickup
   * of the same item on its own block is answered as a repetition before, since the header orders the two.
   */
  lemma ConflictIsOnAnotherBlock(s: Sys, t: nat, u: nat)
    requires SysOk(s) && t in s.txns && s.txns[t].PickupTxn? && s.txns[t].pickup.LockingNights?
    ensures var row := s.txns[t].row;
            var repeated := Existing(s.db.pickups, row.stayItem);
            && (repeated.Some? ==> s.db.pickups[repeated.value].block != row.block)
            && (u in s.txns && u != t && row.stayItem.Some? && StayKey(row.stayItem.value) in Locks(s.txns[u]) ==>
                  s.txns[u].PickupTxn? && s.txns[u].row.stayItem == row.stayItem && s.txns[u].row.block != row.block)
  {
    var row := s.txns[t].row;
    LockingPickup(s, t);
    NewHereMeans(s.db, row);
    if u in s.txns && u != t && row.stayItem.Some? && StayKey(row.stayItem.value) in Locks(s.txns[u]) {
      HolderOfStayKey(s.txns[u], row.stayItem.value);
      assert Apart(s.txns[t], s.txns[u]);
    }
  }
}
