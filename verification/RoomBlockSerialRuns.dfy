/**
 * The other half of serializability: every run of operations that each write something is the
 * committed history of some interleaving. The locks and checks of the step system refuse nothing
 * that the operations accept.
 */
module RoomBlockSerialRuns {
  import opened Options
  import opened Calendar
  import opened Sums
  import opened RoomBlocks
  import opened RoomBlockHistory
  import opened RoomBlockTransactions

  /** Some interleaving from quiet tables `start` ends in `s`, having committed `ops`. */
  ghost predicate Possible(start: Db, s: Sys, ops: seq<Op>) {
    exists states, steps ::
      && Interleaving(states, steps)
      && states[0] == Sys(start, map[]) && states[|steps|] == s
      && CommittedOps(states, steps) == ops
  }

  lemma PossibleIsOk(start: Db, s: Sys, ops: seq<Op>)
    requires Possible(start, s, ops)
    ensures SysOk(s) && s.db == Run(start, ops)
  {
    var states, steps :|
      && Interleaving(states, steps)
      && states[0] == Sys(start, map[]) && states[|steps|] == s
      && CommittedOps(states, steps) == ops;
    CommitsAreSerial(states, steps);
  }

  lemma PossibleAtStart(start: Db)
    requires Valid(start)
    ensures Possible(start, Sys(start, map[]), [])
  {
    var states: seq<Sys>, steps: seq<Step> := [Sys(start, map[])], [];
    assert Interleaving(states, steps) && CommittedOps(states, steps) == [];
  }

  lemma PossibleNext(start: Db, s: Sys, ops: seq<Op>, s': Sys, step: Step)
    requires Possible(start, s, ops) && Next(s, s', step)
    ensures Possible(start, s', ops + if step.Commit? then [OpOf(s.txns[step.t])] else [])
  {
    var states, steps :|
      && Interleaving(states, steps)
      && states[0] == Sys(start, map[]) && states[|steps|] == s
      && CommittedOps(states, steps) == ops;
    var states', steps' := states + [s'], steps + [step];
    var n := |steps|;
    assert states'[..n + 1] == states && steps'[..n] == steps;
    assert Interleaving(states', steps');
    assert CommittedOps(states', steps') == ops + if step.Commit? then [OpOf(s.txns[step.t])] else [];
    assert states'[0] == states[0] && states'[|steps'|] == s';
  }

  // ---------------------------------------------------------------- a transaction with no others running

  function Alone(db: Db, txn: Txn): Sys {
    Sys(db, map[0 := txn])
  }

  lemma AdvanceAlone(start: Db, ops: seq<Op>, db: Db, txn: Txn, next: Txn)
    requires Possible(start, Alone(db, txn), ops) && Advances(Alone(db, txn), 0, txn, next)
    ensures Possible(start, Alone(db, next), ops)
  {
    var s, s' := Alone(db, txn), Alone(db, next);
    assert s'.txns == s.txns[0 := next];
    PossibleNext(start, s, ops, s', Advance(0, next));
    assert ops + [] == ops;
  }

  lemma BeginAlone(start: Db, ops: seq<Op>, db: Db, txn: Txn)
    requires Possible(start, Sys(db, map[]), ops) && Begins(txn)
    ensures Possible(start, Alone(db, txn), ops)
  {
    var s, s' := Sys(db, map[]), Alone(db, txn);
    assert s'.txns == s.txns[0 := txn];
    PossibleNext(start, s, ops, s', Begin(0, txn));
    assert ops + [] == ops;
  }

  lemma CommitAlone(start: Db, ops: seq<Op>, db: Db, txn: Txn)
    requires Possible(start, Alone(db, txn), ops) && CanCommit(db, txn)
    ensures Possible(start, Sys(Apply(db, OpOf(txn)), map[]), ops + [OpOf(txn)])
  {
    var s := Alone(db, txn);
    PossibleIsOk(start, s, ops);
    assert TxnOk(db, s.txns[0]);
    CommitIsOneOperation(db, txn);
    var s' := Sys(Committed(db, txn), map[]);
    assert s'.txns == s.txns - {0};
    PossibleNext(start, s, ops, s', Commit(0));
  }

  lemma AloneIsOk(start: Db, ops: seq<Op>, db: Db, txn: Txn)
    requires Possible(start, Alone(db, txn), ops)
    ensures SysOk(Alone(db, txn)) && TxnOk(db, txn) && Valid(db)
  {
    PossibleIsOk(start, Alone(db, txn), ops);
    assert Alone(db, txn).txns[0] == txn;
  }

  // ---------------------------------------------------------------- each kind gets to its commit

  lemma SetNightsEnds(start: Db, ops: seq<Op>, db: Db, txn: Txn) returns (last: Txn)
    requires Possible(start, Alone(db, txn), ops)
    requires txn.SetNightsTxn? && txn.block in db.blocks && txn.at == |txn.rows|
    ensures Possible(start, Alone(db, last), ops) && CanCommit(db, last) && OpOf(last) == OpOf(txn)
  {
    last := txn;
    if !InsertsNothing(db, txn) {
      last := txn.(keyed := true);
      AdvanceAlone(start, ops, db, txn, last);
    }
  }

  lemma {:induction false} SetNightsAlone(start: Db, ops: seq<Op>, db: Db, txn: Txn) returns (last: Txn)
    requires Possible(start, Alone(db, txn), ops)
    requires txn.SetNightsTxn? && txn.block in db.blocks && UpsertAcceptable(db.nights, txn.block, txn.rows, {})
    requires txn.at <= |txn.rows|
    ensures Possible(start, Alone(db, last), ops) && CanCommit(db, last) && OpOf(last) == OpOf(txn)
    decreases |txn.rows| - txn.at
  {
    if txn.at == |txn.rows| {
      last := SetNightsEnds(start, ops, db, txn);
    } else {
      AloneIsOk(start, ops, db, txn);
      var k := NightKey(txn.block, txn.rows[txn.at].date);
      var night := Upserted(db.nights, k, txn.rows[txn.at].held);
      assert k in db.nights ==> NightRowOk(db, k);
      var next := txn.(at := txn.at + 1, buffer := txn.buffer[k := night]);
      AdvanceAlone(start, ops, db, txn, next);
      last := SetNightsAlone(start, ops, db, next);
    }
  }

  ghost predicate Holds(block: BlockId, dates: set<Day>, got: Nights) {
    forall d :: d in dates ==> NightKey(block, d) in got
  }

  lemma {:induction false} LockAlone(start: Db, ops: seq<Op>, db: Db, txn: Txn) returns (last: Txn)
    requires Possible(start, Alone(db, txn), ops)
    requires txn.PickupTxn? && txn.pickup.LockingNights?
    requires forall d :: d in txn.pickup.todo ==> NightKey(txn.row.block, d) in db.nights
    ensures Possible(start, Alone(db, last), ops) && last.PickupTxn?
    ensures last == txn.(pickup := last.pickup) && last.pickup.LockingNights? && last.pickup.todo == {}
    ensures Holds(txn.row.block, txn.pickup.todo, last.pickup.got)
    ensures txn.pickup.got.Keys <= last.pickup.got.Keys
    decreases |txn.pickup.todo|
  {
    var todo, got := txn.pickup.todo, txn.pickup.got;
    last := txn;
    if todo != {} {
      var d := Pick(todo);
      var k := NightKey(txn.row.block, d);
      var next := txn.(pickup := LockingNights(todo - {d}, got[k := db.nights[k]]));
      AdvanceAlone(start, ops, db, txn, next);
      last := LockAlone(start, ops, db, next);
    }
  }

  function HeldNights(db: Db, row: Pickup): set<Day> {
    set d | d in Days(row.checkIn, row.checkOut) && NightKey(row.block, d) in db.nights
  }

  lemma ReachNights(start: Db, ops: seq<Op>, db: Db, txn: Txn) returns (next: Txn)
    requires Possible(start, Alone(db, txn), ops) && txn.PickupTxn? && txn.pickup.PickupStart?
    requires txn.row.block in db.blocks && !IsClosed(db.blocks[txn.row.block])
    requires Existing(db.pickups, txn.row.stayItem).None?
    ensures next == txn.(pickup := LockingNights(HeldNights(db, txn.row), map[]))
    ensures Possible(start, Alone(db, next), ops)
  {
    var a, b := txn.(pickup := HeaderLocked), txn.(pickup := NotRepeated);
    next := txn.(pickup := LockingNights(HeldNights(db, txn.row), map[]));
    AdvanceAlone(start, ops, db, txn, a);
    AdvanceAlone(start, ops, db, a, b);
    AdvanceAlone(start, ops, db, b, next);
  }

  lemma InsertEnabled(db: Db, txn: Txn)
    requires txn.PickupTxn? && txn.pickup.LockingNights? && txn.pickup.todo == {} && Acceptable(db, txn.row)
    requires Holds(txn.row.block, HeldNights(db, txn.row), txn.pickup.got) && Current(db, txn.pickup.got)
    ensures PickupStep(Alone(db, txn), 0, txn, txn.(pickup := Inserted(txn.pickup.got)))
  {
    var row, got := txn.row, txn.pickup.got;
    forall d | row.checkIn <= d < row.checkOut
      ensures NightKey(row.block, d) in got && got[NightKey(row.block, d)].Remaining() >= row.rooms
    {
      assert Days(row.checkIn, row.checkOut)[d - row.checkIn] == d;
      assert d in HeldNights(db, row);
    }
  }

  lemma LockedIsCurrent(start: Db, ops: seq<Op>, db: Db, txn: Txn)
    requires Possible(start, Alone(db, txn), ops) && txn.PickupTxn? && txn.pickup.LockingNights?
    ensures Current(db, txn.pickup.got)
  {
    AloneIsOk(start, ops, db, txn);
  }

  lemma InsertAlone(start: Db, ops: seq<Op>, db: Db, txn: Txn) returns (last: Txn)
    requires Possible(start, Alone(db, txn), ops)
    requires txn.PickupTxn? && txn.pickup.LockingNights? && txn.pickup.todo == {} && Acceptable(db, txn.row)
    requires Holds(txn.row.block, HeldNights(db, txn.row), txn.pickup.got)
    ensures last == txn.(pickup := Inserted(txn.pickup.got))
    ensures Possible(start, Alone(db, last), ops)
  {
    LockedIsCurrent(start, ops, db, txn);
    InsertEnabled(db, txn);
    last := txn.(pickup := Inserted(txn.pickup.got));
    AdvanceAlone(start, ops, db, txn, last);
  }

  lemma PickupAlone(start: Db, ops: seq<Op>, db: Db, txn: Txn) returns (last: Txn)
    requires Possible(start, Alone(db, txn), ops) && txn.PickupTxn? && txn.pickup.PickupStart?
    requires Acceptable(db, txn.row)
    ensures Possible(start, Alone(db, last), ops) && CanCommit(db, last) && OpOf(last) == OpOf(txn)
  {
    var next := ReachNights(start, ops, db, txn);
    var locked := LockAlone(start, ops, db, next);
    last := InsertAlone(start, ops, db, locked);
  }

  /** With no other transaction in the way, the next night can be given back. */
  lemma GiveBackEnabled(db: Db, txn: Txn) returns (next: Txn)
    requires SysOk(Alone(db, txn)) && txn.ReverseTxn? && txn.reverse.GivingBack?
        && txn.reverse.next < txn.reverse.p.checkOut
    ensures ReverseStep(Alone(db, txn), 0, txn, next)
    ensures next.ReverseTxn? && next.reversal == txn.reversal && next.reverse.GivingBack?
    ensures next.reverse.p == txn.reverse.p && next.reverse.next == txn.reverse.next + 1
  {
    var p, d := txn.reverse.p, txn.reverse.next;
    ReversalNeverRefused(Alone(db, txn), 0);
    var k := NightKey(p.block, d);
    var night := db.nights[k].(picked := db.nights[k].picked - p.rooms);
    next := txn.(reverse := GivingBack(p, d + 1, txn.reverse.buffer[k := night]));
  }

  lemma ReverseCanCommit(db: Db, txn: Txn)
    requires TxnOk(db, txn) && txn.ReverseTxn? && txn.reverse.GivingBack? && txn.reverse.next >= txn.reverse.p.checkOut
    ensures CanCommit(db, txn)
  {
  }

  lemma {:induction false} GiveBackAlone(start: Db, ops: seq<Op>, db: Db, txn: Txn) returns (last: Txn)
    requires Possible(start, Alone(db, txn), ops) && txn.ReverseTxn? && txn.reverse.GivingBack?
    ensures Possible(start, Alone(db, last), ops) && CanCommit(db, last) && OpOf(last) == OpOf(txn)
    decreases txn.reverse.p.checkOut - txn.reverse.next
  {
    AloneIsOk(start, ops, db, txn);
    last := txn;
    if txn.reverse.next < txn.reverse.p.checkOut {
      var next := GiveBackEnabled(db, txn);
      AdvanceAlone(start, ops, db, txn, next);
      last := GiveBackAlone(start, ops, db, next);
    } else {
      ReverseCanCommit(db, txn);
    }
  }

  lemma {:induction false} ScanAlone(start: Db, ops: seq<Op>, db: Db, txn: Txn) returns (last: Txn)
    requires Possible(start, Alone(db, txn), ops) && txn.ReleaseTxn? && txn.release.ScanningNights?
    requires forall d :: d in txn.release.todo ==> NightKey(txn.block, d) in db.nights
    ensures Possible(start, Alone(db, last), ops) && CanCommit(db, last) && OpOf(last) == OpOf(txn)
    decreases |txn.release.todo|
  {
    last := txn;
    var todo := txn.release.todo;
    if todo != {} {
      var d := Pick(todo);
      var k := NightKey(txn.block, d);
      var next := txn.(release := ScanningNights(todo - {d}, txn.release.got[k := db.nights[k]]));
      AdvanceAlone(start, ops, db, txn, next);
      last := ScanAlone(start, ops, db, next);
    }
  }

  // ---------------------------------------------------------------- whole runs

  /** The operation writes something: it succeeds, and is no empty or repeated request. */
  ghost predicate Writes(db: Db, op: Op) {
    match op
    case SetNightsOp(block, rows) => rows != [] && SetNights(db, block, rows).1
    case PickupOp(id, input) => IsFresh(PickupRoomBlock(db, id, input).1)
    case ReverseOp(input) => ReversePickup(db, input).1.Reversal?
    case ReleaseOp(block) => block in db.blocks
  }

  ghost predicate AllWrite(db: Db, ops: seq<Op>)
    decreases |ops|
  {
    ops == [] || (Writes(db, ops[0]) && AllWrite(Apply(db, ops[0]), ops[1..]))
  }

  lemma OneMoreSetNights(start: Db, ops: seq<Op>, db: Db, block: BlockId, rows: seq<NightInput>)
    requires Possible(start, Sys(db, map[]), ops) && Valid(db) && Writes(db, SetNightsOp(block, rows))
    ensures Possible(start, Sys(Apply(db, SetNightsOp(block, rows)), map[]), ops + [SetNightsOp(block, rows)])
  {
    SetNightsAccepted(db, block, rows);
    var txn := SetNightsTxn(block, rows, 0, map[], false);
    BeginAlone(start, ops, db, txn);
    var last := SetNightsAlone(start, ops, db, txn);
    CommitAlone(start, ops, db, last);
  }

  lemma OneMorePickup(start: Db, ops: seq<Op>, db: Db, id: PickupId, input: PickupInput)
    requires Possible(start, Sys(db, map[]), ops) && Writes(db, PickupOp(id, input))
    ensures Possible(start, Sys(Apply(db, PickupOp(id, input)), map[]), ops + [PickupOp(id, input)])
  {
    var row := RequestedRow(id, input).value;
    var txn := PickupTxn(id, input, row, PickupStart);
    BeginAlone(start, ops, db, txn);
    PickupRowAccepted(db, row);
    var last := PickupAlone(start, ops, db, txn);
    CommitAlone(start, ops, db, last);
  }

  lemma OneMoreReversal(start: Db, ops: seq<Op>, db: Db, input: ReversalInput)
    requires Possible(start, Sys(db, map[]), ops) && Writes(db, ReverseOp(input))
    ensures Possible(start, Sys(Apply(db, ReverseOp(input)), map[]), ops + [ReverseOp(input)])
  {
    var txn := ReverseTxn(input, ReverseStart);
    BeginAlone(start, ops, db, txn);
    var p := db.pickups[ReversalTarget(db, input).value];
    var next := ReverseTxn(input, GivingBack(p, p.checkIn, map[]));
    AdvanceAlone(start, ops, db, txn, next);
    var last := GiveBackAlone(start, ops, db, next);
    CommitAlone(start, ops, db, last);
  }

  lemma OneMoreRelease(start: Db, ops: seq<Op>, db: Db, block: BlockId)
    requires Possible(start, Sys(db, map[]), ops) && block in db.blocks
    ensures Possible(start, Sys(Apply(db, ReleaseOp(block)), map[]), ops + [ReleaseOp(block)])
  {
    var a, b := ReleaseTxn(block, ReleaseStart), ReleaseTxn(block, BlockLocked);
    BeginAlone(start, ops, db, a);
    AdvanceAlone(start, ops, db, a, b);
    var dates := NightDates(db.nights, block);
    var c := ReleaseTxn(block, ScanningNights(dates, map[]));
    AdvanceAlone(start, ops, db, b, c);
    forall d | d in dates
      ensures NightKey(block, d) in db.nights
    {
      var k :| k in db.nights && k.block == block && k.date == d;
      assert k == NightKey(block, d);
    }
    var last := ScanAlone(start, ops, db, c);
    CommitAlone(start, ops, db, last);
  }

  lemma OneMoreOperation(start: Db, ops: seq<Op>, db: Db, op: Op)
    requires Possible(start, Sys(db, map[]), ops) && Writes(db, op)
    ensures Possible(start, Sys(Apply(db, op), map[]), ops + [op])
  {
    PossibleIsOk(start, Sys(db, map[]), ops);
    match op
    case SetNightsOp(block, rows) => OneMoreSetNights(start, ops, db, block, rows);
    case PickupOp(id, input) => OneMorePickup(start, ops, db, id, input);
    case ReverseOp(input) => OneMoreReversal(start, ops, db, input);
    case ReleaseOp(block) => OneMoreRelease(start, ops, db, block);
  }

  lemma FirstOfRun(start: Db, done: seq<Op>, db: Db, ops: seq<Op>) returns (next: Db)
    requires Possible(start, Sys(db, map[]), done) && ops != [] && AllWrite(db, ops)
    ensures AllWrite(next, ops[1..]) && Run(db, ops) == Run(next, ops[1..])
    ensures Possible(start, Sys(next, map[]), done + [ops[0]])
  {
    OneMoreOperation(start, done, db, ops[0]);
    next := Apply(db, ops[0]);
  }

  lemma OneThenRest(done: seq<Op>, ops: seq<Op>)
    requires ops != []
    ensures done + [ops[0]] + ops[1..] == done + ops
  {
  }

  lemma {:induction false} MoreOperations(start: Db, done: seq<Op>, db: Db, ops: seq<Op>)
    requires Possible(start, Sys(db, map[]), done) && AllWrite(db, ops)
    ensures Possible(start, Sys(Run(db, ops), map[]), done + ops)
    decreases |ops|
  {
    if ops == [] {
      assert done + [] == done;
    } else {
      var next := FirstOfRun(start, done, db, ops);
      MoreOperations(start, done + [ops[0]], next, ops[1..]);
      OneThenRest(done, ops);
    }
  }

  /** Every run of writing operations is what some interleaving of transactions commits. */
  lemma EverySerialRunHappens(start: Db, ops: seq<Op>)
    requires Valid(start) && AllWrite(start, ops)
    ensures Possible(start, Sys(Run(start, ops), map[]), ops)
  {
    PossibleAtStart(start);
    MoreOperations(start, [], start, ops);
    assert [] + ops == ops;
  }
}
