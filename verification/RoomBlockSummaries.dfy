/** The derived views of a block: its totals, its pickup progress, and what a cutoff does to them. */
module RoomBlockSummaries {
  import opened Options
  import opened Calendar
  import opened Sums
  import opened RoomBlocks

  function HeldBy(nights: Nights, block: BlockId): int -> int {
    d => if NightKey(block, d) in nights then nights[NightKey(block, d)].held else 0
  }

  function PickedBy(nights: Nights, block: BlockId): int -> int {
    d => if NightKey(block, d) in nights then nights[NightKey(block, d)].picked else 0
  }

  function ReleasedBy(nights: Nights, block: BlockId): int -> int {
    d => if NightKey(block, d) in nights then nights[NightKey(block, d)].released else 0
  }

  function RemainingBy(nights: Nights, block: BlockId): int -> int {
    d => if NightKey(block, d) in nights then nights[NightKey(block, d)].Remaining() else 0
  }

  datatype Progress = NonePicked | Partial | Full

  function PickupProgress(picked: int, remaining: int): Progress {
    if picked == 0 then NonePicked else if remaining == 0 then Full else Partial
  }

  datatype Summary = Summary(
    status: BlockStatus, held: int, picked: int, released: int, remaining: int, progress: Progress)

  ghost function Summarize(db: Db, block: BlockId): Option<Summary> {
    if block !in db.blocks then None
    else
      var dates := NightDates(db.nights, block);
      var held := Sum(dates, HeldBy(db.nights, block));
      var picked := Sum(dates, PickedBy(db.nights, block));
      var released := Sum(dates, ReleasedBy(db.nights, block));
      var remaining := held - picked - released;
      Some(Summary(db.blocks[block], held, picked, released, remaining, PickupProgress(picked, remaining)))
  }

  /** Rooms times length of stay, over the active pickups of a block. */
  function RoomNights(ledger: seq<Pickup>, block: BlockId): int {
    if ledger == [] then 0
    else
      var p := ledger[|ledger| - 1];
      RoomNights(ledger[..|ledger| - 1], block)
      + if p.status.Active? && p.block == block then p.rooms * (p.checkOut - p.checkIn) else 0
  }

  function LedgerBy(ledger: seq<Pickup>, block: BlockId): int -> int {
    d => PickedOn(ledger, NightKey(block, d))
  }

  function ShareBy(p: Pickup, block: BlockId): int -> int {
    d => Share(p, NightKey(block, d))
  }

  /** Adding up the ledger night by night, or row by row, gives the same number. */
  lemma {:induction false} SumByNightIsSumByPickup(ledger: seq<Pickup>, block: BlockId, dates: set<Day>)
    requires forall i :: 0 <= i < |ledger| && ledger[i].block == block ==>
               ledger[i].checkIn < ledger[i].checkOut
               && forall d :: ledger[i].checkIn <= d < ledger[i].checkOut ==> d in dates
    ensures Sum(dates, LedgerBy(ledger, block)) == RoomNights(ledger, block)
  {
    if ledger == [] {
      SumZero(dates, LedgerBy(ledger, block));
    } else {
      var n := |ledger| - 1;
      var p := ledger[n];
      SumByNightIsSumByPickup(ledger[..n], block, dates);
      SumAdd(dates, LedgerBy(ledger[..n], block), ShareBy(p, block), LedgerBy(ledger, block));
      if p.status.Active? && p.block == block {
        SumOfRun(dates, p.checkIn, p.checkOut - p.checkIn, p.rooms, ShareBy(p, block));
      } else {
        SumZero(dates, ShareBy(p, block));
      }
    }
  }

  lemma NightsOfBlock(db: Db, block: BlockId)
    requires Valid(db)
    ensures forall d :: d in NightDates(db.nights, block) ==>
              NightKey(block, d) in db.nights && NightRowOk(db, NightKey(block, d))
  {
    forall d | d in NightDates(db.nights, block)
      ensures NightKey(block, d) in db.nights && NightRowOk(db, NightKey(block, d))
    {
      var k :| k in db.nights && k.block == block && k.date == d;
      assert k == NightKey(block, d);
    }
  }

  /** Every day of every ledger row of a block has its night. */
  lemma LedgerWithinNights(db: Db, block: BlockId)
    requires Valid(db)
    ensures forall i :: 0 <= i < |db.pickups| && db.pickups[i].block == block ==>
              db.pickups[i].checkIn < db.pickups[i].checkOut
              && forall d :: db.pickups[i].checkIn <= d < db.pickups[i].checkOut ==> d in NightDates(db.nights, block)
  {
    forall i | 0 <= i < |db.pickups| && db.pickups[i].block == block
      ensures db.pickups[i].checkIn < db.pickups[i].checkOut
              && forall d :: db.pickups[i].checkIn <= d < db.pickups[i].checkOut ==> d in NightDates(db.nights, block)
    {
      var p := db.pickups[i];
      assert PickupRowOk(db, p);
      forall d | p.checkIn <= d < p.checkOut
        ensures d in NightDates(db.nights, block)
      {
        assert NightKey(block, d) in db.nights;
      }
    }
  }

  lemma PickedTotal(db: Db, block: BlockId)
    requires Valid(db)
    ensures Sum(NightDates(db.nights, block), PickedBy(db.nights, block)) == RoomNights(db.pickups, block)
  {
    var dates := NightDates(db.nights, block);
    NightsOfBlock(db, block);
    LedgerWithinNights(db, block);
    SumCongruent(dates, PickedBy(db.nights, block), LedgerBy(db.pickups, block));
    SumByNightIsSumByPickup(db.pickups, block, dates);
  }

  lemma RemainingTotal(nights: Nights, block: BlockId, dates: set<Day>)
    ensures Sum(dates, HeldBy(nights, block)) ==
            Sum(dates, PickedBy(nights, block)) + Sum(dates, ReleasedBy(nights, block)) + Sum(dates,
                RemainingBy(nights, block))
  {
    var picked, released := PickedBy(nights, block), ReleasedBy(nights, block);
    var used := (d: int) => picked(d) + released(d);
    SumAdd(dates, picked, released, used);
    SumAdd(dates, used, RemainingBy(nights, block), HeldBy(nights, block));
  }

  lemma TotalsNonNegative(db: Db, block: BlockId)
    requires Valid(db)
    ensures var dates := NightDates(db.nights, block);
            && Sum(dates, PickedBy(db.nights, block)) >= 0 && Sum(dates, ReleasedBy(db.nights, block)) >= 0
            && Sum(dates, RemainingBy(db.nights, block)) >= 0
  {
    var dates := NightDates(db.nights, block);
    NightsOfBlock(db, block);
    SumNonNegative(dates, PickedBy(db.nights, block));
    SumNonNegative(dates, ReleasedBy(db.nights, block));
    SumNonNegative(dates, RemainingBy(db.nights, block));
  }

  /**
   * Room-night conservation. The total remaining is the sum of what is left night by night, no total
   * is negative, and the total picked up is exactly the room nights of the active ledger rows.
   */
  lemma SummaryConserves(db: Db, block: BlockId)
    requires Valid(db) && block in db.blocks
    ensures var s := Summarize(db, block).value;
            && s.picked == RoomNights(db.pickups, block)
            && s.remaining == Sum(NightDates(db.nights, block), RemainingBy(db.nights, block))
            && s.held == RoomNights(db.pickups, block) + s.released + Sum(NightDates(db.nights, block),
                RemainingBy(db.nights, block))
            && s.held >= 0 && s.picked >= 0 && s.released >= 0 && s.remaining >= 0
  {
    PickedTotal(db, block);
    RemainingTotal(db.nights, block, NightDates(db.nights, block));
    TotalsNonNegative(db, block);
  }

  lemma {:induction false} SumNonNegative(s: set<int>, f: int -> int)
    requires forall x :: x in s ==> f(x) >= 0
    ensures Sum(s, f) >= 0
    ensures Sum(s, f) == 0 ==> forall x :: x in s ==> f(x) == 0
  {
    if s != {} {
      var x := Pick(s);
      SumTake(s, f, x);
      SumNonNegative(s - {x}, f);
      assert s == (s - {x}) + {x};
    }
  }

  lemma {:induction false} RoomNightsSign(ledger: seq<Pickup>, block: BlockId)
    requires forall i :: 0 <= i < |ledger| ==> ledger[i].rooms > 0 && ledger[i].checkIn < ledger[i].checkOut
    ensures RoomNights(ledger, block) >= 0
    ensures RoomNights(ledger, block) == 0 <==>
            forall i :: 0 <= i < |ledger| && ledger[i].block == block ==> ledger[i].status.Reversed?
  {
    if ledger != [] {
      var n := |ledger| - 1;
      RoomNightsSign(ledger[..n], block);
      var p := ledger[n];
      assert p.rooms * (p.checkOut - p.checkIn) > 0;
      assert forall i :: 0 <= i < n ==> ledger[..n][i] == ledger[i];
    }
  }

  /**
   * What the derived progress says about the tables: nothing is picked up exactly when the block has
   * no active ledger row, and it is full exactly when it has one and no night has a room left.
   */
  lemma ProgressMeaning(db: Db, block: BlockId)
    requires Valid(db) && block in db.blocks
    ensures var progress := Summarize(db, block).value.progress;
            var hasActive :=
              exists i :: 0 <= i < |db.pickups| && db.pickups[i].block == block && db.pickups[i].status.Active?;
            && (progress.NonePicked? <==> !hasActive)
            && (progress.Full? <==>
                hasActive && forall k :: k in db.nights && k.block == block ==> db.nights[k].Remaining() == 0)
  {
    SummaryConserves(db, block);
    assert forall i :: 0 <= i < |db.pickups| ==> PickupRowOk(db, db.pickups[i]);
    RoomNightsSign(db.pickups, block);
    var dates, left := NightDates(db.nights, block), RemainingBy(db.nights, block);
    NightsOfBlock(db, block);
    SumNonNegative(dates, left);
    if Sum(dates, left) == 0 {
      forall k | k in db.nights && k.block == block
        ensures db.nights[k].Remaining() == 0
      {
        assert k == NightKey(block, k.date) && k.date in dates;
        assert left(k.date) == 0;
      }
    }
    if forall k :: k in db.nights && k.block == block ==> db.nights[k].Remaining() == 0 {
      SumZero(dates, left);
    }
  }

  /**
   * Release accounting. The count a cutoff returns is the rise of the released total and the drop of
   * the remaining total; afterwards no night of the block has a room left, while the held and
   * picked-up totals, the other blocks and the ledger are as before.
   */
  lemma ReleaseAccounting(db: Db, block: BlockId)
    requires Valid(db) && block in db.blocks
    ensures var (db', outcome) := ReleaseBlock(db, block);
            var before, after := Summarize(db, block).value, Summarize(db', block).value;
            && outcome.CutOff? && outcome.releasedRooms == before.remaining
            && after == Summary(Released, before.held, before.picked, before.released + outcome.releasedRooms, 0,
                                PickupProgress(before.picked, 0))
            && db'.pickups == db.pickups && db'.nights.Keys == db.nights.Keys
            && (forall k :: k in db.nights && k.block == block ==>
                  db'.nights[k].Remaining() == 0 && db'.nights[k].picked == db.nights[k].picked
                      && db'.nights[k].held == db.nights[k].held)
            && (forall k :: k in db.nights && k.block != block ==> db'.nights[k] == db.nights[k])
  {
    var (db', outcome) := ReleaseBlock(db, block);
    forall k | k in db.nights
      ensures CheckNight(db.nights[k]) && k == NightKey(k.block, k.date)
    {
      assert NightRowOk(db, k);
    }
    ReleasedNights(db.nights, block);
    ReleasedSums(db.nights, block);
    SummaryConserves(db, block);
  }

  /** Cutoff on the nights: the block's are left without a room, the others as they were. */
  lemma ReleasedNights(nights: Nights, block: BlockId)
    requires forall k :: k in nights ==> CheckNight(nights[k])
    ensures var after := ReleaseNights(nights, block, NightDates(nights, block));
            && after.Keys == nights.Keys && NightDates(after, block) == NightDates(nights, block)
            && (forall k :: k in nights && k.block == block ==>
                  after[k] == nights[k].(released := nights[k].released + nights[k].Remaining()))
            && (forall k :: k in nights && k.block != block ==> after[k] == nights[k])
  {
    var dates := NightDates(nights, block);
    var after := ReleaseNights(nights, block, dates);
    assert after.Keys == nights.Keys;
    forall k | k in nights
      ensures k.block == block ==> after[k] == nights[k].(released := nights[k].released + nights[k].Remaining())
    {
      assert k == NightKey(k.block, k.date);
      assert k.block == block ==> k.date in dates;
    }
  }

  lemma ReleasedSums(nights: Nights, block: BlockId)
    requires forall k :: k in nights ==> CheckNight(nights[k])
    ensures var dates := NightDates(nights, block);
            var after := ReleaseNights(nights, block, dates);
            && Sum(dates, HeldBy(after, block)) == Sum(dates, HeldBy(nights, block))
            && Sum(dates, PickedBy(after, block)) == Sum(dates, PickedBy(nights, block))
            && Sum(dates, ReleasedBy(after, block))
                == Sum(dates, ReleasedBy(nights, block)) + ReleasedRooms(nights, block, dates)
            && ReleasedRooms(nights, block, dates) == Sum(dates, RemainingBy(nights, block))
  {
    var dates := NightDates(nights, block);
    var after := ReleaseNights(nights, block, dates);
    ReleasedNights(nights, block);
    forall d | d in dates
      ensures NightKey(block, d) in nights
    {
      var k :| k in nights && k.block == block && k.date == d;
      assert k == NightKey(block, d);
    }
    SumCongruent(dates, HeldBy(after, block), HeldBy(nights, block));
    SumCongruent(dates, PickedBy(after, block), PickedBy(nights, block));
    SumCongruent(dates, UnpickedBy(nights, block), RemainingBy(nights, block));
    SumAdd(dates, ReleasedBy(nights, block), UnpickedBy(nights, block), ReleasedBy(after, block));
  }

  /** A second cutoff right after the first hands nothing back and changes nothing. */
  lemma SecondReleaseIsIdle(db: Db, block: BlockId)
    requires Valid(db) && block in db.blocks
    ensures var once := ReleaseBlock(db, block).0;
            ReleaseBlock(once, block) == (once, CutOff(0, Released))
  {
    ReleaseAccounting(db, block);
    var once := ReleaseBlock(db, block).0;
    ReleaseKeepsValid(db, block);
    ReleaseAccounting(once, block);
    var twice := ReleaseBlock(once, block).0;
    assert twice.blocks == once.blocks;
    forall k | k in once.nights
      ensures twice.nights[k] == once.nights[k]
    {
      assert k in db.nights;
    }
    assert twice.nights == once.nights;
  }
}
