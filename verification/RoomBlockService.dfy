/**
 * The room-block service as it runs: it updates counters, pickup statuses and block headers row by
 * row. Each method is proved to have exactly the effect of the operation it implements, and on
 * consistent tables no row update of a pickup, a reversal or a cutoff is refused by a CHECK.
 */
module RoomBlockService {
  import opened Options
  import opened Calendar
  import opened Sums
  import opened RoomBlocks
  import Summaries = RoomBlockSummaries

  method PickOne<T>(s: set<T>) returns (x: T)
    requires s != {}
    ensures x in s
  {
    x :| x in s;
  }

  class Service {
    var blocks: map<BlockId, BlockStatus>
    var nights: Nights
    var pickups: seq<Pickup>

    constructor (headers: map<BlockId, BlockStatus>)
      ensures Tables() == Db(headers, map[], []) && Consistent()
    {
      blocks, nights, pickups := headers, map[], [];
    }

    function Tables(): Db
      reads this
    {
      Db(blocks, nights, pickups)
    }

    ghost predicate Consistent()
      reads this
    {
      Valid(Tables())
    }

    /** One UPDATE of a night row, refused when the new row breaks a CHECK constraint. */
    method UpdateNight(k: NightKey, night: Night) returns (accepted: bool)
      modifies this`nights
      ensures accepted <==> k !in old(nights) || CheckNight(night)
      ensures nights == if k in old(nights) && accepted then old(nights)[k := night] else old(nights)
    {
      accepted := k !in nights || CheckNight(night);
      if k in nights && accepted {
        nights := nights[k := night];
      }
    }

    method SetRoomBlockNights(block: BlockId, rows: seq<NightInput>) returns (accepted: bool)
      requires Consistent()
      modifies this`nights
      ensures Consistent()
      ensures (Tables(), accepted) == SetNights(old(Tables()), block, rows)
    {
      SetNightsKeepsValid(Tables(), block, rows);
      if |rows| == 0 {
        return true;
      }
      var staged, written := nights, {};
      for i := 0 to |rows|
        invariant UpsertNights(nights, block, rows, {}) == UpsertNights(staged, block, rows[i..], written)
      {
        assert rows[i..][0] == rows[i] && rows[i..][1..] == rows[i + 1..];
        var k := NightKey(block, rows[i].date);
        var night := if k in staged then staged[k].(held := rows[i].held) else Night(rows[i].held, 0, 0);
        if rows[i].date in written || !CheckNight(night) {
          return false;
        }
        staged, written := staged[k := night], written + {rows[i].date};
      }
      if block !in blocks {
        return false;
      }
      nights := staged;
      accepted := true;
    }

    method PickupRoomBlock(id: PickupId, input: PickupInput) returns (outcome: PickupOutcome)
      requires Consistent()
      modifies this`nights, this`pickups
      ensures Consistent()
      ensures (Tables(), outcome) == RoomBlocks.PickupRoomBlock(old(Tables()), id, input)
    {
      PickupKeepsValid(Tables(), id, input);
      var requested := RequestedRow(id, input);
      if requested.None? {
        return InvalidRange;
      }
      outcome := RecordPickup(requested.value);
    }

    /** The transaction: check the header, the repetition and every night, then count and insert. */
    method RecordPickup(row: Pickup) returns (outcome: PickupOutcome)
      requires Consistent() && row.rooms > 0 && row.checkIn < row.checkOut
      modifies this`nights, this`pickups
      ensures (Tables(), outcome) == PickupRow(old(Tables()), row)
    {
      PickupRowAccepted(Tables(), row);
      if row.block !in blocks {
        return PickupBlockNotFound;
      }
      if IsClosed(blocks[row.block]) {
        return BlockNotActive;
      }
      var existing := Existing(pickups, row.stayItem);
      if existing.Some? {
        return PickedUp(pickups[existing.value], true);
      }
      var dates := Days(row.checkIn, row.checkOut);
      for i := 0 to |dates|
        invariant FirstUnavailable(nights, row.block, dates, row.rooms)
               == FirstUnavailable(nights, row.block, dates[i..], row.rooms)
      {
        assert dates[i..][0] == dates[i] && dates[i..][1..] == dates[i + 1..];
        var k := NightKey(row.block, dates[i]);
        var remaining := if k in nights then nights[k].Remaining() else 0;
        if k !in nights || remaining < row.rooms {
          return NightUnavailable(dates[i], remaining, row.rooms);
        }
      }
      if FindId(pickups, row.id).Some? {
        return PickupIdTaken;
      }
      assert Acceptable(Tables(), row);
      AddToNights(row.block, row.checkIn, row.checkOut, row.rooms);
      pickups := pickups + [row];
      outcome := PickedUp(row, false);
    }

    /** The per-night UPDATE loop of a pickup (rooms > 0) or a reversal (rooms < 0). */
    method AddToNights(block: BlockId, from: Day, to: Day, rooms: int)
      requires from < to
      requires forall d :: from <= d < to ==>
                 var k := NightKey(block, d);
                 k in nights && CheckNight(nights[k].(picked := nights[k].picked + rooms))
      modifies this`nights
      ensures nights == AddPicked(old(nights), block, from, to, rooms)
    {
      var dates := Days(from, to);
      assert AddPicked(nights, block, from, from, rooms) == nights;
      for i := 0 to |dates|
        invariant nights == AddPicked(old(nights), block, from, from + i, rooms)
      {
        var k := NightKey(block, dates[i]);
        assert k in old(nights) && nights[k] == old(nights)[k];
        var accepted := UpdateNight(k, nights[k].(picked := nights[k].picked + rooms));
        assert accepted;
        assert nights == AddPicked(old(nights), block, from, from + i + 1, rooms);
      }
    }

    method ReverseRoomBlockPickup(input: ReversalInput) returns (outcome: ReversalOutcome)
      requires Consistent()
      modifies this`nights, this`pickups
      ensures Consistent()
      ensures (Tables(), outcome) == ReversePickup(old(Tables()), input)
    {
      ReverseKeepsValid(Tables(), input);
      var at := ReversalTarget(Tables(), input);
      if at.None? {
        return PickupNotFound;
      }
      GiveBack(at.value);
      outcome := Reversal(pickups[at.value]);
    }

    /** The writes of a reversal: every night of the row, then the row. */
    method GiveBack(i: nat)
      requires Consistent() && i < |pickups| && pickups[i].status.Active?
      modifies this`nights, this`pickups
      ensures Tables() == ReverseAt(old(Tables()), i)
    {
      var p := pickups[i];
      ReversalPassesChecks(Tables(), i);
      AddToNights(p.block, p.checkIn, p.checkOut, -p.rooms);
      pickups := pickups[i := p.(status := Reversed)];
    }

    /** One night of a cutoff; the nights in `done` have been released before it. */
    method ReleaseNight(block: BlockId, d: Day, ghost before: Db, ghost done: set<Day>) returns (rooms: nat)
      requires Valid(before) && d in NightDates(before.nights, block) && d !in done
      requires nights == ReleaseNights(before.nights, block, done)
      modifies this`nights
      ensures nights == ReleaseNights(before.nights, block, done + {d})
      ensures ReleasedRooms(before.nights, block, done + {d}) == ReleasedRooms(before.nights, block, done) + rooms
    {
      ReleaseStep(before, block, done, d);
      var k := NightKey(block, d);
      var unpicked := nights[k].Remaining();
      rooms := 0;
      if unpicked > 0 {
        rooms := unpicked;
        var accepted := UpdateNight(k, nights[k].(released := nights[k].released + unpicked));
        assert accepted;
      }
    }

    method ReleaseRoomBlockAtCutoff(block: BlockId) returns (outcome: CutoffOutcome)
      requires Consistent()
      modifies this`nights, this`blocks
      ensures Consistent()
      ensures (Tables(), outcome) == ReleaseBlock(old(Tables()), block)
    {
      ghost var all := NightDates(nights, block);
      ReleaseKeepsValid(Tables(), block);
      if block !in blocks {
        return CutoffBlockNotFound;
      }
      var todo := NightDates(nights, block);
      var releasedRooms := 0;
      assert all - todo == {};
      assert ReleaseNights(nights, block, {}) == nights;
      while todo != {}
        invariant todo <= all && blocks == old(blocks)
        invariant nights == ReleaseNights(old(nights), block, all - todo)
        invariant releasedRooms == ReleasedRooms(old(nights), block, all - todo)
        decreases todo
      {
        var d := PickOne(todo);
        assert all - todo + {d} == all - (todo - {d});
        var rooms := ReleaseNight(block, d, old(Tables()), all - todo);
        releasedRooms := releasedRooms + rooms;
        todo := todo - {d};
      }
      assert all - todo == all;
      blocks := blocks[block := Released];
      outcome := CutOff(releasedRooms, Released);
    }

    method SummarizeRoomBlock(block: BlockId) returns (summary: Option<Summaries.Summary>)
      ensures summary == Summaries.Summarize(Tables(), block)
    {
      if block !in blocks {
        return None;
      }
      var todo := NightDates(nights, block);
      ghost var all := todo;
      var held, picked, released := 0, 0, 0;
      assert all - todo == {};
      while todo != {}
        invariant todo <= all
        invariant held == Sum(all - todo, Summaries.HeldBy(nights, block))
        invariant picked == Sum(all - todo, Summaries.PickedBy(nights, block))
        invariant released == Sum(all - todo, Summaries.ReleasedBy(nights, block))
        decreases todo
      {
        var d := PickOne(todo);
        var night := nights[NightKey(block, d)];
        ghost var done := all - todo;
        SumTake(done + {d}, Summaries.HeldBy(nights, block), d);
        SumTake(done + {d}, Summaries.PickedBy(nights, block), d);
        SumTake(done + {d}, Summaries.ReleasedBy(nights, block), d);
        assert done + {d} - {d} == done && all - (todo - {d}) == done + {d};
        held, picked, released := held + night.held, picked + night.picked, released + night.released;
        todo := todo - {d};
      }
      assert all - todo == all;
      var remaining := held - picked - released;
      summary := Some(Summaries.Summary(
        blocks[block], held, picked, released, remaining, Summaries.PickupProgress(picked, remaining)));
    }
  }

  /** One more night of a cutoff: what is left there moves to the released counter, within the CHECKs. */
  lemma ReleaseStep(db: Db, block: BlockId, done: set<Day>, d: Day)
    requires Valid(db) && d in NightDates(db.nights, block) && d !in done
    ensures var k := NightKey(block, d);
            var now, next := ReleaseNights(db.nights, block, done), ReleaseNights(db.nights, block, done + {d});
            && k in now && now[k] == db.nights[k]
            && (var unpicked := now[k].Remaining();
                var night := now[k].(released := now[k].released + unpicked);
                && CheckNight(night)
                && next == (if unpicked > 0 then now[k := night] else now)
                && ReleasedRooms(db.nights, block, done + {d})
                   == ReleasedRooms(db.nights, block, done) + if unpicked > 0 then unpicked else 0)
  {
    var k := NightKey(block, d);
    assert k in db.nights && NightRowOk(db, k);
    SumTake(done + {d}, UnpickedBy(db.nights, block), d);
    assert done + {d} - {d} == done;
    var now, next := ReleaseNights(db.nights, block, done), ReleaseNights(db.nights, block, done + {d});
    var unpicked := now[k].Remaining();
    assert next == if unpicked > 0 then now[k := now[k].(released := now[k].released + unpicked)] else now;
  }

  /** Giving an active pickup's rooms back cannot drive any of its nights below zero. */
  lemma ReversalPassesChecks(db: Db, i: nat)
    requires Valid(db) && i < |db.pickups| && db.pickups[i].status.Active?
    ensures var p := db.pickups[i];
            && p.checkIn < p.checkOut
            && forall d :: p.checkIn <= d < p.checkOut ==>
                 var k := NightKey(p.block, d);
                 k in db.nights && CheckNight(db.nights[k].(picked := db.nights[k].picked - p.rooms))
  {
    var p := db.pickups[i];
    assert PickupRowOk(db, p);
    assert forall j :: 0 <= j < |db.pickups| ==> PickupRowOk(db, db.pickups[j]);
    forall d | p.checkIn <= d < p.checkOut
      ensures var k := NightKey(p.block, d);
              k in db.nights && CheckNight(db.nights[k].(picked := db.nights[k].picked - p.rooms))
    {
      var k := NightKey(p.block, d);
      assert NightRowOk(db, k);
      ShareWithinPickedOn(db.pickups, i, k);
    }
  }
}
