/** Runs from empty tables that show where a promise about repeated requests ends. */
module RoomBlockWitnesses {
  import opened Options
  import opened Calendar
  import Decimal
  import opened RoomBlocks
  import opened RoomBlockHistory

  const FROM := "2026-01-01"
  const TO := "2026-01-02"

  /** One night of block `b` for stay item `s`. */
  const REQUEST := PickupInput("b", None, Some("s"), FROM, TO, None)

  const NEW_YEAR: Day := DayNumber(2026, 1, 1)

  const NIGHT := NightKey("b", NEW_YEAR)

  function Row(id: PickupId, status: PickupStatus): Pickup {
    Pickup(id, "b", None, Some("s"), NEW_YEAR, NEW_YEAR + 1, 1, status)
  }

  const START := Db(map["b" := Confirmed], map[], [])

  const SET_UP: seq<Op> := [SetNightsOp("b", [NightInput(NEW_YEAR, 1)]), PickupOp("p1", REQUEST)]

  lemma TwoDigits(s: string)
    requires |s| == 2 && Decimal.IsDigits(s)
    ensures Decimal.Value(s) == 10 * Decimal.DigitValue(s[0]) + Decimal.DigitValue(s[1])
  {
    assert s[..1] == [s[0]];
  }

  lemma YearNumeral()
    ensures Decimal.IsDigits("2026") && Decimal.Value("2026") == 2026
  {
    TwoDigits("20");
    assert "2026"[..3] == "202" && "202"[..2] == "20";
    assert Decimal.Value("202") == 202;
  }

  /** A day of January 2026, read from its text. */
  lemma JanuaryDay(text: string, day: nat)
    requires |text| == 10 && text[..8] == "2026-01-" && Decimal.IsDigits(text[8..])
    requires Decimal.Value(text[8..]) == day && 1 <= day <= 31
    ensures ParseIso(text) == Some(DayNumber(2026, 1, day))
  {
    assert text[..4] == text[..8][..4] == "2026" && text[5..7] == text[..8][5..7] == "01";
    assert text[4] == text[..8][4] && text[7] == text[..8][7];
    YearNumeral();
    TwoDigits("01");
  }

  lemma NewYearDates()
    ensures ParseIso(FROM) == Some(NEW_YEAR) && ParseIso(TO) == Some(NEW_YEAR + 1)
  {
    TwoDigits("01");
    TwoDigits("02");
    assert FROM[8..] == "01" && TO[8..] == "02";
    JanuaryDay(FROM, 1);
    JanuaryDay(TO, 2);
    NextDateNextNumber(2026, 1, 1);
  }

  lemma RequestedNights(id: PickupId)
    ensures RequestedRow(id, REQUEST) == Some(Row(id, Active))
  {
    NewYearDates();
  }

  /** Recording one room for one night, when it is free and the stay item is new. */
  lemma RecordOne(db: Db, row: Pickup, d: Day)
    requires row.block == "b" && row.checkIn == d && row.checkOut == d + 1 && row.rooms == 1
    requires db.blocks == map["b" := Confirmed] && db.nights == map[NightKey("b", d) := Night(1, 0, 0)]
    requires Existing(db.pickups, row.stayItem).None? && FindId(db.pickups, row.id).None?
    ensures PickupRow(db, row).0 == Db(db.blocks, map[NightKey("b", d) := Night(1, 1, 0)], db.pickups + [row])
  {
    PickupRowAccepted(db, row);
    forall x | d <= x < d + 1
      ensures NightKey("b", x) in db.nights
    {
      assert x == d;
    }
    assert AddPicked(db.nights, "b", d, d + 1, 1) == map[NightKey("b", d) := Night(1, 1, 0)];
  }

  lemma PickUp(db: Db, id: PickupId)
    requires db.blocks == map["b" := Confirmed] && db.nights == map[NIGHT := Night(1, 0, 0)]
    requires Existing(db.pickups, Some("s")).None? && FindId(db.pickups, id).None?
    ensures PickupRoomBlock(db, id, REQUEST).0
        == Db(db.blocks, map[NIGHT := Night(1, 1, 0)], db.pickups + [Row(id, Active)])
  {
    RequestedNights(id);
    RecordOne(db, Row(id, Active), NEW_YEAR);
  }

  lemma SetOne(db: Db, d: Day)
    requires db.blocks == map["b" := Confirmed] && db.nights == map[]
    ensures SetNights(db, "b", [NightInput(d, 1)]).0 == db.(nights := map[NightKey("b", d) := Night(1, 0, 0)])
  {
    var rows := [NightInput(d, 1)];
    assert rows[1..] == [];
    assert UpsertNights(map[], "b", rows, {}) == Some(map[NightKey("b", d) := Night(1, 0, 0)]);
  }

  lemma RunTwo(db: Db, first: Op, second: Op)
    ensures Run(db, [first, second]) == Apply(Apply(db, first), second)
  {
    assert [first, second][1..] == [second] && [second][1..] == [];
    var mid := Apply(db, first);
    assert Run(mid, [second]) == Run(Apply(mid, second), []);
  }

  lemma SetUp()
    ensures Run(START, SET_UP) == Db(map["b" := Confirmed], map[NIGHT := Night(1, 1, 0)], [Row("p1", Active)])
  {
    SetOne(START, NEW_YEAR);
    var held := START.(nights := map[NIGHT := Night(1, 0, 0)]);
    PickUp(held, "p1");
    RunTwo(START, SET_UP[0], SET_UP[1]);
    assert SET_UP == [SET_UP[0], SET_UP[1]];
  }

  const CUT_OFF: seq<Op> := SET_UP + [ReleaseOp("b")]

  lemma CutOffIs()
    ensures var later := Run(START, CUT_OFF);
            later.blocks == map["b" := Released] && later.pickups == [Row("p1", Active)]
  {
    SetUp();
    RunAppend(START, SET_UP, ReleaseOp("b"));
  }

  lemma ReleasedRefuses(db: Db, id: PickupId)
    requires db.blocks == map["b" := Released]
    ensures PickupRoomBlock(db, id, REQUEST) == (db, BlockNotActive)
  {
    RequestedNights(id);
  }

  /** Set a night, pick it up, cut off the block: the same pickup sent again is refused, though it is still active. */
  lemma ResentPickupCanBeRefused()
    ensures Initial(START)
    ensures var later := Run(START, CUT_OFF);
            && later.pickups == [Row("p1", Active)] && Row("p1", Active).stayItem == REQUEST.stayItem
            && PickupRoomBlock(later, "p2", REQUEST) == (later, BlockNotActive)
  {
    CutOffIs();
    ReleasedRefuses(Run(START, CUT_OFF), "p2");
  }

  const UNDO := ReversalInput(Some("b"), Some("p1"), None)

  lemma UndoOne(db: Db, d: Day)
    requires |db.pickups| == 1 && db.pickups[0].id == "p1" && db.pickups[0].block == "b" && db.pickups[0].status.Active?
    requires db.pickups[0].checkIn == d && db.pickups[0].checkOut == d + 1 && db.pickups[0].rooms == 1
    requires db.nights == map[NightKey("b", d) := Night(1, 1, 0)]
    ensures ReversePickup(db, UNDO).0 ==
            Db(db.blocks, map[NightKey("b", d) := Night(1, 0, 0)], [db.pickups[0].(status := Reversed)])
  {
    assert FindId(db.pickups, "p1") == Some(0);
    assert AddPicked(db.nights, "b", d, d + 1, -1) == map[NightKey("b", d) := Night(1, 0, 0)];
    assert db.pickups[0 := db.pickups[0].(status := Reversed)] == [db.pickups[0].(status := Reversed)];
  }

  const TURN: seq<Op> := SET_UP + [ReverseOp(UNDO)] + [PickupOp("p2", REQUEST)]

  lemma TurnIs()
    ensures Run(START, TURN) ==
            Db(map["b" := Confirmed], map[NIGHT := Night(1, 1, 0)], [Row("p1", Reversed), Row("p2", Active)])
  {
    SetUp();
    RunAppend(START, SET_UP, ReverseOp(UNDO));
    UndoOne(Run(START, SET_UP), NEW_YEAR);
    var undone := Db(map["b" := Confirmed], map[NIGHT := Night(1, 0, 0)], [Row("p1", Reversed)]);
    RunAppend(START, SET_UP + [ReverseOp(UNDO)], PickupOp("p2", REQUEST));
    NewId(undone.pickups);
    PickUp(undone, "p2");
  }

  lemma NewId(ledger: seq<Pickup>)
    requires |ledger| == 1 && ledger[0].id == "p1" && ledger[0].status.Reversed?
    ensures FindId(ledger, "p2").None? && Existing(ledger, Some("s")).None?
  {
    assert "p1"[1] != "p2"[1];
  }

  /** Set a night, pick it up, reverse by id, pick it up again: asked by stay item, the reader may miss the reversal. */
  lemma ReplayByStayItemCanMiss()
    ensures Initial(START)
    ensures var later, input := Run(START, TURN), ReversalInput(Some("b"), None, Some("s"));
            && later.pickups == [Row("p1", Reversed), Row("p2", Active)]
            && ReplayMayReturn(later, input, Reversal(Row("p1", Reversed)))
            && ReplayMayReturn(later, input, PickupNotFound)
  {
    TurnIs();
    var later, input := Run(START, TURN), ReversalInput(Some("b"), None, Some("s"));
    assert ReplayMatches(later.pickups[0], input) && ReplayMatches(later.pickups[1], input);
  }
}
