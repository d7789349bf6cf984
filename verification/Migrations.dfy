/**
 * The migration runner: it applies, in journal order, the entries later than the latest one recorded,
 * each in a transaction of its own. A run can fail in any entry; the next one picks up from the table.
 */
module Migrations {
  import opened Options

  datatype Entry = Entry(tag: string, time: int, statements: seq<string>)

  /** Statements in effect, and the entries recorded, both in the order they were committed. */
  datatype Db = Db(schema: seq<string>, recorded: seq<Entry>)

  function Later(a: int, b: int): int {
    if a < b then b else a
  }

  /** The latest time recorded; zero where nothing is. */
  function LastTime(recorded: seq<Entry>): (last: int)
    ensures recorded == [] ==> last == 0
    ensures forall i :: 0 <= i < |recorded| ==> recorded[i].time <= last
    ensures recorded != [] ==> exists i :: 0 <= i < |recorded| && recorded[i].time == last
  {
    if recorded == [] then 0
    else if |recorded| == 1 then recorded[0].time
    else
      var n := |recorded| - 1;
      Later(LastTime(recorded[..n]), recorded[n].time)
  }

  function Commit(db: Db, e: Entry): Db {
    Db(db.schema + e.statements, db.recorded + [e])
  }

  /** The loop over the journal from entry `i`; applying entry `failure` fails. */
  function ApplyFrom(journal: seq<Entry>, i: nat, last: int, db: Db, failure: Option<nat>): Db
    requires i <= |journal|
    decreases |journal| - i
  {
    if i == |journal| then db
    else if journal[i].time <= last then ApplyFrom(journal, i + 1, last, db, failure)
    else if failure == Some(i) then db
    else ApplyFrom(journal, i + 1, last, Commit(db, journal[i]), failure)
  }

  function RunOnce(journal: seq<Entry>, db: Db, failure: Option<nat>): Db {
    ApplyFrom(journal, 0, LastTime(db.recorded), db, failure)
  }

  function RunAll(journal: seq<Entry>, db: Db, failures: seq<Option<nat>>): Db
    decreases |failures|
  {
    if failures == [] then db else RunAll(journal, RunOnce(journal, db, failures[0]), failures[1..])
  }

  const EMPTY := Db([], [])

  // ---------------------------------------------------------------- the runner

  class Runner {
    var schema: seq<string>
    var recorded: seq<Entry>

    function Contents(): Db
      reads this
    {
      Db(schema, recorded)
    }

    /** The statements and the record, or neither: `failing` is the step that raises, the insert being last. */
    method ApplyMigration(e: Entry, failing: Option<nat>) returns (ok: bool)
      modifies this
      ensures ok <==> failing.None? || failing.value > |e.statements|
      ensures Contents() == if ok then Commit(old(Contents()), e) else old(Contents())
    {
      var before := schema;
      for i := 0 to |e.statements|
        invariant schema == before + e.statements[..i] && recorded == old(recorded)
        invariant failing.Some? ==> i <= failing.value
      {
        if failing == Some(i) {
          schema := before;
          return false;
        }
        assert e.statements[..i + 1] == e.statements[..i] + [e.statements[i]];
        schema := schema + [e.statements[i]];
      }
      assert e.statements[..|e.statements|] == e.statements;
      if failing == Some(|e.statements|) {
        schema := before;
        return false;
      }
      recorded := recorded + [e];
      ok := true;
    }

    method Migrate(journal: seq<Entry>, failure: Option<(nat, nat)>) returns (ok: bool, applied: nat)
      requires failure.Some? && failure.value.0 < |journal| ==> failure.value.1 <= |journal[failure.value.0].statements|
      modifies this
      ensures Contents() == RunOnce(journal, old(Contents()), if failure.None? then None else Some(failure.value.0))
      ensures |recorded| == |old(recorded)| + applied
      ensures ok <==>
              (failure.Some? && failure.value.0 < |journal| ==>
                 journal[failure.value.0].time <= LastTime(old(recorded)))
    {
      ghost var entry := if failure.None? then None else Some(failure.value.0);
      var last := LastTime(recorded);
      applied, ok := 0, true;
      for i := 0 to |journal|
        invariant ApplyFrom(journal, i, last, Contents(), entry) == RunOnce(journal, old(Contents()), entry)
        invariant ok && |recorded| == |old(recorded)| + applied
        invariant failure.Some? && failure.value.0 < i ==> journal[failure.value.0].time <= last
      {
        if journal[i].time > last {
          var step := if failure.Some? && failure.value.0 == i then Some(failure.value.1) else None;
          ok := ApplyMigration(journal[i], step);
          if !ok {
            return;
          }
          applied := applied + 1;
        }
      }
    }
  }

  // ---------------------------------------------------------------- rising journals

  /** Times are positive and strictly increasing. */
  ghost predicate Rising(journal: seq<Entry>) {
    && (forall i :: 0 <= i < |journal| ==> journal[i].time > 0)
    && (forall i, j :: 0 <= i < j < |journal| ==> journal[i].time < journal[j].time)
  }

  function Statements(entries: seq<Entry>): seq<string> {
    if entries == [] then []
    else
      var n := |entries| - 1;
      Statements(entries[..n]) + entries[n].statements
  }

  /** The first `n` entries applied, each once and in order, and nothing else. */
  ghost predicate AppliedFirst(journal: seq<Entry>, db: Db, n: nat) {
    n <= |journal| && db.recorded == journal[..n] && db.schema == Statements(journal[..n])
  }

  lemma CommitNext(journal: seq<Entry>, db: Db, n: nat)
    requires AppliedFirst(journal, db, n) && n < |journal|
    ensures AppliedFirst(journal, Commit(db, journal[n]), n + 1)
  {
    assert journal[..n + 1] == journal[..n] + [journal[n]];
    assert journal[..n + 1][..n] == journal[..n];
  }

  /** From the first entry not recorded, the loop applies one after the other until it fails. */
  lemma {:induction false} ApplyRest(journal: seq<Entry>, i: nat, last: int, db: Db, failure: Option<nat>)
      returns (n: nat)
    requires Rising(journal) && AppliedFirst(journal, db, i)
    requires forall j :: i <= j < |journal| ==> journal[j].time > last
    ensures i <= n && AppliedFirst(journal, ApplyFrom(journal, i, last, db, failure), n)
    ensures n == |journal| <==> failure.None? || failure.value < i || failure.value >= |journal|
    ensures n < |journal| ==> failure == Some(n)
    decreases |journal| - i
  {
    if i == |journal| || failure == Some(i) {
      n := i;
    } else {
      CommitNext(journal, db, i);
      n := ApplyRest(journal, i + 1, last, Commit(db, journal[i]), failure);
    }
  }

  /** Entries recorded already are passed over. */
  lemma {:induction false} SkipRecorded(journal: seq<Entry>, i: nat, n: nat, last: int, db: Db, failure: Option<nat>)
    requires i <= n <= |journal| && forall j :: i <= j < n ==> journal[j].time <= last
    ensures ApplyFrom(journal, i, last, db, failure) == ApplyFrom(journal, n, last, db, failure)
    decreases n - i
  {
    if i < n {
      SkipRecorded(journal, i + 1, n, last, db, failure);
    }
  }

  lemma {:induction false} LastOfRising(journal: seq<Entry>, n: nat)
    requires Rising(journal) && n <= |journal|
    ensures LastTime(journal[..n]) == if n == 0 then 0 else journal[n - 1].time
  {
    if n > 1 {
      LastOfRising(journal, n - 1);
      assert journal[..n][..n - 1] == journal[..n - 1];
    }
  }

  /** A run goes on from where the table stands, and stops exactly at the entry it fails in. */
  lemma RunContinues(journal: seq<Entry>, db: Db, n: nat, failure: Option<nat>) returns (m: nat)
    requires Rising(journal) && AppliedFirst(journal, db, n)
    ensures n <= m && AppliedFirst(journal, RunOnce(journal, db, failure), m)
    ensures m == |journal| <==> failure.None? || failure.value < n || failure.value >= |journal|
    ensures m < |journal| ==> failure == Some(m)
  {
    LastOfRising(journal, n);
    var last := LastTime(db.recorded);
    SkipRecorded(journal, 0, n, last, db, failure);
    m := ApplyRest(journal, n, last, db, failure);
  }

  /** However many runs fail, and wherever, what is applied is a prefix of the journal. */
  lemma {:induction false} RunsApplyPrefix(journal: seq<Entry>, db: Db, n: nat, failures: seq<Option<nat>>)
      returns (m: nat)
    requires Rising(journal) && AppliedFirst(journal, db, n)
    ensures n <= m && AppliedFirst(journal, RunAll(journal, db, failures), m)
    decreases |failures|
  {
    if failures == [] {
      m := n;
    } else {
      m := RunContinues(journal, db, n, failures[0]);
      m := RunsApplyPrefix(journal, RunOnce(journal, db, failures[0]), m, failures[1..]);
    }
  }

  /** After any failed runs, a run without failure completes the journal, and the next applies nothing. */
  lemma CompletesAndRests(journal: seq<Entry>, failures: seq<Option<nat>>, failure: Option<nat>)
    requires Rising(journal)
    ensures AppliedFirst(journal, RunOnce(journal, RunAll(journal, EMPTY, failures), None), |journal|)
    ensures var done := RunOnce(journal, RunAll(journal, EMPTY, failures), None);
            RunOnce(journal, done, failure) == done
  {
    var n := RunsApplyPrefix(journal, EMPTY, 0, failures);
    var db := RunAll(journal, EMPTY, failures);
    var m := RunContinues(journal, db, n, None);
    var done := RunOnce(journal, db, None);
    var k := RunContinues(journal, done, |journal|, failure);
  }

  // ---------------------------------------------------------------- only rising journals are safe

  /** Whatever runs failed before, a run without failure leaves exactly the journal applied. */
  ghost predicate Safe(journal: seq<Entry>) {
    forall failures ::
      AppliedFirst(journal, RunOnce(journal, RunAll(journal, EMPTY, failures), None), |journal|)
  }

  function Before(journal: seq<Entry>, i: nat): int
    requires i <= |journal|
  {
    if i == 0 then 0 else journal[i - 1].time
  }

  lemma RisingNext(journal: seq<Entry>, n: nat)
    requires n < |journal| && Rising(journal[..n]) && Before(journal, n) < journal[n].time
    ensures Rising(journal[..n + 1])
  {
    forall i | 0 <= i < n
      ensures 0 < journal[i].time < journal[n].time
    {
      assert journal[..n][i].time <= journal[..n][n - 1].time;
    }
    forall i, j | 0 <= i < j <= n
      ensures journal[i].time < journal[j].time
    {
      assert j < n ==> journal[..n][i].time < journal[..n][j].time;
    }
  }

  lemma {:induction false} AtMostTheRest(journal: seq<Entry>, i: nat, last: int, db: Db)
    requires i <= |journal|
    ensures |ApplyFrom(journal, i, last, db, None).recorded| <= |db.recorded| + |journal| - i
    decreases |journal| - i
  {
    if i < |journal| {
      AtMostTheRest(journal, i + 1, last, db);
      AtMostTheRest(journal, i + 1, last, Commit(db, journal[i]));
    }
  }

  /** An entry no later than the latest one recorded is passed over. */
  lemma {:induction false} PassesOver(journal: seq<Entry>, j: nat, last: int, db: Db, i: nat)
    requires j <= i < |journal| && journal[i].time <= last
    ensures |ApplyFrom(journal, j, last, db, None).recorded| < |db.recorded| + |journal| - j
    decreases |journal| - j
  {
    if j == i {
      AtMostTheRest(journal, j + 1, last, db);
    } else {
      PassesOver(journal, j + 1, last, db, i);
      PassesOver(journal, j + 1, last, Commit(db, journal[j]), i);
    }
  }

  /** On an empty table, a run that fails in entry `i` has applied the positive entries before it. */
  lemma {:induction false} AppliedBeforeFailure(journal: seq<Entry>, j: nat, db: Db, i: nat)
    requires j <= i < |journal| && db.recorded == journal[..j] && forall k :: 0 <= k <= i ==> journal[k].time > 0
    ensures ApplyFrom(journal, j, 0, db, Some(i)).recorded == journal[..i]
    decreases i - j
  {
    if j < i {
      assert journal[..j + 1] == journal[..j] + [journal[j]];
      AppliedBeforeFailure(journal, j + 1, Commit(db, journal[j]), i);
    }
  }

  /** If the runner fails in an entry that is out of order, later runs pass over that entry for good. */
  lemma OutOfOrderIsLost(journal: seq<Entry>, i: nat) returns (failures: seq<Option<nat>>)
    requires i < |journal| && Rising(journal[..i]) && journal[i].time <= Before(journal, i)
    ensures |RunOnce(journal, RunAll(journal, EMPTY, failures), None).recorded| < |journal|
  {
    if journal[i].time <= 0 {
      failures := [];
      PassesOver(journal, 0, 0, EMPTY, i);
    } else {
      failures := [Some(i)];
      forall k | 0 <= k < i
        ensures 0 < journal[k].time <= Before(journal, i)
      {
        assert journal[..i][k].time <= journal[..i][i - 1].time;
      }
      var first := RunOnce(journal, EMPTY, Some(i));
      assert failures[1..] == [];
      assert RunAll(journal, EMPTY, failures) == RunAll(journal, first, []) == first;
      AppliedBeforeFailure(journal, 0, EMPTY, i);
      LastOfRising(journal[..i], i);
      assert journal[..i][..i] == journal[..i];
      var last := LastTime(first.recorded);
      SkipRecorded(journal, 0, i, last, first, None);
      PassesOver(journal, i, last, first, i);
    }
  }

  lemma {:induction false} FirstOutOfOrder(journal: seq<Entry>) returns (i: nat)
    requires !Rising(journal)
    ensures i < |journal| && Rising(journal[..i]) && journal[i].time <= Before(journal, i)
  {
    i := |journal| - 1;
    if !Rising(journal[..i]) {
      var n := i;
      i := FirstOutOfOrder(journal[..n]);
      assert journal[..n][..i] == journal[..i];
    } else if Before(journal, i) < journal[i].time {
      RisingNext(journal, i);
      assert journal[..i + 1] == journal;
    }
  }

  /** Recovery from failed runs is sound exactly for journals with positive, strictly increasing times. */
  lemma SafeExactlyWhenRising(journal: seq<Entry>)
    ensures Safe(journal) <==> Rising(journal)
  {
    if Rising(journal) {
      forall failures {
        CompletesAndRests(journal, failures, None);
      }
    } else {
      var i := FirstOutOfOrder(journal);
      var failures := OutOfOrderIsLost(journal, i);
      assert !AppliedFirst(journal, RunOnce(journal, RunAll(journal, EMPTY, failures), None), |journal|);
    }
  }
}
