/**
 * Calendar dates as day numbers, and the half-open date range that both the room-block
 * service and the stay quoter walk one day at a time.
 */
module Calendar {
  import opened Options
  import Decimal

  type Day = int

  predicate IsLeap(year: nat) {
    year % 4 == 0 && (year % 100 != 0 || year % 400 == 0)
  }

  function DaysInMonth(year: nat, month: nat): (n: nat)
    requires 1 <= month <= 12
    ensures 28 <= n <= 31
  {
    if month == 2 then (if IsLeap(year) then 29 else 28)
    else if month in {4, 6, 9, 11} then 30
    else 31
  }

  /** Days of the years before `year`, counted from year 0. */
  function DaysBeforeYear(year: nat): nat {
    365 * year + (year + 3) / 4 - (year + 99) / 100 + (year + 399) / 400
  }

  function DaysBeforeMonth(year: nat, month: nat): nat
    requires 1 <= month <= 12
  {
    if month == 1 then 0 else DaysBeforeMonth(year, month - 1) + DaysInMonth(year, month - 1)
  }

  function DayNumber(year: nat, month: nat, day: nat): Day
    requires 1 <= month <= 12
  {
    DaysBeforeYear(year) + DaysBeforeMonth(year, month) + day - 1
  }

  /** The day a YYYY-MM-DD text names, or None where parsing it gives an invalid date. */
  function ParseIso(text: string): (day: Option<Day>)
    ensures day.Some? ==> forall i :: 0 <= i < |text| ==> text[i] == '-' || Decimal.IsDigit(text[i])
  {
    if |text| != 10 || text[4] != '-' || text[7] != '-' then None
    else if !Decimal.IsDigits(text[..4]) || !Decimal.IsDigits(text[5..7]) || !Decimal.IsDigits(text[8..]) then None
    else
      var year, month, day :=
        Decimal.Value(text[..4]), Decimal.Value(text[5..7]), Decimal.Value(text[8..]);
      assert forall i :: 0 <= i < 4 ==> text[i] == text[..4][i];
      assert forall i :: 5 <= i < 7 ==> text[i] == text[5..7][i - 5];
      assert forall i :: 8 <= i < 10 ==> text[i] == text[8..][i - 8];
      if !(1 <= month <= 12) || !(1 <= day <= DaysInMonth(year, month)) then None
      else Some(DayNumber(year, month, day))
  }

  lemma MonthsBeforeDecember(year: nat)
    ensures DaysBeforeMonth(year, 12) == 306 + DaysInMonth(year, 2)
  {
    var feb := DaysInMonth(year, 2);
    assert DaysBeforeMonth(year, 2) == 31;
    assert DaysBeforeMonth(year, 4) == 62 + feb;
    assert DaysBeforeMonth(year, 6) == 123 + feb;
    assert DaysBeforeMonth(year, 8) == 184 + feb;
    assert DaysBeforeMonth(year, 10) == 245 + feb;
  }

  /** Counting the multiples of 4, 100 and 400 goes up by one past each of them. */
  lemma FourthYears(year: nat)
    ensures (year + 4) / 4 - (year + 3) / 4 == if year % 4 == 0 then 1 else 0
  {
  }

  lemma HundredthYears(year: nat)
    ensures (year + 100) / 100 - (year + 99) / 100 == if year % 100 == 0 then 1 else 0
  {
  }

  lemma FourHundredthYears(year: nat)
    ensures (year + 400) / 400 - (year + 399) / 400 == if year % 400 == 0 then 1 else 0
  {
  }

  lemma HundredsAreFours(year: nat)
    ensures year % 400 == 0 ==> year % 100 == 0
    ensures year % 100 == 0 ==> year % 4 == 0
  {
    var fourHundreds, hundreds := year / 400, year / 100;
    assert year % 400 == 0 ==> year == 100 * (4 * fourHundreds);
    assert year % 100 == 0 ==> year == 4 * (25 * hundreds);
  }

  lemma YearLength(year: nat)
    ensures DaysBeforeYear(year + 1) == DaysBeforeYear(year) + 337 + DaysInMonth(year, 2)
  {
    FourthYears(year);
    HundredthYears(year);
    FourHundredthYears(year);
    HundredsAreFours(year);
  }

  /** The day numbers follow the calendar: the next date has the next number. */
  lemma NextDateNextNumber(year: nat, month: nat, day: nat)
    requires 1 <= month <= 12 && 1 <= day <= DaysInMonth(year, month)
    ensures day < DaysInMonth(year, month) ==>
              DayNumber(year, month, day + 1) == DayNumber(year, month, day) + 1
    ensures day == DaysInMonth(year, month) && month < 12 ==>
              DayNumber(year, month + 1, 1) == DayNumber(year, month, day) + 1
    ensures day == DaysInMonth(year, month) && month == 12 ==>
              DayNumber(year + 1, 1, 1) == DayNumber(year, month, day) + 1
  {
    MonthsBeforeDecember(year);
    YearLength(year);
  }

  lemma {:induction false} MonthsAreOrdered(year: nat, m: nat, n: nat)
    requires 1 <= m < n <= 12
    ensures DaysBeforeMonth(year, m) + DaysInMonth(year, m) <= DaysBeforeMonth(year, n)
  {
    if m < n - 1 {
      MonthsAreOrdered(year, m, n - 1);
    }
  }

  /** A date comes before the first day of the next year. */
  lemma WithinYear(year: nat, month: nat, day: nat)
    requires 1 <= month <= 12 && 1 <= day <= DaysInMonth(year, month)
    ensures DaysBeforeYear(year) <= DayNumber(year, month, day) < DaysBeforeYear(year + 1)
  {
    MonthsBeforeDecember(year);
    YearLength(year);
    if month < 12 {
      MonthsAreOrdered(year, month, 12);
    }
  }

  lemma {:induction false} YearsAreOrdered(y: nat, z: nat)
    requires y <= z
    ensures DaysBeforeYear(y) <= DaysBeforeYear(z)
    decreases z - y
  {
    if y < z {
      YearLength(y);
      YearsAreOrdered(y + 1, z);
    }
  }

  predicate DateBefore(y: nat, m: nat, d: nat, y': nat, m': nat, d': nat) {
    y < y' || (y == y' && (m < m' || (m == m' && d < d')))
  }

  lemma EarlierDateSmallerNumber(y: nat, m: nat, d: nat, y': nat, m': nat, d': nat)
    requires 1 <= m <= 12 && 1 <= d <= DaysInMonth(y, m) && 1 <= m' <= 12 && 1 <= d' <= DaysInMonth(y', m')
    requires DateBefore(y, m, d, y', m', d')
    ensures DayNumber(y, m, d) < DayNumber(y', m', d')
  {
    if y < y' {
      WithinYear(y, m, d);
      YearsAreOrdered(y + 1, y');
      WithinYear(y', m', d');
    } else if m < m' {
      MonthsAreOrdered(y, m, m');
    }
  }

  /** Dates are numbered in their order: different dates never share a number. */
  lemma NumbersKeepOrder(y: nat, m: nat, d: nat, y': nat, m': nat, d': nat)
    requires 1 <= m <= 12 && 1 <= d <= DaysInMonth(y, m) && 1 <= m' <= 12 && 1 <= d' <= DaysInMonth(y', m')
    ensures DayNumber(y, m, d) < DayNumber(y', m', d') <==> DateBefore(y, m, d, y', m', d')
    ensures DayNumber(y, m, d) == DayNumber(y', m', d') <==> y == y' && m == m' && d == d'
  {
    if DateBefore(y, m, d, y', m', d') {
      EarlierDateSmallerNumber(y, m, d, y', m', d');
    } else if DateBefore(y', m', d', y, m, d) {
      EarlierDateSmallerNumber(y', m', d', y, m, d);
    }
  }

  /** Every day from `from` up to, and not including, `to`. */
  function Days(from: Day, to: Day): (days: seq<Day>)
    ensures |days| == if from < to then to - from else 0
    ensures forall i :: 0 <= i < |days| ==> days[i] == from + i
  {
    if from < to then seq(to - from, i => from + i) else []
  }

  function DateRange(start: string, end: string): seq<Day> {
    var from, to := ParseIso(start), ParseIso(end);
    if from.None? || to.None? then [] else Days(from.value, to.value)
  }

  /** The loop behind the date range: one pass of the cursor per day. */
  method EachDateInRange(start: string, end: string) returns (dates: seq<Day>)
    ensures dates == DateRange(start, end)
    ensures forall d :: d in dates <==>
              ParseIso(start).Some? && ParseIso(end).Some? && ParseIso(start).value <= d < ParseIso(end).value
    ensures forall i, j :: 0 <= i < j < |dates| ==> dates[i] < dates[j]
  {
    dates := [];
    var from, to := ParseIso(start), ParseIso(end);
    if from.None? || to.None? {
      return;
    }
    var cursor := from.value;
    while cursor < to.value
      invariant from.value <= cursor
      invariant cursor <= to.value || cursor == from.value
      invariant dates == Days(from.value, cursor)
    {
      dates := dates + [cursor];
      cursor := cursor + 1;
    }
    if from.value < to.value {
      forall d | from.value <= d < to.value
        ensures d in dates
      {
        assert dates[d - from.value] == d;
      }
    }
  }
}
