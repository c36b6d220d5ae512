// Calendar: local time as the collector's Date sees it at a fixed offset: the
// Gregorian calendar over minutes counted from 0001-01-01T00:00.

module Calendar {
  import opened Text

  // ---- years and months ------------------------------------------------------

  predicate IsLeap(y: int) {
    y % 4 == 0 && (y % 100 != 0 || y % 400 == 0)
  }

  function YearLength(y: int): int {
    if IsLeap(y) then 366 else 365
  }

  /** Days from 0001-01-01 to the first of January of year y. */
  function DaysBefore(y: int): int {
    365 * (y - 1) + (y - 1) / 4 - (y - 1) / 100 + (y - 1) / 400
  }

  lemma NextYear(y: int)
    ensures DaysBefore(y + 1) == DaysBefore(y) + YearLength(y)
  {
    assert y / 4 == (y - 1) / 4 + (if y % 4 == 0 then 1 else 0);
    assert y / 100 == (y - 1) / 100 + (if y % 100 == 0 then 1 else 0);
    assert y / 400 == (y - 1) / 400 + (if y % 400 == 0 then 1 else 0);
  }

  lemma {:induction false} YearsGrow(a: int, b: int)
    requires a <= b
    ensures DaysBefore(b) >= DaysBefore(a) + 365 * (b - a)
    decreases b - a
  {
    if a < b {
      YearsGrow(a, b - 1);
      NextYear(b - 1);
    }
  }

  /** The year that holds a day, searched from a year that does not start after it. */
  function YearFrom(day: int, y: int): (r: int)
    requires DaysBefore(y) <= day
    ensures DaysBefore(r) <= day < DaysBefore(r + 1)
    decreases day - DaysBefore(y)
  {
    NextYear(y);
    if day < DaysBefore(y + 1) then y else YearFrom(day, y + 1)
  }

  /** A year early enough: going back one year too many does no harm. */
  function EarlyYear(day: int): (y: int)
    ensures DaysBefore(y) <= day
  {
    if day >= 0 then 1
    else
      YearsGrow(1 + day, 1);
      1 + day
  }

  function YearOf(day: int): (y: int)
    ensures DaysBefore(y) <= day < DaysBefore(y + 1)
  {
    YearFrom(day, EarlyYear(day))
  }

  function MonthLength(y: int, m: int): int
    requires 1 <= m <= 12
  {
    if m == 2 then (if IsLeap(y) then 29 else 28)
    else if m == 4 || m == 6 || m == 9 || m == 11 then 30 else 31
  }

  /** Days of year y before month m. */
  function DaysBeforeMonth(y: int, m: int): (n: int)
    requires 1 <= m <= 13
    ensures n >= 0
  {
    if m == 1 then 0 else DaysBeforeMonth(y, m - 1) + MonthLength(y, m - 1)
  }

  lemma MonthsFillYear(y: int)
    ensures DaysBeforeMonth(y, 13) == YearLength(y)
  {
    assert DaysBeforeMonth(y, 2) == 31;
    assert DaysBeforeMonth(y, 3) == 31 + MonthLength(y, 2);
    assert DaysBeforeMonth(y, 4) == DaysBeforeMonth(y, 3) + 31;
    assert DaysBeforeMonth(y, 5) == DaysBeforeMonth(y, 4) + 30;
    assert DaysBeforeMonth(y, 6) == DaysBeforeMonth(y, 5) + 31;
    assert DaysBeforeMonth(y, 7) == DaysBeforeMonth(y, 6) + 30;
    assert DaysBeforeMonth(y, 8) == DaysBeforeMonth(y, 7) + 31;
    assert DaysBeforeMonth(y, 9) == DaysBeforeMonth(y, 8) + 31;
    assert DaysBeforeMonth(y, 10) == DaysBeforeMonth(y, 9) + 30;
    assert DaysBeforeMonth(y, 11) == DaysBeforeMonth(y, 10) + 31;
    assert DaysBeforeMonth(y, 12) == DaysBeforeMonth(y, 11) + 30;
    assert DaysBeforeMonth(y, 13) == DaysBeforeMonth(y, 12) + 31;
  }

  lemma {:induction false} MonthsGrow(y: int, a: int, b: int)
    requires 1 <= a <= b <= 13
    ensures DaysBeforeMonth(y, a) <= DaysBeforeMonth(y, b)
    ensures a < b ==> DaysBeforeMonth(y, a) + MonthLength(y, a) <= DaysBeforeMonth(y, b)
    decreases b
  {
    if a < b { MonthsGrow(y, a, b - 1); }
  }

  /** The month that holds a day of the year, searched from month m. */
  function MonthFrom(y: int, dayOfYear: int, m: int): (r: int)
    requires 1 <= m <= 12 && DaysBeforeMonth(y, m) <= dayOfYear < YearLength(y)
    ensures 1 <= r <= 12 && DaysBeforeMonth(y, r) <= dayOfYear < DaysBeforeMonth(y, r) + MonthLength(y, r)
    decreases 12 - m
  {
    MonthsFillYear(y);
    if dayOfYear < DaysBeforeMonth(y, m + 1) then m else MonthFrom(y, dayOfYear, m + 1)
  }

  // ---- dates -----------------------------------------------------------------

  datatype Date = Date(year: int, month: int, day: int)

  predicate IsDate(d: Date) {
    1 <= d.month <= 12 && 1 <= d.day <= MonthLength(d.year, d.month)
  }

  function DayNumber(d: Date): int
    requires IsDate(d)
  {
    DaysBefore(d.year) + DaysBeforeMonth(d.year, d.month) + d.day - 1
  }

  function DateOf(day: int): (d: Date)
    ensures IsDate(d) && DayNumber(d) == day
  {
    var y := YearOf(day);
    NextYear(y);
    var dayOfYear := day - DaysBefore(y);
    var m := MonthFrom(y, dayOfYear, 1);
    Date(y, m, dayOfYear - DaysBeforeMonth(y, m) + 1)
  }

  predicate Earlier(a: Date, b: Date) {
    a.year < b.year || (a.year == b.year && (a.month < b.month || (a.month == b.month && a.day < b.day)))
  }

  lemma DayWithinYear(d: Date)
    requires IsDate(d)
    ensures DaysBefore(d.year) <= DayNumber(d) < DaysBefore(d.year + 1)
  {
    NextYear(d.year);
    MonthsFillYear(d.year);
    MonthsGrow(d.year, d.month, 13);
  }

  lemma EarlierIsSmaller(a: Date, b: Date)
    requires IsDate(a) && IsDate(b) && Earlier(a, b)
    ensures DayNumber(a) < DayNumber(b)
  {
    DayWithinYear(a);
    DayWithinYear(b);
    if a.year < b.year {
      YearsGrow(a.year + 1, b.year);
    } else if a.month < b.month {
      MonthsGrow(a.year, a.month, b.month);
    }
  }

  /** The calendar is ordered as days are, so a day has one date and a date one day. */
  lemma DatesInOrder(a: Date, b: Date)
    requires IsDate(a) && IsDate(b)
    ensures DayNumber(a) < DayNumber(b) <==> Earlier(a, b)
    ensures DayNumber(a) == DayNumber(b) <==> a == b
  {
    if Earlier(a, b) { EarlierIsSmaller(a, b); }
    else if Earlier(b, a) { EarlierIsSmaller(b, a); }
    else { assert a == b; }
  }

  // ---- minutes ---------------------------------------------------------------

  const MINUTES_PER_DAY := 1440
  const MINUTES_PER_WEEK := 10080

  /** Day 0, 0001-01-01, was a Monday; 0 is Sunday. */
  function Weekday(day: int): int {
    (day + 1) % 7
  }

  function DayOf(minute: int): int {
    minute / MINUTES_PER_DAY
  }

  function HourOf(minute: int): int {
    (minute % MINUTES_PER_DAY) / 60
  }

  function MinuteOf(minute: int): int {
    minute % 60
  }

  /** The unix epoch, in days from 0001-01-01. */
  const EPOCH_DAY := 719162

  /** The local minute an instant in milliseconds falls in, at a fixed offset. */
  function LocalMinute(ms: int, offsetMinutes: int): int {
    ms / 60000 + offsetMinutes + EPOCH_DAY * MINUTES_PER_DAY
  }

  /** The instant a local minute starts. */
  function StartOf(minute: int, offsetMinutes: int): int {
    (minute - offsetMinutes - EPOCH_DAY * MINUTES_PER_DAY) * 60000
  }

  /** setSeconds(0, 0) goes back to the start of the minute an instant is in. */
  lemma StartIsWithinTheMinute(ms: int, offsetMinutes: int)
    ensures var m := LocalMinute(ms, offsetMinutes);
      StartOf(m, offsetMinutes) <= ms < StartOf(m + 1, offsetMinutes) && LocalMinute(StartOf(m, offsetMinutes), offsetMinutes) == m
  {
    assert ms == ms / 60000 * 60000 + ms % 60000;
  }

  /** The epoch is 1970-01-01, a Thursday. */
  lemma EpochIsAThursday()
    ensures DateOf(EPOCH_DAY) == Date(1970, 1, 1) && Weekday(EPOCH_DAY) == 4
  {
    hide DateOf;
    DatesInOrder(DateOf(EPOCH_DAY), Date(1970, 1, 1));
  }

  /** The clock reading of a minute is in range, and says which minute of the day it is. */
  lemma ClockReading(minute: int)
    ensures 0 <= HourOf(minute) < 24 && 0 <= MinuteOf(minute) < 60
    ensures minute == DayOf(minute) * MINUTES_PER_DAY + HourOf(minute) * 60 + MinuteOf(minute)
  {
    var r := minute % MINUTES_PER_DAY;
    assert minute == minute / MINUTES_PER_DAY * MINUTES_PER_DAY + r;
    assert r == r / 60 * 60 + r % 60;
    assert minute % 60 == r % 60 by {
      assert minute == 60 * (minute / MINUTES_PER_DAY * 24 + r / 60) + r % 60;
    }
  }
}
