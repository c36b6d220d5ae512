// CronDates: written schedules on the calendar - which dates, hours and minutes
// they fire at, in the terms of the terms and of the date itself.

module CronDates {
  import opened Text
  import opened Numerals
  import opened CronFields
  import opened Calendar
  import opened CronSearch
  import opened CronExpressions

  // ---- what a term selects ---------------------------------------------------

  /** v is start, or start and some whole steps more. */
  ghost predicate IsStep(start: int, step: int, v: int) {
    step >= 1 && exists k: nat :: v == start + k * step
  }

  /** What a term selects of a field that runs from lo to hi. */
  ghost predicate Selects(t: Term, lo: int, hi: int, v: int) {
    match t
    case Every => lo <= v <= hi
    case EveryStep(step) => v <= hi && IsStep(lo, step, v)
    case One(n) => v == n
    case From(n, step) => v <= hi && IsStep(n, step, v)
    case Between(a, b) => a <= v <= b
    case BetweenStep(a, b, step) => v <= b && IsStep(a, step, v)
  }

  ghost predicate AnySelects(ts: seq<Term>, lo: int, hi: int, v: int) {
    exists j :: 0 <= j < |ts| && Selects(ts[j], lo, hi, v)
  }

  /** The field's bounds as people know them: minute, hour, day of month, month, day of week. */
  function Lowest(index: nat): int {
    if index == 2 || index == 3 then 1 else 0
  }

  function Highest(index: nat): int {
    match index
    case 0 => 59
    case 1 => 23
    case 2 => 31
    case 3 => 12
    case _ => 6
  }

  lemma StepIs(lo: int, hi: int, step: int, v: int)
    ensures Holds(Progression(lo, hi, step), v) <==> v <= hi && IsStep(lo, step, v)
  {
    if Holds(Progression(lo, hi, step), v) {
      var k := (v - lo) / step;
      assert v == lo + k * step;
    }
    if v <= hi && IsStep(lo, step, v) {
      var k: nat :| v == lo + k * step;
      WholeSteps(k, step);
    }
  }

  lemma WholeSteps(k: nat, step: int)
    requires step >= 1
    ensures k * step >= 0 && (k * step) % step == 0
  {
    var q, r := (k * step) / step, (k * step) % step;
    assert k * step == q * step + r;
    var rest := k - q;
    assert rest * step == r;
    assert rest >= 1 ==> rest * step >= step;
    assert rest <= -1 ==> rest * step <= -step;
  }

  lemma SelectsIs(t: Term, index: nat, v: int)
    requires index < 5
    ensures Holds(TermMeans(t, index), v) <==> Selects(t, Lowest(index), Highest(index), v)
  {
    hide IsStep;
    var p := TermMeans(t, index);
    StepIs(p.lo, p.hi, p.step, v);
    assert BOUNDS[index] == (Lowest(index), Highest(index));
    ByOnes(p.lo, v);
  }

  lemma ByOnes(lo: int, v: int)
    ensures IsStep(lo, 1, v) <==> lo <= v
  {
    if lo <= v {
      var k: nat := v - lo;
      assert v == lo + k * 1;
    }
  }

  lemma AnySelectsIs(ts: seq<Term>, index: nat, v: int)
    requires index < 5
    ensures Accepts(ts, index, v) <==> AnySelects(ts, Lowest(index), Highest(index), v)
  {
    hide Holds, TermMeans, Selects;
    forall j | 0 <= j < |ts| ensures Holds(TermMeans(ts[j], index), v) <==> Selects(ts[j], Lowest(index), Highest(index), v) {
      SelectsIs(ts[j], index, v);
    }
  }

  // ---- minutes of dates ------------------------------------------------------

  /** A date, an hour and a minute that a clock can show. */
  predicate OnTheClock(d: Date, hour: int, minute: int) {
    IsDate(d) && 0 <= hour < 24 && 0 <= minute < 60
  }

  /** That minute, counted from 0001-01-01T00:00. */
  function At(d: Date, hour: int, minute: int): int
    requires OnTheClock(d, hour, minute)
  {
    DayNumber(d) * 1440 + hour * 60 + minute
  }

  lemma AtReads(d: Date, hour: int, minute: int)
    requires OnTheClock(d, hour, minute)
    ensures var m := At(d, hour, minute);
      DateOf(DayOf(m)) == d && DayOf(m) == DayNumber(d) && HourOf(m) == hour && MinuteOf(m) == minute
  {
    hide DateOf, DayNumber;
    var day := DayNumber(d);
    DayAndRest(day, hour * 60 + minute);
    HourAndRest(hour, minute);
    HourAndRest(day * 24 + hour, minute);
    assert At(d, hour, minute) == (day * 24 + hour) * 60 + minute;
    DatesInOrder(DateOf(day), d);
  }

  /** Every minute is some date's. */
  lemma EveryMinuteIsAt(m: int) returns (d: Date, hour: int, minute: int)
    ensures OnTheClock(d, hour, minute) && At(d, hour, minute) == m
  {
    hide DateOf, DayNumber;
    ClockReading(m);
    d, hour, minute := DateOf(DayOf(m)), HourOf(m), MinuteOf(m);
  }

  /** The day of the week, Sunday 0: 1970-01-01 was a Thursday. */
  function DayOfWeek(d: Date): int
    requires IsDate(d)
  {
    (DayNumber(d) - DayNumber(Date(1970, 1, 1)) + 4) % 7
  }

  lemma WeekdayIs(d: Date)
    requires IsDate(d)
    ensures Weekday(DayNumber(d)) == DayOfWeek(d)
  {
    hide DateOf, DayNumber;
    EpochIsAThursday();
    WeeksDoNotMatter(DayNumber(d) - EPOCH_DAY + 4, 102737);
  }

  lemma WeeksDoNotMatter(day: int, weeks: int)
    ensures (day + 7 * weeks) % 7 == day % 7
  {
  }

  /** The schedule fires at this date, hour and minute: each is selected in its own field. */
  ghost predicate FiresAt(fs: seq<seq<Term>>, d: Date, hour: int, minute: int)
    requires IsSchedule(fs) && IsDate(d)
  {
    AnySelects(fs[0], 0, 59, minute) && AnySelects(fs[1], 0, 23, hour) && AnySelects(fs[2], 1, 31, d.day) &&
    AnySelects(fs[3], 1, 12, d.month) && AnySelects(fs[4], 0, 6, DayOfWeek(d))
  }

  lemma FiresIs(fs: seq<seq<Term>>, d: Date, hour: int, minute: int)
    requires IsSchedule(fs) && OnTheClock(d, hour, minute)
    ensures Fires(fs, At(d, hour, minute)) <==> FiresAt(fs, d, hour, minute)
  {
    hide Accepts, AnySelects, DateOf, DayNumber, At, Weekday, DayOfWeek, DayOf, HourOf, MinuteOf;
    var m := At(d, hour, minute);
    AtReads(d, hour, minute);
    WeekdayIs(d);
    assert FieldValue(m, 0) == minute && FieldValue(m, 1) == hour && FieldValue(m, 2) == d.day;
    assert FieldValue(m, 3) == d.month && FieldValue(m, 4) == DayOfWeek(d);
    AnySelectsIs(fs[0], 0, minute);
    AnySelectsIs(fs[1], 1, hour);
    AnySelectsIs(fs[2], 2, d.day);
    AnySelectsIs(fs[3], 3, d.month);
    AnySelectsIs(fs[4], 4, DayOfWeek(d));
  }

  /**
   * A written schedule matches a minute exactly when the minute, the hour, the
   * day of the month, the month and the day of the week of that minute's date are
   * each selected by a term of their own field.
   */
  lemma WrittenSchedulesMatchDates(expr: string, fs: seq<seq<Term>>, lead: string, gaps: seq<string>, trail: string,
                                   d: Date, hour: int, minute: int)
    requires Writes(expr, fs, lead, gaps, trail) && OnTheClock(d, hour, minute)
    ensures IsSchedule(fs) && (CronMatches(expr, At(d, hour, minute)) <==> FiresAt(fs, d, hour, minute))
  {
    hide Writes, CronMatches, Fires, FiresAt, At, IsSchedule;
    WrittenIsSchedule(expr, fs, lead, gaps, trail);
    WrittenSchedulesMatch(expr, fs, lead, gaps, trail, At(d, hour, minute));
    FiresIs(fs, d, hour, minute);
  }

  /** No date, hour and minute strictly between two minutes is one the schedule fires at. */
  ghost predicate QuietBetween(fs: seq<seq<Term>>, from: int, to: int)
    requires IsSchedule(fs)
  {
    forall d, hour, minute :: OnTheClock(d, hour, minute) && from < At(d, hour, minute) < to ==> !FiresAt(fs, d, hour, minute)
  }

  lemma QuietIs(fs: seq<seq<Term>>, from: int, to: int)
    requires IsSchedule(fs) && forall v :: from < v < to ==> !Fires(fs, v)
    ensures QuietBetween(fs, from, to)
  {
    hide Fires, FiresAt, At;
    forall d, hour, minute | OnTheClock(d, hour, minute) && from < At(d, hour, minute) < to ensures !FiresAt(fs, d, hour, minute) {
      FiresIs(fs, d, hour, minute);
    }
  }

  /** The schedule fires at the minute u. */
  ghost predicate FiresOn(fs: seq<seq<Term>>, u: int)
    requires IsSchedule(fs)
  {
    exists d, hour, minute :: OnTheClock(d, hour, minute) && At(d, hour, minute) == u && FiresAt(fs, d, hour, minute)
  }

  lemma FiresOnIs(fs: seq<seq<Term>>, u: int)
    requires IsSchedule(fs) && Fires(fs, u)
    ensures FiresOn(fs, u)
  {
    hide Fires, FiresAt, At;
    var d, hour, minute := EveryMinuteIsAt(u);
    FiresIs(fs, d, hour, minute);
  }

  /**
   * The next run of a written schedule is the first minute after the given one,
   * in the seven days that follow, at whose date, hour and minute it fires; and
   * so, backwards, is the previous run.
   */
  lemma WrittenRunsAreOnTheCalendar(expr: string, fs: seq<seq<Term>>, lead: string, gaps: seq<string>, trail: string, from: int)
    requires Writes(expr, fs, lead, gaps, trail)
    ensures IsSchedule(fs)
    ensures match NextRun(expr, from)
      case Some(u) => from < u <= from + 7 * 24 * 60 && FiresOn(fs, u) && QuietBetween(fs, from, u)
      case None => QuietBetween(fs, from, from + 7 * 24 * 60 + 1)
    ensures match PrevRun(expr, from)
      case Some(u) => from - 7 * 24 * 60 <= u < from && FiresOn(fs, u) && QuietBetween(fs, u, from)
      case None => QuietBetween(fs, from - 7 * 24 * 60 - 1, from)
  {
    hide Writes, CronMatches, Fires, FiresOn, QuietBetween, NextRun, PrevRun, IsValidCron, IsSchedule;
    WrittenIsSchedule(expr, fs, lead, gaps, trail);
    WrittenSchedulesAreValid(expr, fs, lead, gaps, trail);
    forall v ensures CronMatches(expr, v) <==> Fires(fs, v) { WrittenSchedulesMatch(expr, fs, lead, gaps, trail, v); }
    NextRunIsLeast(expr, from);
    PrevRunIsGreatest(expr, from);
    if NextRun(expr, from).Some? {
      FiresOnIs(fs, NextRun(expr, from).value);
      QuietIs(fs, from, NextRun(expr, from).value);
    } else {
      QuietIs(fs, from, from + 7 * 24 * 60 + 1);
    }
    if PrevRun(expr, from).Some? {
      FiresOnIs(fs, PrevRun(expr, from).value);
      QuietIs(fs, PrevRun(expr, from).value, from);
    } else {
      QuietIs(fs, from - 7 * 24 * 60 - 1, from);
    }
  }

  // ---- one day of the month --------------------------------------------------

  /** A time of day on one day of every month: "minute hour day * *". */
  function OnTheDay(minute: nat, hour: nat, day: nat): seq<seq<Term>> {
    [[One(minute)], [One(hour)], [One(day)], [Every], [Every]]
  }

  lemma OneSelects(n: nat, lo: int, hi: int, v: int)
    ensures AnySelects([One(n)], lo, hi, v) <==> v == n
    ensures AnySelects([Every], lo, hi, v) <==> lo <= v <= hi
  {
    assert [One(n)][0] == One(n) && [Every][0] == Every;
  }

  lemma OnTheDayFires(d: Date, hour: nat, minute: nat, day: nat, d': Date, hour': int, minute': int)
    requires OnTheClock(d, hour, minute) && OnTheClock(d', hour', minute') && d.day == day
    ensures FiresAt(OnTheDay(minute, hour, day), d, hour, minute)
    ensures FiresAt(OnTheDay(minute, hour, day), d', hour', minute') ==> d'.day == day && hour' == hour && minute' == minute
  {
    hide AnySelects, DayOfWeek;
    DayOfWeekIsOne(d);
    OneSelects(minute, 0, 59, minute); OneSelects(hour, 0, 23, hour); OneSelects(day, 1, 31, d.day);
    OneSelects(0, 1, 12, d.month); OneSelects(0, 0, 6, DayOfWeek(d));
    OneSelects(minute, 0, 59, minute'); OneSelects(hour, 0, 23, hour'); OneSelects(day, 1, 31, d'.day);
  }

  lemma DayOfWeekIsOne(d: Date)
    requires IsDate(d)
    ensures 0 <= DayOfWeek(d) <= 6
  {
    hide DayNumber;
  }

  /** In the twenty-four hours before such a minute the next run is that minute: nine o'clock on the fifteenth is not missed. */
  lemma TheDayOfTheMonthIsKept(expr: string, lead: string, gaps: seq<string>, trail: string, d: Date, hour: nat, minute: nat, from: int)
    requires OnTheClock(d, hour, minute) && Writes(expr, OnTheDay(minute, hour, d.day), lead, gaps, trail)
    requires At(d, hour, minute) - 1440 <= from < At(d, hour, minute)
    ensures NextRun(expr, from) == Some(At(d, hour, minute))
  {
    hide Writes, NextRun, PrevRun, FiresAt, DayNumber, OnTheDay, AnySelects, QuietBetween;
    var fs, due := OnTheDay(minute, hour, d.day), At(d, hour, minute);
    WrittenRunsAreOnTheCalendar(expr, fs, lead, gaps, trail, from);
    OnTheDayFires(d, hour, minute, d.day, d, hour, minute);
    match NextRun(expr, from)
    case None => NotQuiet(fs, from, from + 7 * 24 * 60 + 1, d, hour, minute);
    case Some(u) =>
      var d', hour', minute' :| OnTheClock(d', hour', minute') && At(d', hour', minute') == u && FiresAt(fs, d', hour', minute');
      OnTheDayFires(d, hour, minute, d.day, d', hour', minute');
      if u <= due { SameTimeOfDay(d, d', hour, minute); } else { NotQuiet(fs, from, u, d, hour, minute); }
  }

  lemma NotQuiet(fs: seq<seq<Term>>, from: int, to: int, d: Date, hour: int, minute: int)
    requires IsSchedule(fs) && OnTheClock(d, hour, minute) && from < At(d, hour, minute) < to && FiresAt(fs, d, hour, minute)
    ensures !QuietBetween(fs, from, to)
  {
    hide FiresAt;
  }

  lemma SameTimeOfDay(d: Date, d': Date, hour: int, minute: int)
    requires OnTheClock(d, hour, minute) && OnTheClock(d', hour, minute)
    requires At(d, hour, minute) - 1440 < At(d', hour, minute) <= At(d, hour, minute)
    ensures At(d', hour, minute) == At(d, hour, minute)
  {
    hide DayNumber;
  }

  // ---- months and keys -------------------------------------------------------

  /** Where the months of a year begin, and the next year after them. */
  lemma FirstsOfMonths(y: int)
    ensures var leap := if y % 4 == 0 && (y % 100 != 0 || y % 400 == 0) then 1 else 0;
      var first := DayNumber(Date(y, 1, 1));
      DayNumber(Date(y, 2, 1)) == first + 31 && DayNumber(Date(y, 3, 1)) == first + 59 + leap &&
      DayNumber(Date(y, 4, 1)) == first + 90 + leap && DayNumber(Date(y, 5, 1)) == first + 120 + leap &&
      DayNumber(Date(y, 6, 1)) == first + 151 + leap && DayNumber(Date(y, 7, 1)) == first + 181 + leap &&
      DayNumber(Date(y, 8, 1)) == first + 212 + leap && DayNumber(Date(y, 9, 1)) == first + 243 + leap &&
      DayNumber(Date(y, 10, 1)) == first + 273 + leap && DayNumber(Date(y, 11, 1)) == first + 304 + leap &&
      DayNumber(Date(y, 12, 1)) == first + 334 + leap && DayNumber(Date(y + 1, 1, 1)) == first + 365 + leap
  {
    NextYear(y);
    assert DaysBeforeMonth(y, 1) == 0 && DaysBeforeMonth(y + 1, 1) == 0;
    assert DaysBeforeMonth(y, 2) == 31;
    assert DaysBeforeMonth(y, 3) == DaysBeforeMonth(y, 2) + MonthLength(y, 2);
    assert DaysBeforeMonth(y, 4) == DaysBeforeMonth(y, 3) + 31;
    assert DaysBeforeMonth(y, 5) == DaysBeforeMonth(y, 4) + 30;
    assert DaysBeforeMonth(y, 6) == DaysBeforeMonth(y, 5) + 31;
    assert DaysBeforeMonth(y, 7) == DaysBeforeMonth(y, 6) + 30;
    assert DaysBeforeMonth(y, 8) == DaysBeforeMonth(y, 7) + 31;
    assert DaysBeforeMonth(y, 9) == DaysBeforeMonth(y, 8) + 31;
    assert DaysBeforeMonth(y, 10) == DaysBeforeMonth(y, 9) + 30;
    assert DaysBeforeMonth(y, 11) == DaysBeforeMonth(y, 10) + 31;
    assert DaysBeforeMonth(y, 12) == DaysBeforeMonth(y, 11) + 30;
  }

  lemma {:induction false} ValueOfFixed(n: nat, w: nat)
    requires n < Pow10(w)
    ensures Value(Fixed(n, w)) == n
  {
    if w > 0 {
      ValueOfFixed(n / 10, w - 1);
      assert Fixed(n, w)[..w - 1] == Fixed(n / 10, w - 1);
    }
  }

  /** The digits of s are those of n. */
  predicate Shows(s: string, n: int) {
    AllDigits(s) && Value(s) == n
  }

  lemma KeyParts(r: (nat, nat, nat, nat, nat))
    ensures var key := ShowReading(r);
      |key| == 16 && key[4] == '-' && key[7] == '-' && key[10] == 'T' && key[13] == ':' &&
      key[..4] == Fixed(r.0, 4) && key[5..7] == Fixed(r.1, 2) && key[8..10] == Fixed(r.2, 2) &&
      key[11..13] == Fixed(r.3, 2) && key[14..] == Fixed(r.4, 2)
  {
    hide Fixed;
  }

  /** The key of a minute shows its year, month, day, hour and minute, four digits and two, between fixed separators. */
  lemma KeyReadsBack(d: Date, hour: int, minute: int)
    requires OnTheClock(d, hour, minute) && 1000 <= d.year <= 9999
    ensures FourDigitYear(At(d, hour, minute))
    ensures var key := MinuteKey(At(d, hour, minute));
      |key| == 16 && key[4] == '-' && key[7] == '-' && key[10] == 'T' && key[13] == ':' &&
      Shows(key[..4], d.year) && Shows(key[5..7], d.month) && Shows(key[8..10], d.day) &&
      Shows(key[11..13], hour) && Shows(key[14..], minute)
  {
    hide DateOf, DayNumber, At, DayOf, HourOf, MinuteOf, MinuteKey, ShowReading, Fixed, Value, Pow10;
    AtReads(d, hour, minute);
    var m := At(d, hour, minute);
    KeyIsReading(m);
    KeyParts(Reading(m));
    Powers();
    ValueOfFixed(d.year, 4);
    ValueOfFixed(d.month, 2);
    ValueOfFixed(d.day, 2);
    ValueOfFixed(hour, 2);
    ValueOfFixed(minute, 2);
  }

  lemma TwoDigits(n: nat)
    requires n < 100
    ensures Fixed(n, 2) == [DigitChar(n / 10), DigitChar(n % 10)]
  {
    assert Fixed(n / 10, 1) == Fixed(n / 10 / 10, 0) + [DigitChar(n / 10)];
  }

  /** The key of seven past nine on the fifteenth of January 2026, in full. */
  lemma AKeyInFull(d: Date, m: int)
    requires d == Date(2026, 1, 15) && OnTheClock(d, 9, 7) && m == At(d, 9, 7)
    ensures FourDigitYear(m)
    ensures MinuteKey(m) == "2026-01-15T09:07"
  {
    hide DateOf, DayNumber, At, DayOf, HourOf, MinuteOf, MinuteKey, Fixed;
    AtReads(d, 9, 7);
    KeyIsReading(m);
    FourDigits(2026);
    TwoDigits(1);
    TwoDigits(15);
    TwoDigits(9);
    TwoDigits(7);
    assert Fixed(2026, 4) == "2026" && Fixed(1, 2) == "01" && Fixed(15, 2) == "15" && Fixed(9, 2) == "09" && Fixed(7, 2) == "07";
  }

  lemma FourDigits(n: nat)
    requires n < 10000
    ensures Fixed(n, 4) == [DigitChar(n / 1000), DigitChar(n / 100 % 10), DigitChar(n / 10 % 10), DigitChar(n % 10)]
  {
    assert Fixed(n, 4) == Fixed(n / 10, 3) + [DigitChar(n % 10)];
    assert Fixed(n / 10, 3) == Fixed(n / 10 / 10, 2) + [DigitChar(n / 10 % 10)];
    TwoDigits(n / 10 / 10);
    assert n / 10 / 10 == n / 100 && n / 100 / 10 == n / 1000;
  }

  /** The unix epoch is midnight of 1970-01-01 at no offset, and an hour's offset is an hour later on the clock. */
  lemma EpochIsMidnight(ms: int, offsetMinutes: int)
    ensures LocalMinute(0, 0) == At(Date(1970, 1, 1), 0, 0)
    ensures LocalMinute(ms, offsetMinutes) == LocalMinute(ms, 0) + offsetMinutes
  {
    hide DateOf;
    EpochIsAThursday();
  }
}
