// CronSearch: the walk of collector/src/cron.ts over local minutes, its two
// directions, its weekly horizon, and the minute key.

module CronSearch {
  import opened Text
  import opened Numerals
  import opened CronFields
  import opened Calendar

  const HORIZON := 10080

  /** What a field of the expression is compared with at a minute. */
  function FieldValue(minute: int, index: nat): int
    requires index < 5
  {
    match index
    case 0 => MinuteOf(minute)
    case 1 => HourOf(minute)
    case 2 => DateOf(DayOf(minute)).day
    case 3 => DateOf(DayOf(minute)).month
    case _ => Weekday(DayOf(minute))
  }

  /** Every field matches; day of month and day of week must both. */
  predicate CronMatches(expr: string, minute: int) {
    |Fields(expr)| == 5 && forall i :: 0 <= i < 5 ==> FieldMatches(Fields(expr)[i], FieldValue(minute, i), i)
  }

  /** k minutes on from a minute, or back from it. */
  function Step(from: int, step: int, k: nat): int {
    if step == 1 then from + k else from - k
  }

  /** The first match among k, k + 1, ... minutes away, up to the horizon. */
  function Search(expr: string, from: int, step: int, k: nat): Option<int>
    decreases HORIZON - k
  {
    if k > HORIZON then None
    else if CronMatches(expr, Step(from, step, k)) then Some(Step(from, step, k))
    else Search(expr, from, step, k + 1)
  }

  function NextRun(expr: string, from: int): Option<int> {
    if IsValidCron(expr) then Search(expr, from, 1, 1) else None
  }

  function PrevRun(expr: string, from: int): Option<int> {
    if IsValidCron(expr) then Search(expr, from, -1, 1) else None
  }

  /** The walk: drop the seconds, then step and test, ten thousand and eighty times at most. */
  method Walk(expr: string, fromMs: int, offset: int, step: int) returns (r: Option<int>)
    requires step == 1 || step == -1
    ensures r == if step == 1 then NextRun(expr, LocalMinute(fromMs, offset)) else PrevRun(expr, LocalMinute(fromMs, offset))
  {
    hide CronMatches, IsValidCron;
    if !IsValidCron(expr) { return None; }
    var from := LocalMinute(fromMs, offset);
    var d := from;
    for i := 0 to HORIZON
      invariant d == Step(from, step, i)
      invariant Search(expr, from, step, i + 1) == Search(expr, from, step, 1)
    {
      d := d + step;
      if CronMatches(expr, d) { return Some(d); }
    }
    return None;
  }

  // ---- what the search finds -------------------------------------------------

  lemma {:induction false} SearchFinds(expr: string, from: int, step: int, k: nat) returns (j: nat)
    ensures var r := Search(expr, from, step, k);
      if r.Some?
      then k <= j <= HORIZON && r == Some(Step(from, step, j)) && CronMatches(expr, Step(from, step, j)) &&
           forall i: nat :: k <= i < j ==> !CronMatches(expr, Step(from, step, i))
      else forall i: nat :: k <= i <= HORIZON ==> !CronMatches(expr, Step(from, step, i))
    decreases HORIZON - k
  {
    hide CronMatches;
    j := k;
    if k <= HORIZON && !CronMatches(expr, Step(from, step, k)) { j := SearchFinds(expr, from, step, k + 1); }
  }

  /**
   * nextRun is the least matching minute strictly after the one it starts in,
   * within a week, and null exactly when the expression is not valid or there
   * is none.
   */
  lemma NextRunIsLeast(expr: string, from: int)
    ensures match NextRun(expr, from)
      case Some(u) =>
        IsValidCron(expr) && from < u <= from + HORIZON && CronMatches(expr, u) &&
        forall v :: from < v < u ==> !CronMatches(expr, v)
      case None => IsValidCron(expr) ==> forall v :: from < v <= from + HORIZON ==> !CronMatches(expr, v)
  {
    hide CronMatches, IsValidCron, Search;
    if IsValidCron(expr) {
      var j := SearchFinds(expr, from, 1, 1);
      match NextRun(expr, from)
      case Some(u) =>
        forall v | from < v < u ensures !CronMatches(expr, v) { assert Step(from, 1, v - from) == v; }
      case None =>
        forall v | from < v <= from + HORIZON ensures !CronMatches(expr, v) { assert Step(from, 1, v - from) == v; }
    }
  }

  /** prevRun is its mirror image. */
  lemma PrevRunIsGreatest(expr: string, from: int)
    ensures match PrevRun(expr, from)
      case Some(u) =>
        IsValidCron(expr) && from - HORIZON <= u < from && CronMatches(expr, u) &&
        forall v :: u < v < from ==> !CronMatches(expr, v)
      case None => IsValidCron(expr) ==> forall v :: from - HORIZON <= v < from ==> !CronMatches(expr, v)
  {
    hide CronMatches, IsValidCron, Search;
    if IsValidCron(expr) {
      var j := SearchFinds(expr, from, -1, 1);
      match PrevRun(expr, from)
      case Some(u) =>
        forall v | u < v < from ensures !CronMatches(expr, v) { assert Step(from, -1, from - v) == v; }
      case None =>
        forall v | from - HORIZON <= v < from ensures !CronMatches(expr, v) { assert Step(from, -1, from - v) == v; }
    }
  }

  /** Back from the next run the search never passes the starting minute, and stops on it exactly when it matches. */
  lemma PrevOfNext(expr: string, t: int)
    requires NextRun(expr, t).Some?
    ensures var back := PrevRun(expr, NextRun(expr, t).value);
      (back.Some? ==> back.value <= t) && (back == Some(t) <==> CronMatches(expr, t))
  {
    hide CronMatches, IsValidCron, Search, NextRun, PrevRun;
    NextRunIsLeast(expr, t);
    PrevRunIsGreatest(expr, NextRun(expr, t).value);
  }

  lemma NextOfPrev(expr: string, t: int)
    requires PrevRun(expr, t).Some?
    ensures var on := NextRun(expr, PrevRun(expr, t).value);
      (on.Some? ==> on.value >= t) && (on == Some(t) <==> CronMatches(expr, t))
  {
    hide CronMatches, IsValidCron, Search, NextRun, PrevRun;
    PrevRunIsGreatest(expr, t);
    NextRunIsLeast(expr, PrevRun(expr, t).value);
  }

  // ---- the weekly horizon ----------------------------------------------------

  /** The field accepts every day of the month, or every month. */
  predicate AcceptsAll(field: string, index: nat)
    requires index < |BOUNDS|
  {
    forall v :: BOUNDS[index].0 <= v <= BOUNDS[index].1 ==> FieldMatches(field, v, index)
  }

  /** The minute of this weekday, hour and minute that falls in the week starting at from. */
  function WeeklyMinute(from: int, weekday: int, hour: int, minute: int): int {
    var target := ((weekday + 6) % 7) * 1440 + hour * 60 + minute;
    from + (target - from) % MINUTES_PER_WEEK
  }

  /** A week of minutes holds every weekday, hour and minute. */
  lemma EveryWeekHasIt(from: int, weekday: int, hour: int, minute: int)
    requires 0 <= weekday < 7 && 0 <= hour < 24 && 0 <= minute < 60
    ensures var m := WeeklyMinute(from, weekday, hour, minute);
      from <= m < from + MINUTES_PER_WEEK && MinuteOf(m) == minute && HourOf(m) == hour && Weekday(DayOf(m)) == weekday
  {
    var day := (weekday + 6) % 7;
    var target := day * 1440 + hour * 60 + minute;
    var m := WeeklyMinute(from, weekday, hour, minute);
    var weeks := (target - from) / MINUTES_PER_WEEK;
    assert m == target - weeks * MINUTES_PER_WEEK;
    WeeksAgo(target, weeks, day, hour, minute);
  }

  lemma DayAndRest(day: int, r: int)
    requires 0 <= r < 1440
    ensures (day * 1440 + r) / 1440 == day && (day * 1440 + r) % 1440 == r
  {
  }

  lemma HourAndRest(hours: int, r: int)
    requires 0 <= r < 60
    ensures (hours * 60 + r) / 60 == hours && (hours * 60 + r) % 60 == r
  {
  }

  lemma WeeksAgo(target: int, weeks: int, day: int, hour: int, minute: int)
    requires target == day * 1440 + hour * 60 + minute && 0 <= day < 7 && 0 <= hour < 24 && 0 <= minute < 60
    ensures var m := target - weeks * 10080;
      DayOf(m) == day - weeks * 7 && HourOf(m) == hour && MinuteOf(m) == minute
  {
    var m := target - weeks * 10080;
    assert m == (day - weeks * 7) * 1440 + (hour * 60 + minute);
    DayAndRest(day - weeks * 7, hour * 60 + minute);
    HourAndRest(hour, minute);
    assert m == ((day - weeks * 7) * 24 + hour) * 60 + minute;
    HourAndRest((day - weeks * 7) * 24 + hour, minute);
  }

  lemma DateInRange(day: int)
    ensures 1 <= DateOf(day).day <= 31 && 1 <= DateOf(day).month <= 12
  {
  }

  /**
   * An expression open in day of month and month, whose minute, hour and
   * weekday fields each accept some value, has a next and a previous run from
   * every minute there is.
   */
  lemma WeeklySchedulesAlwaysRun(expr: string, from: int, minute: int, hour: int, weekday: int)
    requires IsValidCron(expr)
    requires AcceptsAll(Fields(expr)[2], 2) && AcceptsAll(Fields(expr)[3], 3)
    requires 0 <= minute < 60 && FieldMatches(Fields(expr)[0], minute, 0)
    requires 0 <= hour < 24 && FieldMatches(Fields(expr)[1], hour, 1)
    requires 0 <= weekday < 7 && FieldMatches(Fields(expr)[4], weekday, 4)
    ensures NextRun(expr, from).Some? && PrevRun(expr, from).Some?
  {
    hide CronMatches, NextRun, PrevRun, WeeklyMinute, FieldMatches, Fields, InAlphabet, AcceptsAll;
    WeeklyMatch(expr, from + 1, minute, hour, weekday);
    WeeklyMatch(expr, from - HORIZON, minute, hour, weekday);
    NextRunIsLeast(expr, from);
    PrevRunIsGreatest(expr, from);
  }

  lemma WeeklyMatch(expr: string, start: int, minute: int, hour: int, weekday: int)
    requires IsValidCron(expr)
    requires AcceptsAll(Fields(expr)[2], 2) && AcceptsAll(Fields(expr)[3], 3)
    requires 0 <= minute < 60 && FieldMatches(Fields(expr)[0], minute, 0)
    requires 0 <= hour < 24 && FieldMatches(Fields(expr)[1], hour, 1)
    requires 0 <= weekday < 7 && FieldMatches(Fields(expr)[4], weekday, 4)
    ensures var m := WeeklyMinute(start, weekday, hour, minute);
      start <= m < start + HORIZON && CronMatches(expr, m)
  {
    hide FieldMatches, Fields, DateOf, WeeklyMinute, InAlphabet;
    var m := WeeklyMinute(start, weekday, hour, minute);
    EveryWeekHasIt(start, weekday, hour, minute);
    DateInRange(DayOf(m));
    forall i | 0 <= i < 5 ensures FieldMatches(Fields(expr)[i], FieldValue(m, i), i) {
      if i == 2 { assert FieldMatches(Fields(expr)[2], DateOf(DayOf(m)).day, 2); }
      if i == 3 { assert FieldMatches(Fields(expr)[3], DateOf(DayOf(m)).month, 3); }
    }
  }

  // ---- the minute key --------------------------------------------------------

  /** The year the key is written for, and so the minutes it is fixed in width for. */
  predicate FourDigitYear(minute: int) {
    1000 <= DateOf(DayOf(minute)).year <= 9999
  }

  function MinuteKey(minute: int): string
    requires DateOf(DayOf(minute)).year >= 0
  {
    ClockReading(minute);
    var d := DateOf(DayOf(minute));
    Decimal(d.year) + "-" + Pad2(d.month) + "-" + Pad2(d.day) + "T" + Pad2(HourOf(minute)) + ":" + Pad2(MinuteOf(minute))
  }

  /** The same five readings as numbers of fixed width. */
  function Reading(minute: int): (nat, nat, nat, nat, nat)
    requires DateOf(DayOf(minute)).year >= 0
  {
    ClockReading(minute);
    var d := DateOf(DayOf(minute));
    (d.year, d.month, d.day, HourOf(minute), MinuteOf(minute))
  }

  function ShowReading(r: (nat, nat, nat, nat, nat)): string {
    Fixed(r.0, 4) + ("-" + (Fixed(r.1, 2) + ("-" + (Fixed(r.2, 2) + ("T" + (Fixed(r.3, 2) + (":" + Fixed(r.4, 2))))))))
  }

  predicate InWidth(r: (nat, nat, nat, nat, nat)) {
    r.0 < 10000 && r.1 < 100 && r.2 < 100 && r.3 < 100 && r.4 < 100
  }

  predicate ReadingLess(a: (nat, nat, nat, nat, nat), b: (nat, nat, nat, nat, nat)) {
    a.0 < b.0 || (a.0 == b.0 && (a.1 < b.1 || (a.1 == b.1 && (a.2 < b.2 || (a.2 == b.2 &&
    (a.3 < b.3 || (a.3 == b.3 && a.4 < b.4)))))))
  }

  lemma Powers()
    ensures Pow10(1) == 10 && Pow10(2) == 100 && Pow10(3) == 1000 && Pow10(4) == 10000
  {
    assert Pow10(1) == 10 * Pow10(0);
    assert Pow10(2) == 10 * Pow10(1);
    assert Pow10(3) == 10 * Pow10(2);
  }

  /** The same separator on both sides decides nothing. */
  lemma LessAfterSeparator(c: char, u: string, v: string)
    ensures Less([c] + u, [c] + v) <==> Less(u, v)
  {
    assert ([c] + u)[1..] == u && ([c] + v)[1..] == v;
  }

  lemma FixedThen(a: nat, b: nat, w: nat, c: char, u: string, v: string)
    requires a < Pow10(w) && b < Pow10(w)
    ensures Less(Fixed(a, w) + ([c] + u), Fixed(b, w) + ([c] + v)) <==> a < b || (a == b && Less(u, v))
  {
    FixedInOrder(a, b, w);
    LessInParts(Fixed(a, w), [c] + u, Fixed(b, w), [c] + v);
    LessAfterSeparator(c, u, v);
  }

  lemma ShowReadingInOrder(a: (nat, nat, nat, nat, nat), b: (nat, nat, nat, nat, nat))
    requires InWidth(a) && InWidth(b)
    ensures Less(ShowReading(a), ShowReading(b)) <==> ReadingLess(a, b)
  {
    hide Fixed, Less, Pow10;
    Powers();
    var a4, b4 := Fixed(a.4, 2), Fixed(b.4, 2);
    var a3, b3 := Fixed(a.3, 2) + (":" + a4), Fixed(b.3, 2) + (":" + b4);
    var a2, b2 := Fixed(a.2, 2) + ("T" + a3), Fixed(b.2, 2) + ("T" + b3);
    var a1, b1 := Fixed(a.1, 2) + ("-" + a2), Fixed(b.1, 2) + ("-" + b2);
    FixedInOrder(a.4, b.4, 2);
    FixedThen(a.3, b.3, 2, ':', a4, b4);
    FixedThen(a.2, b.2, 2, 'T', a3, b3);
    FixedThen(a.1, b.1, 2, '-', a2, b2);
    FixedThen(a.0, b.0, 4, '-', a1, b1);
  }

  lemma KeyIsReading(minute: int)
    requires FourDigitYear(minute)
    ensures InWidth(Reading(minute)) && MinuteKey(minute) == ShowReading(Reading(minute))
  {
    hide Fixed, Decimal, Pad2, DateOf, Pow10;
    Powers();
    ClockReading(minute);
    var d := DateOf(DayOf(minute));
    DateInRange(DayOf(minute));
    DecimalIsFixed(d.year, 4);
    Pad2IsFixed(d.month);
    Pad2IsFixed(d.day);
    Pad2IsFixed(HourOf(minute));
    Pad2IsFixed(MinuteOf(minute));
    KeyGroups(Fixed(d.year, 4), Fixed(d.month, 2), Fixed(d.day, 2), Fixed(HourOf(minute), 2), Fixed(MinuteOf(minute), 2));
  }

  lemma KeyGroups(y: string, m: string, d: string, h: string, n: string)
    ensures y + "-" + m + "-" + d + "T" + h + ":" + n ==
      y + ("-" + (m + ("-" + (d + ("T" + (h + (":" + n)))))))
  {
  }

  lemma ReadingsInOrder(a: int, b: int)
    requires FourDigitYear(a) && FourDigitYear(b)
    ensures a < b <==> ReadingLess(Reading(a), Reading(b))
  {
    hide DateOf;
    ClockReading(a);
    ClockReading(b);
    DatesInOrder(DateOf(DayOf(a)), DateOf(DayOf(b)));
  }

  /** The key orders minutes as time does, and so tells every two of them apart. */
  lemma MinuteKeysInOrder(a: int, b: int)
    requires FourDigitYear(a) && FourDigitYear(b)
    ensures Less(MinuteKey(a), MinuteKey(b)) <==> a < b
    ensures MinuteKey(a) == MinuteKey(b) <==> a == b
  {
    hide Reading, ShowReading, MinuteKey, DateOf, Less, ReadingLess;
    KeyOrder(a, b);
    KeyOrder(b, a);
    LessIsIrreflexive(MinuteKey(a));
  }

  lemma KeyOrder(a: int, b: int)
    requires FourDigitYear(a) && FourDigitYear(b)
    ensures Less(MinuteKey(a), MinuteKey(b)) <==> a < b
  {
    hide Reading, ShowReading, MinuteKey, Less, ReadingLess, InWidth;
    KeyIsReading(a);
    KeyIsReading(b);
    ReadingsInOrder(a, b);
    ShowReadingInOrder(Reading(a), Reading(b));
  }

  lemma {:induction false} LessIsIrreflexive(s: string)
    ensures !Less(s, s)
  {
    if s != "" { LessIsIrreflexive(s[1..]); }
  }

  // ---- a missed schedule -----------------------------------------------------

  /** The schedule-missed rule for one enabled schedule. */
  predicate ScheduleMissed(expr: string, lastRun: Option<string>, nowMs: int, offset: int, lateS: int) {
    var prev := PrevRun(expr, LocalMinute(nowMs, offset));
    prev.Some? && lastRun.Some? && DateOf(DayOf(prev.value)).year >= 0 &&
    lastRun.value != MinuteKey(prev.value) && nowMs - StartOf(prev.value, offset) > lateS * 1000
  }

  /**
   * The alert fires exactly when a schedule with history last ran in a minute
   * other than its latest due one, and that one is more than the threshold ago.
   */
  lemma MissedExactlyWhen(expr: string, last: int, nowMs: int, offset: int, lateS: int)
    requires FourDigitYear(last)
    requires PrevRun(expr, LocalMinute(nowMs, offset)).Some? ==> FourDigitYear(PrevRun(expr, LocalMinute(nowMs, offset)).value)
    ensures ScheduleMissed(expr, Some(MinuteKey(last)), nowMs, offset, lateS) <==>
      exists due :: PrevRun(expr, LocalMinute(nowMs, offset)) == Some(due) && due != last &&
        nowMs - StartOf(due, offset) > lateS * 1000
  {
    hide MinuteKey, DateOf, PrevRun;
    var prev := PrevRun(expr, LocalMinute(nowMs, offset));
    if prev.Some? { MinuteKeysInOrder(last, prev.value); }
  }
}
