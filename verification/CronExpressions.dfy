// CronExpressions: whole five-field expressions as people write them, from the
// text to the minutes they fire in.

module CronExpressions {
  import opened Text
  import opened Numerals
  import opened CronFields
  import opened Calendar
  import opened CronSearch

  // ---- splitting at spaces ---------------------------------------------------

  predicate Solid(s: string) {
    s != "" && forall i :: 0 <= i < |s| ==> !IsSpace(s[i])
  }

  /** The parts with the gaps between them. */
  function Laid(parts: seq<string>, gaps: seq<string>): string
    requires |parts| == |gaps| + 1
  {
    if gaps == [] then parts[0] else parts[0] + gaps[0] + Laid(parts[1..], gaps[1..])
  }

  predicate GoodParts(parts: seq<string>, gaps: seq<string>) {
    |parts| == |gaps| + 1 && (forall i :: 0 <= i < |parts| ==> Solid(parts[i])) &&
    forall i :: 0 <= i < |gaps| ==> gaps[i] != "" && Blank(gaps[i])
  }

  lemma GoodTail(parts: seq<string>, gaps: seq<string>)
    requires GoodParts(parts, gaps) && gaps != []
    ensures GoodParts(parts[1..], gaps[1..]) && Solid(parts[0]) && gaps[0] != "" && Blank(gaps[0])
  {
    hide Solid, Blank;
  }

  lemma {:induction false} LaidEndsSolid(parts: seq<string>, gaps: seq<string>)
    requires GoodParts(parts, gaps)
    ensures var s := Laid(parts, gaps); s != "" && !IsSpace(s[0]) && !IsSpace(s[|s| - 1])
  {
    hide Blank, IsSpace;
    assert Solid(parts[0]);
    if gaps != [] {
      GoodTail(parts, gaps);
      LaidEndsSolid(parts[1..], gaps[1..]);
    }
  }

  lemma FirstSpaceIs(part: string, gap: string, rest: string)
    requires Solid(part) && gap != "" && Blank(gap)
    ensures FirstSpace(part + gap + rest) == |part|
    ensures (part + gap + rest)[..|part|] == part && (part + gap + rest)[|part| + 1..] == gap[1..] + rest
  {
    hide IsSpace;
    var s := part + gap + rest;
    assert s[|part|] == gap[0];
    assert forall j :: 0 <= j < |part| ==> s[j] == part[j];
  }

  lemma NoSpaceInIt(part: string)
    requires Solid(part)
    ensures FirstSpace(part) == |part|
  {
    hide IsSpace;
  }

  lemma {:induction false} SplitSpacesInvertsLaid(parts: seq<string>, gaps: seq<string>)
    requires GoodParts(parts, gaps)
    ensures SplitSpaces(Laid(parts, gaps)) == parts
  {
    hide IsSpace, Solid, Blank, FirstSpace, TrimStart;
    if gaps == [] {
      NoSpaceInIt(parts[0]);
      assert parts == [parts[0]];
    } else {
      var rest := Laid(parts[1..], gaps[1..]);
      GoodTail(parts, gaps);
      SplitSpacesInvertsLaid(parts[1..], gaps[1..]);
      LaidEndsSolid(parts[1..], gaps[1..]);
      FirstSpaceIs(parts[0], gaps[0], rest);
      BlankTail(gaps[0]);
      DropsBlanks(gaps[0][1..], rest);
      assert parts == [parts[0]] + parts[1..];
    }
  }

  lemma BlankTail(gap: string)
    requires gap != "" && Blank(gap)
    ensures Blank(gap[1..])
  {
    hide IsSpace;
  }

  /** An expression laid out with any spaces before, between and after its parts is split into just those parts. */
  lemma FieldsInvertLaid(lead: string, parts: seq<string>, gaps: seq<string>, trail: string)
    requires GoodParts(parts, gaps) && Blank(lead) && Blank(trail)
    ensures Fields(lead + Laid(parts, gaps) + trail) == parts
  {
    hide IsSpace, Solid, Blank, SplitSpaces, TrimStart, TrimEnd;
    var body := Laid(parts, gaps);
    LaidEndsSolid(parts, gaps);
    DropsBlanks(lead, body + trail);
    assert lead + body + trail == lead + (body + trail);
    DropsTrailing(body, trail);
    SplitSpacesInvertsLaid(parts, gaps);
  }

  // ---- printed fields --------------------------------------------------------

  predicate InSet(c: char) {
    IsDigit(c) || c in "*,/-"
  }

  predicate AllInSet(s: string) {
    forall i :: 0 <= i < |s| ==> InSet(s[i])
  }

  lemma AlphabetIs(s: string)
    ensures InAlphabet(s) <==> s != "" && AllInSet(s)
    ensures InAlphabet(s) ==> Solid(s)
  {
    forall i | 0 <= i < |s| && InSet(s[i]) ensures !IsSpace(s[i]) {}
  }

  lemma SetJoins(a: string, b: string)
    requires AllInSet(a) && AllInSet(b)
    ensures AllInSet(a + b)
  {
    hide InSet;
  }

  lemma DigitsAreInSet(s: string)
    requires AllDigits(s)
    ensures AllInSet(s)
  {
  }

  lemma SignsAreInSet()
    ensures AllInSet("*") && AllInSet("-") && AllInSet("/") && AllInSet(",")
  {
  }

  lemma RangeInSet(t: Term)
    ensures AllInSet(RangeOf(t)) && RangeOf(t) != ""
  {
    hide AllInSet;
    SignsAreInSet();
    match t
    case Every => case EveryStep(_) =>
    case One(n) => DigitsAreInSet(Decimal(n));
    case From(n, _) => DigitsAreInSet(Decimal(n));
    case Between(a, b) => DashedInSet(a, b);
    case BetweenStep(a, b, _) => DashedInSet(a, b);
  }

  lemma DashedInSet(a: nat, b: nat)
    ensures AllInSet(Decimal(a) + "-" + Decimal(b))
  {
    hide AllInSet, Decimal;
    SignsAreInSet();
    DigitsAreInSet(Decimal(a));
    DigitsAreInSet(Decimal(b));
    SetJoins(Decimal(a), "-");
    SetJoins(Decimal(a) + "-", Decimal(b));
  }

  lemma TermInSet(t: Term)
    ensures AllInSet(ShowTerm(t)) && ShowTerm(t) != ""
  {
    hide AllInSet, Decimal, RangeOf, ShowTerm;
    ShowTermIs(t);
    RangeInSet(t);
    SignsAreInSet();
    if StepOf(t).Some? {
      DigitsAreInSet(Decimal(StepOf(t).value));
      SetJoins(RangeOf(t), "/");
      SetJoins(RangeOf(t) + "/", Decimal(StepOf(t).value));
    }
  }

  lemma {:induction false} JoinInSet(parts: seq<string>)
    requires parts != [] && forall i :: 0 <= i < |parts| ==> AllInSet(parts[i]) && parts[i] != ""
    ensures AllInSet(Join(parts, ',')) && Join(parts, ',') != ""
  {
    hide AllInSet;
    if |parts| > 1 {
      JoinInSet(parts[1..]);
      SignsAreInSet();
      SetJoins(parts[0], ",");
      SetJoins(parts[0] + ",", Join(parts[1..], ','));
    }
  }

  lemma FieldInAlphabet(ts: seq<Term>)
    requires ts != []
    ensures InAlphabet(ShowField(ts)) && Solid(ShowField(ts))
  {
    hide AllInSet, ShowTerm, Join, InAlphabet;
    forall i | 0 <= i < |ts| ensures AllInSet(ShowTerms(ts)[i]) && ShowTerms(ts)[i] != "" { TermInSet(ts[i]); }
    JoinInSet(ShowTerms(ts));
    AlphabetIs(ShowField(ts));
  }

  // ---- printed expressions ---------------------------------------------------

  /** Minute, hour, day of month, month and day of week, each a list of terms. */
  predicate IsSchedule(fs: seq<seq<Term>>) {
    |fs| == 5 && forall i :: 0 <= i < 5 ==> fs[i] != []
  }

  function ShowFields(fs: seq<seq<Term>>): (parts: seq<string>)
    requires IsSchedule(fs)
    ensures |parts| == 5 && forall i :: 0 <= i < 5 ==> parts[i] == ShowField(fs[i])
  {
    seq(5, i requires 0 <= i < 5 => ShowField(fs[i]))
  }

  /** expr is the schedule written out, with whatever spaces around and between the fields. */
  predicate Writes(expr: string, fs: seq<seq<Term>>, lead: string, gaps: seq<string>, trail: string) {
    IsSchedule(fs) && |gaps| == 4 && Blank(lead) && Blank(trail) &&
    (forall i :: 0 <= i < 4 ==> gaps[i] != "" && Blank(gaps[i])) &&
    expr == lead + Laid(ShowFields(fs), gaps) + trail
  }

  /** A written schedule is valid, and its fields are the ones written. */
  lemma WrittenSchedulesAreValid(expr: string, fs: seq<seq<Term>>, lead: string, gaps: seq<string>, trail: string)
    requires Writes(expr, fs, lead, gaps, trail)
    ensures IsValidCron(expr) && Fields(expr) == ShowFields(fs)
  {
    hide InAlphabet, Solid, Blank, ShowField, Fields, Laid;
    forall i | 0 <= i < 5 ensures InAlphabet(ShowFields(fs)[i]) && Solid(ShowFields(fs)[i]) { FieldInAlphabet(fs[i]); }
    FieldsInvertLaid(lead, ShowFields(fs), gaps, trail);
  }

  /** The value is in one of the progressions. */
  predicate Accepts(ts: seq<Term>, index: nat, v: int)
    requires index < |BOUNDS|
  {
    exists j :: 0 <= j < |ts| && Holds(TermMeans(ts[j], index), v)
  }

  /** Each of the five readings of the minute is accepted. */
  predicate Fires(fs: seq<seq<Term>>, minute: int)
    requires IsSchedule(fs)
  {
    forall i :: 0 <= i < 5 ==> Accepts(fs[i], i, FieldValue(minute, i))
  }

  /** A written schedule matches exactly the minutes whose every reading is in its field's union of progressions. */
  lemma WrittenSchedulesMatch(expr: string, fs: seq<seq<Term>>, lead: string, gaps: seq<string>, trail: string, minute: int)
    requires Writes(expr, fs, lead, gaps, trail)
    ensures CronMatches(expr, minute) <==> Fires(fs, minute)
  {
    hide Writes, Fields, FieldMatches, ShowField, FieldValue, Accepts, IsValidCron;
    assert IsSchedule(fs) by { WrittenIsSchedule(expr, fs, lead, gaps, trail); }
    WrittenSchedulesAreValid(expr, fs, lead, gaps, trail);
    forall i | 0 <= i < 5
      ensures FieldMatches(Fields(expr)[i], FieldValue(minute, i), i) <==> Accepts(fs[i], i, FieldValue(minute, i))
    {
      AcceptsIs(fs[i], i, FieldValue(minute, i));
    }
  }

  lemma WrittenIsSchedule(expr: string, fs: seq<seq<Term>>, lead: string, gaps: seq<string>, trail: string)
    requires Writes(expr, fs, lead, gaps, trail)
    ensures IsSchedule(fs)
  {
    hide Laid, Blank;
  }

  lemma AcceptsIs(ts: seq<Term>, index: nat, v: int)
    requires ts != [] && index < |BOUNDS|
    ensures FieldMatches(ShowField(ts), v, index) <==> Accepts(ts, index, v)
  {
    hide FieldMatches, ShowField, Holds, TermMeans;
    PrintedFieldMatchesUnion(ts, index, v);
  }

  /** The next run of a written schedule is the least minute after the given one in which it fires, within a week. */
  lemma WrittenNextRunIsLeast(expr: string, fs: seq<seq<Term>>, lead: string, gaps: seq<string>, trail: string, from: int)
    requires Writes(expr, fs, lead, gaps, trail)
    ensures match NextRun(expr, from)
      case Some(u) => IsSchedule(fs) && from < u <= from + HORIZON && Fires(fs, u) && forall v :: from < v < u ==> !Fires(fs, v)
      case None => IsSchedule(fs) && forall v :: from < v <= from + HORIZON ==> !Fires(fs, v)
  {
    hide Writes, CronMatches, Fires, NextRun, IsValidCron, IsSchedule;
    WrittenIsSchedule(expr, fs, lead, gaps, trail);
    WrittenSchedulesAreValid(expr, fs, lead, gaps, trail);
    NextRunIsLeast(expr, from);
    forall v ensures CronMatches(expr, v) <==> Fires(fs, v) { WrittenSchedulesMatch(expr, fs, lead, gaps, trail, v); }
  }

  /** A star accepts every value its field can have. */
  lemma StarAcceptsAll(ts: seq<Term>, index: nat)
    requires ts != [] && Every in ts && index < |BOUNDS|
    ensures AcceptsAll(ShowField(ts), index)
  {
    hide FieldMatches, ShowField, Accepts;
    forall v | BOUNDS[index].0 <= v <= BOUNDS[index].1 ensures FieldMatches(ShowField(ts), v, index) {
      StarAccepts(ts, index, v);
      AcceptsIs(ts, index, v);
    }
  }

  lemma StarAccepts(ts: seq<Term>, index: nat, v: int)
    requires Every in ts && index < |BOUNDS| && BOUNDS[index].0 <= v <= BOUNDS[index].1
    ensures Accepts(ts, index, v)
  {
    var j :| 0 <= j < |ts| && ts[j] == Every;
    assert (v - BOUNDS[index].0) % 1 == 0;
    assert Holds(TermMeans(ts[j], index), v);
  }

  /**
   * A written schedule with a star for day of month and for month, whose minute,
   * hour and weekday fields each accept some value, has a next and a previous
   * run from every minute there is.
   */
  lemma WrittenWeeklySchedulesRun(expr: string, fs: seq<seq<Term>>, lead: string, gaps: seq<string>, trail: string,
                                  from: int, minute: int, hour: int, weekday: int)
    requires Writes(expr, fs, lead, gaps, trail) && IsSchedule(fs) && Every in fs[2] && Every in fs[3]
    requires 0 <= minute < 60 && Accepts(fs[0], 0, minute)
    requires 0 <= hour < 24 && Accepts(fs[1], 1, hour)
    requires 0 <= weekday < 7 && Accepts(fs[4], 4, weekday)
    ensures NextRun(expr, from).Some? && PrevRun(expr, from).Some?
  {
    hide Writes, Fields, FieldMatches, ShowField, Accepts, AcceptsAll, IsValidCron, NextRun, PrevRun;
    WrittenSchedulesAreValid(expr, fs, lead, gaps, trail);
    AcceptsIs(fs[0], 0, minute);
    AcceptsIs(fs[1], 1, hour);
    AcceptsIs(fs[4], 4, weekday);
    StarAcceptsAll(fs[2], 2);
    StarAcceptsAll(fs[3], 3);
    WeeklySchedulesAlwaysRun(expr, from, minute, hour, weekday);
  }

  // ---- what is not a schedule ------------------------------------------------

  lemma SetIs(c: char)
    ensures InSet(c) <==> c in "0123456789*,/-"
  {
    var all := "0123456789*,/-";
    if IsDigit(c) {
      var k := c as int - '0' as int;
      assert all[k] == c;
    }
    if c in "*,/-" {
      var k :| 0 <= k < 4 && "*,/-"[k] == c;
      assert all[10 + k] == c;
    }
    if c in all {
      var k :| 0 <= k < 14 && all[k] == c;
      if k >= 10 { assert "*,/-"[k - 10] == c; }
    }
  }

  predicate InLetters(s: string) {
    forall j :: 0 <= j < |s| ==> s[j] in "0123456789*,/-"
  }

  lemma LettersAre(s: string)
    ensures InLetters(s) <==> AllInSet(s)
  {
    hide InSet;
    forall j | 0 <= j < |s| ensures InSet(s[j]) <==> s[j] in "0123456789*,/-" { SetIs(s[j]); }
  }

  /**
   * Whatever parts are laid out with spaces, they are a valid expression exactly
   * when there are five and they hold nothing but digits, stars, commas, slashes
   * and hyphens; one part too many, or a letter, and there is no run in either
   * direction.
   */
  lemma ValidExactlyWhen(lead: string, parts: seq<string>, gaps: seq<string>, trail: string, from: int)
    requires GoodParts(parts, gaps) && Blank(lead) && Blank(trail)
    ensures var expr := lead + Laid(parts, gaps) + trail;
      (IsValidCron(expr) <==> |parts| == 5 && forall i :: 0 <= i < |parts| ==> InLetters(parts[i])) &&
      (!IsValidCron(expr) ==> NextRun(expr, from).None? && PrevRun(expr, from).None?) &&
      (|parts| != 5 ==> !CronMatches(expr, from))
  {
    hide Solid, Blank, Fields, Laid, FieldMatches, FieldValue, Search, InLetters, AllInSet, InAlphabet;
    FieldsInvertLaid(lead, parts, gaps, trail);
    forall i | 0 <= i < |parts| ensures InAlphabet(parts[i]) <==> InLetters(parts[i]) {
      AlphabetIs(parts[i]);
      LettersAre(parts[i]);
      assert Solid(parts[i]);
      SolidIsSome(parts[i]);
    }
  }

  lemma SolidIsSome(s: string)
    requires Solid(s)
    ensures s != ""
  {
  }

  /** Nothing but space is no expression either. */
  lemma BlankIsNoSchedule(expr: string, from: int)
    requires Blank(expr)
    ensures !IsValidCron(expr) && !CronMatches(expr, from) && NextRun(expr, from).None? && PrevRun(expr, from).None?
  {
    hide IsSpace, TrimStart, TrimEnd;
    BlankVanishes(expr);
    assert SplitSpaces("") == [""];
  }
}
