// CronFields: the field matcher of collector/src/cron.ts, and what its fields mean.

module CronFields {
  import opened Text
  import opened Numerals

  /** Lowest and highest value of each field: minute, hour, day of month, month, day of week. */
  const BOUNDS: seq<(nat, nat)> := [(0, 59), (0, 23), (1, 31), (1, 12), (0, 6)]

  /** lo, lo + step, lo + 2 step, ... up to hi. */
  datatype Progression = Progression(lo: int, hi: int, step: int)

  predicate Holds(p: Progression, v: int) {
    p.step >= 1 && p.lo <= v <= p.hi && (v - p.lo) % p.step == 0
  }

  /**
   * Number(s) when it is an integer, for the strings isValidCron lets through:
   * the empty string is 0, and a leading minus is the one sign that can occur.
   */
  function Integer(s: string): Option<int> {
    if s == "" then Some(0)
    else if AllDigits(s) then Some(Value(s))
    else if s[0] == '-' && |s| > 1 && AllDigits(s[1..]) then
      var n: int := Value(s[1..]);
      Some(-n)
    else None
  }

  /** What one comma-separated part of a field stands for, if it stands for anything. */
  function PartMeans(part: string, index: nat): Option<Progression>
    requires index < |BOUNDS|
  {
    var pieces := Split(part, '/');
    var range := pieces[0];
    var step := if |pieces| > 1 then Integer(pieces[1]) else Some(1);
    if step.None? || step.value < 1 then None
    else if range == "*" then Some(Progression(BOUNDS[index].0, BOUNDS[index].1, step.value))
    else if '-' in range then
      var ends := Split(range, '-');
      var a := Integer(ends[0]);
      var b := if |ends| > 1 then Integer(ends[1]) else None;
      if a.None? || b.None? then None else Some(Progression(a.value, b.value, step.value))
    else
      var n := Integer(range);
      if n.None? then None
      else Some(Progression(n.value, if |pieces| > 1 then BOUNDS[index].1 else n.value, step.value))
  }

  predicate FieldMatches(field: string, value: int, index: nat)
    requires index < |BOUNDS|
  {
    var parts := Split(field, ',');
    exists i :: 0 <= i < |parts| && PartMeans(parts[i], index).Some? && Holds(PartMeans(parts[i], index).value, value)
  }

  // ---- the fields people write -----------------------------------------------

  datatype Term =
    | Every
    | EveryStep(step: nat)
    | One(n: nat)
    | From(n: nat, step: nat)
    | Between(a: nat, b: nat)
    | BetweenStep(a: nat, b: nat, step: nat)

  function ShowTerm(t: Term): string {
    match t
    case Every => "*"
    case EveryStep(s) => "*/" + Decimal(s)
    case One(n) => Decimal(n)
    case From(n, s) => Decimal(n) + "/" + Decimal(s)
    case Between(a, b) => Decimal(a) + "-" + Decimal(b)
    case BetweenStep(a, b, s) => Decimal(a) + "-" + Decimal(b) + "/" + Decimal(s)
  }

  function TermMeans(t: Term, index: nat): Progression
    requires index < |BOUNDS|
  {
    var (lo, hi) := BOUNDS[index];
    match t
    case Every => Progression(lo, hi, 1)
    case EveryStep(s) => Progression(lo, hi, s)
    case One(n) => Progression(n, n, 1)
    case From(n, s) => Progression(n, hi, s)
    case Between(a, b) => Progression(a, b, 1)
    case BetweenStep(a, b, s) => Progression(a, b, s)
  }

  function ShowTerms(ts: seq<Term>): (parts: seq<string>)
    ensures |parts| == |ts|
  {
    seq(|ts|, i requires 0 <= i < |ts| => ShowTerm(ts[i]))
  }

  function ShowField(ts: seq<Term>): string
    requires ts != []
  {
    Join(ShowTerms(ts), ',')
  }

  lemma DigitsHoldNo(s: string, c: char)
    requires AllDigits(s) && !IsDigit(c)
    ensures c !in s
  {
  }

  lemma IntegerOfDecimal(n: nat)
    ensures Integer(Decimal(n)) == Some(n)
  {
    ValueOfDecimal(n);
  }

  lemma SplitOnce(a: string, c: char, b: string)
    requires c !in a && c !in b
    ensures Split(a + [c] + b, c) == [a, b]
  {
    SplitInvertsJoin([a, b], c);
    assert [a, b][1..] == [b];
    assert Join([b], c) == b;
    assert Join([a, b], c) == a + [c] + Join([b], c);
  }

  /** The range before the slash. */
  function RangeOf(t: Term): string {
    match t
    case Every => "*"
    case EveryStep(_) => "*"
    case One(n) => Decimal(n)
    case From(n, _) => Decimal(n)
    case Between(a, b) => Decimal(a) + "-" + Decimal(b)
    case BetweenStep(a, b, _) => Decimal(a) + "-" + Decimal(b)
  }

  function StepOf(t: Term): Option<nat> {
    match t
    case EveryStep(s) => Some(s)
    case From(_, s) => Some(s)
    case BetweenStep(_, _, s) => Some(s)
    case _ => None
  }

  lemma RangeHolds(t: Term, c: char)
    requires c == ',' || c == '/'
    ensures c !in RangeOf(t)
    ensures '-' in RangeOf(t) <==> t.Between? || t.BetweenStep?
    ensures RangeOf(t) == "*" <==> t.Every? || t.EveryStep?
  {
    match t
    case Every => case EveryStep(_) =>
    case One(n) => DigitsHoldNo(Decimal(n), c); DigitsHoldNo(Decimal(n), '-'); assert Decimal(n)[0] != '*';
    case From(n, _) => DigitsHoldNo(Decimal(n), c); DigitsHoldNo(Decimal(n), '-'); assert Decimal(n)[0] != '*';
    case Between(a, b) => DashedHolds(a, b, c);
    case BetweenStep(a, b, _) => DashedHolds(a, b, c);
  }

  lemma DashedHolds(a: nat, b: nat, c: char)
    requires c == ',' || c == '/'
    ensures var s := Decimal(a) + "-" + Decimal(b); c !in s && '-' in s && s[0] != '*'
  {
    var s := Decimal(a) + "-" + Decimal(b);
    assert s[|Decimal(a)|] == '-';
    DigitsHoldNo(Decimal(a), c);
    DigitsHoldNo(Decimal(b), c);
    assert s[0] == Decimal(a)[0];
  }

  lemma ShowTermIs(t: Term)
    ensures ShowTerm(t) == if StepOf(t).Some? then RangeOf(t) + ['/'] + Decimal(StepOf(t).value) else RangeOf(t)
  {
  }

  lemma PiecesOf(t: Term)
    ensures Split(ShowTerm(t), '/') == if StepOf(t).Some? then [RangeOf(t), Decimal(StepOf(t).value)] else [RangeOf(t)]
    ensures ',' !in ShowTerm(t)
  {
    hide RangeOf, ShowTerm;
    ShowTermIs(t);
    RangeHolds(t, '/');
    RangeHolds(t, ',');
    if StepOf(t).Some? {
      var s := Decimal(StepOf(t).value);
      DigitsHoldNo(s, '/');
      DigitsHoldNo(s, ',');
      SplitOnce(RangeOf(t), '/', s);
    }
  }

  lemma EndsOf(a: nat, b: nat)
    ensures Split(Decimal(a) + "-" + Decimal(b), '-') == [Decimal(a), Decimal(b)]
  {
    DigitsHoldNo(Decimal(a), '-');
    DigitsHoldNo(Decimal(b), '-');
    SplitOnce(Decimal(a), '-', Decimal(b));
  }

  /** A printed term means its progression, unless its step is 0, when it means nothing. */
  lemma PartMeansTerm(t: Term, index: nat)
    requires index < |BOUNDS|
    ensures PartMeans(ShowTerm(t), index) ==
      if StepOf(t) == Some(0) then None else Some(TermMeans(t, index))
  {
    hide ShowTerm, Integer, Split, Decimal;
    PiecesOf(t);
    RangeHolds(t, '/');
    if StepOf(t).Some? { IntegerOfDecimal(StepOf(t).value); }
    match t
    case Every => case EveryStep(_) =>
    case One(n) => IntegerOfDecimal(n);
    case From(n, _) => IntegerOfDecimal(n);
    case Between(a, b) => IntegerOfDecimal(a); IntegerOfDecimal(b); EndsOf(a, b);
    case BetweenStep(a, b, _) => IntegerOfDecimal(a); IntegerOfDecimal(b); EndsOf(a, b);
  }

  lemma StepZeroHoldsNothing(t: Term, index: nat, v: int)
    requires index < |BOUNDS| && StepOf(t) == Some(0)
    ensures !Holds(TermMeans(t, index), v)
  {
  }

  /** A field printed from terms matches exactly the union of their progressions. */
  lemma PrintedFieldMatchesUnion(ts: seq<Term>, index: nat, v: int)
    requires ts != [] && index < |BOUNDS|
    ensures FieldMatches(ShowField(ts), v, index) <==> exists i :: 0 <= i < |ts| && Holds(TermMeans(ts[i], index), v)
  {
    hide PartMeans, ShowTerm, Holds, Split, Join;
    var parts := ShowTerms(ts);
    forall i | 0 <= i < |parts| ensures ',' !in parts[i] { PiecesOf(ts[i]); }
    SplitInvertsJoin(parts, ',');
    forall i | 0 <= i < |ts|
      ensures PartMeans(parts[i], index).Some? && Holds(PartMeans(parts[i], index).value, v) <==>
              Holds(TermMeans(ts[i], index), v)
    {
      PartMeansTerm(ts[i], index);
      if StepOf(ts[i]) == Some(0) { StepZeroHoldsNothing(ts[i], index, v); }
    }
  }

  /** Values printed as a comma-separated list. */
  function ListTerms(vs: seq<nat>): (ts: seq<Term>)
    ensures |ts| == |vs|
  {
    seq(|vs|, i requires 0 <= i < |vs| => One(vs[i]))
  }

  /** A list field is accepted on exactly its members. */
  lemma ListFieldMatchesItsMembers(vs: seq<nat>, index: nat, v: nat)
    requires vs != [] && index < |BOUNDS|
    ensures FieldMatches(ShowField(ListTerms(vs)), v, index) <==> v in vs
  {
    hide FieldMatches, ShowField;
    PrintedFieldMatchesUnion(ListTerms(vs), index, v);
    if v in vs {
      var i :| 0 <= i < |vs| && vs[i] == v;
      assert ListTerms(vs)[i] == One(v);
      assert Holds(TermMeans(One(v), index), v) by { assert (v - v) % 1 == 0; }
    }
  }

  /** Two readings that surprise: an empty range end is 0, and so is an empty part. */
  lemma EmptyNumbersAreZero(v: int)
    ensures PartMeans("-5", 0) == Some(Progression(0, 5, 1))
    ensures PartMeans("", 0) == Some(Progression(0, 0, 1))
  {
    SplitWhole("-5", '/');
    assert "-5" == "" + ['-'] + "5";
    SplitOnce("", '-', "5");
    assert Value("5") == 5 by { assert "5"[..0] == ""; }
  }

  lemma SplitTwice(a: string, c: char, b: string, d: string)
    requires c !in a && c !in b && c !in d
    ensures Split(a + [c] + b + [c] + d, c) == [a, b, d]
  {
    hide Split;
    SplitInvertsJoin([a, b, d], c);
    assert [a, b, d][1..] == [b, d] && [b, d][1..] == [d];
    assert Join([b, d], c) == b + [c] + d;
    assert Join([a, b, d], c) == a + [c] + (b + [c] + d);
    assert a + [c] + (b + [c] + d) == a + [c] + b + [c] + d;
  }

  /** What follows a second hyphen or a second slash is not read. */
  lemma WhatFollowsIsNotRead(a: nat, b: nat, c: nat, index: nat)
    requires index < |BOUNDS|
    ensures PartMeans(Decimal(a) + "-" + Decimal(b) + "-" + Decimal(c), index) == Some(Progression(a, b, 1))
    ensures b > 0 ==>
      PartMeans(Decimal(a) + "/" + Decimal(b) + "/" + Decimal(c), index) == Some(Progression(a, BOUNDS[index].1, b))
  {
    hide Split, Integer, Decimal;
    DigitsHoldNo(Decimal(a), '-'); DigitsHoldNo(Decimal(b), '-'); DigitsHoldNo(Decimal(c), '-');
    DigitsHoldNo(Decimal(a), '/'); DigitsHoldNo(Decimal(b), '/'); DigitsHoldNo(Decimal(c), '/');
    var dashed := Decimal(a) + "-" + Decimal(b) + "-" + Decimal(c);
    SplitTwice(Decimal(a), '-', Decimal(b), Decimal(c));
    SplitWhole(dashed, '/');
    assert dashed[|Decimal(a)|] == '-' && dashed[0] == Decimal(a)[0];
    SplitTwice(Decimal(a), '/', Decimal(b), Decimal(c));
    assert Decimal(a)[0] != '*';
    IntegerOfDecimal(a);
    IntegerOfDecimal(b);
  }

  /** A step below one matches nothing. */
  lemma NegativeStepsMeanNothing(n: nat, index: nat)
    requires index < |BOUNDS|
    ensures PartMeans("*/-" + Decimal(n), index).None?
  {
    hide Split;
    DigitsHoldNo(Decimal(n), '/');
    SplitOnce("*", '/', "-" + Decimal(n));
    assert "*/-" + Decimal(n) == "*" + ['/'] + ("-" + Decimal(n));
    assert ("-" + Decimal(n))[1..] == Decimal(n) && !AllDigits("-" + Decimal(n)) by { assert ("-" + Decimal(n))[0] == '-'; }
  }

  // ---- expressions -----------------------------------------------------------

  /** split(/\s+/) on a string without surrounding space. */
  function SplitSpaces(s: string): (parts: seq<string>)
    decreases |s|
  {
    var i := FirstSpace(s);
    if i == |s| then [s]
    else [s[..i]] + SplitSpaces(TrimStart(s[i + 1..]))
  }

  function FirstSpace(s: string): (i: nat)
    ensures i <= |s| && (i < |s| ==> IsSpace(s[i])) && forall j :: 0 <= j < i ==> !IsSpace(s[j])
  {
    if s == "" || IsSpace(s[0]) then 0 else 1 + FirstSpace(s[1..])
  }

  function Fields(expr: string): seq<string> {
    SplitSpaces(Trim(expr))
  }

  /** /^[\d*,/-]+$/. */
  predicate InAlphabet(field: string) {
    field != "" && forall i :: 0 <= i < |field| ==> IsDigit(field[i]) || field[i] in "*,/-"
  }

  /** The source also asks that fieldMatches be defined, which it always is. */
  predicate IsValidCron(expr: string) {
    |Fields(expr)| == 5 && forall i :: 0 <= i < 5 ==> InAlphabet(Fields(expr)[i])
  }
}
