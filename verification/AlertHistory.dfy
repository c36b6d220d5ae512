// AlertHistory: whole histories of the alert table - reconcile passes, snooze
// expiries and an operator's moves in any order, from an empty table.

module AlertHistory {
  import opened Text
  import opened Alerts

  /** A pass of reconcile or of expireSnoozes at a time, or a request to acknowledge or snooze an alert. */
  datatype Event =
    | Reconciled(findings: seq<Finding>, now: int)
    | Expired(now: int)
    | Acknowledged(id: nat)
    | SnoozedUntil(id: nat, until: int)

  /** What one event that is not a reconcile does to one row. */
  function Moved(r: Row, e: Event): Row {
    match e
    case Reconciled(_, _) => r
    case Expired(now) => Wake(r, now)
    case Acknowledged(id) => if r.id == id && Live(r) then r.(state := Acked) else r
    case SnoozedUntil(id, until) =>
      if r.id == id && Live(r) then r.(state := State.Snoozed, snoozeUntil := Some(until)) else r
  }

  function MovedAll(rows: seq<Row>, e: Event): (r: seq<Row>)
    ensures |r| == |rows|
    ensures forall i :: 0 <= i < |rows| ==> r[i] == Moved(rows[i], e)
  {
    if rows == [] then [] else [Moved(rows[0], e)] + MovedAll(rows[1..], e)
  }

  function Do(t: Table, e: Event): Table {
    if e.Reconciled? then Reconcile(t, e.findings, e.now) else t.(rows := MovedAll(t.rows, e))
  }

  /** What the event returns to be notified. */
  function Announced(t: Table, e: Event): seq<Row> {
    if e.Reconciled? then OpenedBy(t, e.findings, e.now) else []
  }

  const EMPTY := Table([], 1)

  function Front(events: seq<Event>): seq<Event>
    requires events != []
  {
    events[..|events| - 1]
  }

  function Final(events: seq<Event>): Event
    requires events != []
  {
    events[|events| - 1]
  }

  /** A table after these events. */
  function From(t: Table, events: seq<Event>): Table {
    if events == [] then t else Do(From(t, Front(events)), Final(events))
  }

  function After(events: seq<Event>): Table {
    From(EMPTY, events)
  }

  /** Everything a history returned to be notified, in order. */
  function AllAnnounced(events: seq<Event>): seq<Row> {
    if events == [] then []
    else AllAnnounced(Front(events)) + Announced(After(Front(events)), Final(events))
  }

  // ---- a condition over time -------------------------------------------------

  /** One reconcile pass. */
  datatype Pass = Pass(findings: seq<Finding>, now: int)

  /** A history's passes, in order. */
  function Passes(events: seq<Event>): seq<Pass> {
    if events == [] then []
    else
      Passes(Front(events)) +
      if Final(events).Reconciled? then [Pass(Final(events).findings, Final(events).now)] else []
  }

  /** The condition k holds at pass i. */
  predicate HoldsAt(passes: seq<Pass>, k: string, i: int) {
    0 <= i < |passes| && Found(passes[i].findings, k)
  }

  /** k holds at pass i and did not at the pass before, or there was none. */
  predicate RisesAt(passes: seq<Pass>, k: string, i: int) {
    HoldsAt(passes, k, i) && !HoldsAt(passes, k, i - 1)
  }

  function RisingEdges(passes: seq<Pass>, k: string): set<int> {
    set i | 0 <= i < |passes| && RisesAt(passes, k, i)
  }

  /** n is the number of passes at the end, without a break, at which k holds. */
  predicate IsCurrentRun(passes: seq<Pass>, k: string, n: int) {
    0 <= n <= |passes| &&
    (forall i :: |passes| - n <= i < |passes| ==> HoldsAt(passes, k, i)) &&
    !HoldsAt(passes, k, |passes| - n - 1)
  }

  function CurrentRun(passes: seq<Pass>, k: string): (n: nat)
    ensures IsCurrentRun(passes, k, n)
  {
    if passes == [] || !Found(passes[|passes| - 1].findings, k) then 0
    else
      var before := passes[..|passes| - 1];
      var n := CurrentRun(before, k);
      assert forall i :: HoldsAt(before, k, i) <==> HoldsAt(passes, k, i) && i < |before|;
      n + 1
  }

  lemma TheCurrentRunIsUnique(passes: seq<Pass>, k: string, m: int, n: int)
    requires IsCurrentRun(passes, k, m) && IsCurrentRun(passes, k, n)
    ensures m == n
  {
    assert m < n ==> HoldsAt(passes, k, |passes| - m - 1);
    assert n < m ==> HoldsAt(passes, k, |passes| - n - 1);
  }

  lemma HoldsAsBefore(passes: seq<Pass>, pass: Pass, k: string, i: int)
    ensures i < |passes| ==> (HoldsAt(passes + [pass], k, i) <==> HoldsAt(passes, k, i))
    ensures HoldsAt(passes + [pass], k, |passes|) <==> Found(pass.findings, k)
  {
    hide Found;
  }

  lemma EdgesOfOneMore(passes: seq<Pass>, pass: Pass, k: string)
    ensures |RisingEdges(passes + [pass], k)| ==
      |RisingEdges(passes, k)| + if Found(pass.findings, k) && !HoldsAt(passes, k, |passes| - 1) then 1 else 0
  {
    hide Found, HoldsAt;
    var more, n := passes + [pass], |passes|;
    forall i | i <= n ensures i < n ==> (RisesAt(more, k, i) <==> RisesAt(passes, k, i)) {
      HoldsAsBefore(passes, pass, k, i);
      HoldsAsBefore(passes, pass, k, i - 1);
    }
    HoldsAsBefore(passes, pass, k, n - 1);
    assert RisingEdges(more, k) == RisingEdges(passes, k) + if RisesAt(more, k, n) then {n} else {};
  }

  /** A further pass lengthens the run or ends it, and adds a rising edge exactly when the condition begins. */
  lemma OneMorePass(passes: seq<Pass>, pass: Pass, k: string)
    ensures var more := passes + [pass];
      CurrentRun(more, k) == (if Found(pass.findings, k) then CurrentRun(passes, k) + 1 else 0) &&
      |RisingEdges(more, k)| ==
        |RisingEdges(passes, k)| + if Found(pass.findings, k) && CurrentRun(passes, k) == 0 then 1 else 0
  {
    hide Found, RisingEdges;
    var n := |passes|;
    assert (passes + [pass])[..n] == passes;
    assert CurrentRun(passes, k) == 0 <==> !HoldsAt(passes, k, n - 1);
    EdgesOfOneMore(passes, pass, k);
  }

  // ---- the table against the condition ---------------------------------------

  /** Every row of the key, live or resolved. */
  function RowsOf(rows: seq<Row>, k: string): nat {
    if rows == [] then 0 else (if KeyOfRow(rows[0]) == k then 1 else 0) + RowsOf(rows[1..], k)
  }

  /** The row tells of a run of the last n passes: how many, since when, seen when, and in the last one's words. */
  ghost predicate Shows(r: Row, passes: seq<Pass>, k: string, n: nat) {
    var m := |passes|;
    1 <= n <= m && r.seenCount == n && r.firstSeen == passes[m - n].now && r.lastSeen == passes[m - 1].now &&
    exists f :: IsLatest(passes[m - 1].findings, f, k) && r.message == f.message && r.severity == f.severity
  }

  /** Every live row of the key shows the run of the last n passes. */
  ghost predicate AllShow(rows: seq<Row>, passes: seq<Pass>, k: string, n: nat) {
    forall i :: 0 <= i < |rows| && Live(rows[i]) && KeyOfRow(rows[i]) == k ==> Shows(rows[i], passes, k, n)
  }

  lemma {:induction false} RowsOfJoin(a: seq<Row>, b: seq<Row>, k: string)
    ensures RowsOf(a + b, k) == RowsOf(a, k) + RowsOf(b, k)
  {
    if a == [] {
      assert a + b == b;
    } else {
      assert (a + b)[1..] == a[1..] + b;
      RowsOfJoin(a[1..], b, k);
    }
  }

  /** Two tables whose rows pair off with equal keys hold equally many of each. */
  lemma {:induction false} RowsOfSameKeys(a: seq<Row>, b: seq<Row>, k: string)
    requires |a| == |b| && forall i :: 0 <= i < |a| ==> KeyOfRow(a[i]) == KeyOfRow(b[i])
    ensures RowsOf(a, k) == RowsOf(b, k)
  {
    if a != [] { RowsOfSameKeys(a[1..], b[1..], k); }
  }

  lemma {:induction false} LiveCountSame(a: seq<Row>, b: seq<Row>, k: string)
    requires |a| == |b| && forall i :: 0 <= i < |a| ==> KeyOfRow(a[i]) == KeyOfRow(b[i]) && Live(a[i]) == Live(b[i])
    ensures LiveCount(a, k) == LiveCount(b, k)
  {
    if a != [] { LiveCountSame(a[1..], b[1..], k); }
  }

  /** Rows that are all open count as live. */
  lemma {:induction false} OpenRowsAreLive(rows: seq<Row>, k: string)
    requires forall i :: 0 <= i < |rows| ==> rows[i].state == Open
    ensures RowsOf(rows, k) == LiveCount(rows, k)
  {
    if rows != [] { OpenRowsAreLive(rows[1..], k); }
  }

  lemma MoveKeepsShowing(r: Row, e: Event, passes: seq<Pass>, k: string, n: nat)
    ensures KeyOfRow(Moved(r, e)) == KeyOfRow(r) && Live(Moved(r, e)) == Live(r)
    ensures Shows(Moved(r, e), passes, k, n) <==> Shows(r, passes, k, n)
  {
    hide Key, IsLatest;
  }

  lemma MovesKeepAlerts(rows: seq<Row>, e: Event, passes: seq<Pass>, k: string, n: nat)
    requires AllShow(rows, passes, k, n)
    ensures AllShow(MovedAll(rows, e), passes, k, n)
    ensures LiveCount(MovedAll(rows, e), k) == LiveCount(rows, k) && RowsOf(MovedAll(rows, e), k) == RowsOf(rows, k)
  {
    hide LiveCount, RowsOf, MovedAll, Moved, Shows, KeyOfRow, Live;
    var r := MovedAll(rows, e);
    forall i | 0 <= i < |rows|
      ensures KeyOfRow(r[i]) == KeyOfRow(rows[i]) && Live(r[i]) == Live(rows[i])
      ensures Shows(r[i], passes, k, n) <==> Shows(rows[i], passes, k, n)
    {
      MoveKeepsShowing(rows[i], e, passes, k, n);
    }
    LiveCountSame(r, rows, k);
    RowsOfSameKeys(r, rows, k);
  }

  /** A carried row keeps its key and id; if it lives on it lived before, its key was found, and it shows one pass more. */
  lemma CarriedRow(r: Row, r': Row, pass: Pass)
    requires Carried(r, r', pass.findings, pass.now)
    ensures KeyOfRow(r') == KeyOfRow(r) && r'.id == r.id
    ensures Live(r') ==> Live(r) && Found(pass.findings, KeyOfRow(r)) && r'.state == r.state && r'.snoozeUntil == r.snoozeUntil
  {
    hide Found, Key, IsLatest;
  }

  lemma CarriedShows(r: Row, r': Row, passes: seq<Pass>, pass: Pass, k: string, n: nat)
    requires Carried(r, r', pass.findings, pass.now) && Live(r') && KeyOfRow(r) == k && Shows(r, passes, k, n)
    ensures Shows(r', passes + [pass], k, n + 1)
  {
    hide Found, Key, IsLatest;
    CarriedRow(r, r', pass);
    var f :| IsLatest(pass.findings, f, k) && r' == Refresh(r, f, pass.now);
    assert (passes + [pass])[|passes| - n] == passes[|passes| - n];
  }

  lemma NewbornShows(r: Row, id: nat, passes: seq<Pass>, pass: Pass)
    requires Newborn(r, pass.findings, id, pass.now)
    ensures Shows(r, passes + [pass], KeyOfRow(r), 1) && r.state == Open
  {
    hide Key, IsLatest;
  }

  lemma AliveIsCounted(rows: seq<Row>, k: string, i: nat)
    requires i < |rows| && Live(rows[i]) && KeyOfRow(rows[i]) == k
    ensures LiveCount(rows, k) > 0
  {
    hide LiveCount;
    LiveCountPositive(rows, k);
  }

  /** After a pass every live row of a key shows one pass more than before, or, if there was none, the first. */
  lemma APassCountsOnce(t: Table, pass: Pass, passes: seq<Pass>, k: string, n: nat)
    requires AllShow(t.rows, passes, k, n) && LiveCount(t.rows, k) == (if n > 0 then 1 else 0)
    ensures AllShow(Reconcile(t, pass.findings, pass.now).rows, passes + [pass], k, if Found(pass.findings, k) then n + 1 else 0)
  {
    hide LiveCount, Reconcile, OpenedBy, Found, Key, Carried, Shows, Newborn;
    var t' := Reconcile(t, pass.findings, pass.now);
    var added := OpenedBy(t, pass.findings, pass.now);
    ReconcileKeepsHistory(t, pass.findings, pass.now);
    OneLiveRowPerFinding(t, pass.findings, pass.now, k);
    forall i | 0 <= i < |t'.rows| && Live(t'.rows[i]) && KeyOfRow(t'.rows[i]) == k
      ensures Shows(t'.rows[i], passes + [pass], k, if Found(pass.findings, k) then n + 1 else 0)
    {
      AliveIsCounted(t'.rows, k, i);
      if i < |t.rows| {
        CarriedRow(t.rows[i], t'.rows[i], pass);
        CarriedShows(t.rows[i], t'.rows[i], passes, pass, k, n);
      } else {
        var j := i - |t.rows|;
        assert t'.rows[i] == added[j];
        NewbornShows(added[j], t.nextId + j, passes, pass);
        AliveIsCounted(added, k, j);
      }
    }
  }

  lemma APassAddsItsOpened(t: Table, findings: seq<Finding>, now: int, k: string)
    ensures RowsOf(Reconcile(t, findings, now).rows, k) == RowsOf(t.rows, k) + RowsOf(OpenedBy(t, findings, now), k)
    ensures RowsOf(OpenedBy(t, findings, now), k) == LiveCount(OpenedBy(t, findings, now), k)
  {
    hide LiveCount, RowsOf, Reconcile, OpenedBy, Found, Key, Carried, Newborn;
    var t' := Reconcile(t, findings, now);
    var added := OpenedBy(t, findings, now);
    ReconcileKeepsHistory(t, findings, now);
    var kept := t'.rows[..|t.rows|];
    forall i | 0 <= i < |kept| ensures KeyOfRow(kept[i]) == KeyOfRow(t.rows[i]) {
      CarriedRow(t.rows[i], t'.rows[i], Pass(findings, now));
    }
    RowsOfSameKeys(kept, t.rows, k);
    assert t'.rows == kept + added;
    RowsOfJoin(kept, added, k);
    forall i | 0 <= i < |added| ensures added[i].state == Open {
      NewbornShows(added[i], t.nextId + i, [], Pass(findings, now));
    }
    OpenRowsAreLive(added, k);
  }

  /** What a history's table says of one condition. */
  ghost predicate Tells(events: seq<Event>, k: string) {
    var n := CurrentRun(Passes(events), k);
    var edges := |RisingEdges(Passes(events), k)|;
    LiveCount(After(events).rows, k) == (if n > 0 then 1 else 0) &&
    AllShow(After(events).rows, Passes(events), k, n) &&
    RowsOf(AllAnnounced(events), k) == edges &&
    RowsOf(After(events).rows, k) == edges
  }

  /**
   * However reconcile passes, snooze expiries, acknowledgements and snoozes are
   * interleaved: a condition has one live alert while it holds and none while
   * it does not; that alert's seen_count is the length of the present run of
   * passes, its first_seen and last_seen are the times of the run's ends, and
   * its words those of the last pass; and an alert was announced, and has a
   * row, once for each time the condition began to hold.
   */
  lemma {:induction false} OneAlertPerRisingEdge(events: seq<Event>, k: string)
    ensures Tells(events, k)
  {
    hide LiveCount, RowsOf, Reconcile, OpenedBy, Found, AllShow, MovedAll, CurrentRun, RisingEdges;
    if events == [] {
      NothingYet(k);
    } else {
      var front, e := Front(events), Final(events);
      OneAlertPerRisingEdge(front, k);
      var t := After(front);
      var n := CurrentRun(Passes(front), k);
      RowsOfJoin(AllAnnounced(front), Announced(t, e), k);
      if e.Reconciled? {
        var pass := Pass(e.findings, e.now);
        OneMorePass(Passes(front), pass, k);
        OneLiveRowPerFinding(t, e.findings, e.now, k);
        APassCountsOnce(t, pass, Passes(front), k, n);
        APassAddsItsOpened(t, e.findings, e.now, k);
      } else {
        assert Passes(events) == Passes(front);
        MovesKeepAlerts(t.rows, e, Passes(front), k, n);
        NoRows(k);
      }
    }
  }

  lemma NoRows(k: string)
    ensures RowsOf([], k) == 0
  {
  }

  lemma NothingYet(k: string)
    ensures Tells([], k)
  {
    assert RisingEdges([], k) == {};
  }

  // ---- one alert's life ------------------------------------------------------

  /** A row keeps its place, id and key; resolved it never changes again; live it was live before. */
  lemma OneStep(t: Table, e: Event, i: nat)
    requires i < |t.rows|
    ensures i < |Do(t, e).rows|
    ensures var r, r' := t.rows[i], Do(t, e).rows[i];
      r'.id == r.id && KeyOfRow(r') == KeyOfRow(r) && (!Live(r) ==> r' == r) && (Live(r') ==> Live(r)) &&
      (Live(r') ==> r'.state == Moved(r, e).state && r'.snoozeUntil == Moved(r, e).snoozeUntil)
  {
    hide Reconcile, Found, Key, MovedAll;
    if e.Reconciled? {
      ReconcileKeepsHistory(t, e.findings, e.now);
      CarriedRow(t.rows[i], Do(t, e).rows[i], Pass(e.findings, e.now));
    }
  }

  /** Whatever happens, a resolved alert stays as it was: the condition coming back opens a new row. */
  lemma {:induction false} ResolvedIsFinal(t: Table, events: seq<Event>, i: nat)
    requires i < |t.rows|
    ensures i < |From(t, events).rows|
    ensures From(t, events).rows[i].id == t.rows[i].id && KeyOfRow(From(t, events).rows[i]) == KeyOfRow(t.rows[i])
    ensures !Live(t.rows[i]) ==> From(t, events).rows[i] == t.rows[i]
  {
    hide Do, Key;
    if events != [] {
      ResolvedIsFinal(t, Front(events), i);
      OneStep(From(t, Front(events)), Final(events), i);
    }
  }

  /** An expiry at or after the time is among the events. */
  predicate Due(events: seq<Event>, until: int) {
    exists j :: 0 <= j < |events| && events[j].Expired? && until <= events[j].now
  }

  /** No operator touches the alert. */
  predicate LeftAlone(events: seq<Event>, id: nat) {
    forall j :: 0 <= j < |events| && (events[j].Acknowledged? || events[j].SnoozedUntil?) ==> events[j].id != id
  }

  /** Left alone, a snoozed alert that has not resolved is open again exactly if an expiry has run when it was due. */
  lemma {:induction false} SnoozeEndsExactlyWhenDue(t: Table, events: seq<Event>, i: nat, until: int)
    requires i < |t.rows| && t.rows[i].state == State.Snoozed && t.rows[i].snoozeUntil == Some(until)
    requires LeftAlone(events, t.rows[i].id)
    ensures i < |From(t, events).rows|
    ensures Live(From(t, events).rows[i]) ==>
      From(t, events).rows[i].state == (if Due(events, until) then Open else State.Snoozed) &&
      From(t, events).rows[i].snoozeUntil == (if Due(events, until) then None else Some(until))
  {
    hide Do, Key;
    ResolvedIsFinal(t, events, i);
    if events != [] {
      var front, e := Front(events), Final(events);
      SnoozeEndsExactlyWhenDue(t, front, i, until);
      ResolvedIsFinal(t, front, i);
      OneStep(From(t, front), e, i);
      assert forall j :: 0 <= j < |front| ==> front[j] == events[j];
      assert Due(events, until) <==> Due(front, until) || (e.Expired? && until <= e.now);
    }
  }

  /** Left alone, an acknowledged alert stays acknowledged until it resolves. */
  lemma {:induction false} AcknowledgedStays(t: Table, events: seq<Event>, i: nat)
    requires i < |t.rows| && t.rows[i].state == Acked && LeftAlone(events, t.rows[i].id)
    ensures i < |From(t, events).rows|
    ensures Live(From(t, events).rows[i]) ==> From(t, events).rows[i].state == Acked
  {
    hide Do, Key;
    ResolvedIsFinal(t, events, i);
    if events != [] {
      AcknowledgedStays(t, Front(events), i);
      ResolvedIsFinal(t, Front(events), i);
      OneStep(From(t, Front(events)), Final(events), i);
    }
  }

  /** Left alone, an open alert stays open until it resolves. */
  lemma {:induction false} OpenStays(t: Table, events: seq<Event>, i: nat)
    requires i < |t.rows| && t.rows[i].state == Open && LeftAlone(events, t.rows[i].id)
    ensures i < |From(t, events).rows|
    ensures Live(From(t, events).rows[i]) ==> From(t, events).rows[i].state == Open
  {
    hide Do, Key;
    ResolvedIsFinal(t, events, i);
    if events != [] {
      OpenStays(t, Front(events), i);
      ResolvedIsFinal(t, Front(events), i);
      OneStep(From(t, Front(events)), Final(events), i);
    }
  }

  /** An alert that is live when it is acknowledged is acknowledged, with nothing else of it or of any other alert changed. */
  lemma AcknowledgingAcks(t: Table, i: nat, later: seq<Event>)
    requires i < |t.rows| && t.rows[i].state != Resolved && LeftAlone(later, t.rows[i].id)
    ensures var t1 := Do(t, Acknowledged(t.rows[i].id));
      |t1.rows| == |t.rows| && t1.rows[i] == t.rows[i].(state := Acked) &&
      (forall j :: 0 <= j < |t.rows| && t.rows[j].id != t.rows[i].id ==> t1.rows[j] == t.rows[j]) &&
      i < |From(t1, later).rows| && (From(t1, later).rows[i].state != Resolved ==> From(t1, later).rows[i].state == Acked)
  {
    hide From;
    AcknowledgedStays(Do(t, Acknowledged(t.rows[i].id)), later, i);
  }

  /**
   * A live alert that is snoozed is snoozed until the time given, with nothing else
   * changed; left alone it is so until it resolves or an expiry comes when it is
   * due, which opens it.
   */
  lemma SnoozingSnoozes(t: Table, i: nat, until: int, later: seq<Event>)
    requires i < |t.rows| && t.rows[i].state != Resolved && LeftAlone(later, t.rows[i].id)
    ensures var t1 := Do(t, SnoozedUntil(t.rows[i].id, until));
      |t1.rows| == |t.rows| && t1.rows[i] == t.rows[i].(state := State.Snoozed, snoozeUntil := Some(until)) &&
      (forall j :: 0 <= j < |t.rows| && t.rows[j].id != t.rows[i].id ==> t1.rows[j] == t.rows[j]) &&
      i < |From(t1, later).rows| &&
      (From(t1, later).rows[i].state != Resolved ==>
        From(t1, later).rows[i].state == if Due(later, until) then Open else State.Snoozed)
  {
    hide From, Due;
    SnoozeEndsExactlyWhenDue(Do(t, SnoozedUntil(t.rows[i].id, until)), later, i, until);
  }

  /** What reconcile returns is open, unsnoozed and unresolved, and first and last seen now, once. */
  lemma ReturnedAlertsAreOpen(t: Table, findings: seq<Finding>, now: int, i: nat)
    requires i < |OpenedBy(t, findings, now)|
    ensures var r := OpenedBy(t, findings, now)[i];
      r.state == Open && r.snoozeUntil.None? && r.resolvedAt.None? && r.firstSeen == r.lastSeen == now && r.seenCount == 1
  {
    hide OpenedBy, IsLatest, Key;
    ReconcileKeepsHistory(t, findings, now);
    assert Newborn(OpenedBy(t, findings, now)[i], findings, t.nextId + i, now);
  }

  // ---- ids -------------------------------------------------------------------

  /** No two rows share an id, and the next id is above them all. */
  predicate IdsAreFresh(t: Table) {
    (forall i :: 0 <= i < |t.rows| ==> t.rows[i].id < t.nextId) &&
    forall i, j :: 0 <= i < j < |t.rows| ==> t.rows[i].id != t.rows[j].id
  }

  lemma NewIdsFollow(t: Table, findings: seq<Finding>, now: int, k: nat)
    requires k < |OpenedBy(t, findings, now)|
    ensures OpenedBy(t, findings, now)[k].id == t.nextId + k
  {
    hide OpenedBy, IsLatest;
    ReconcileKeepsHistory(t, findings, now);
    assert Newborn(OpenedBy(t, findings, now)[k], findings, t.nextId + k, now);
  }

  lemma StepKeepsIdsFresh(t: Table, e: Event)
    requires IdsAreFresh(t)
    ensures IdsAreFresh(Do(t, e))
  {
    hide OpenedBy, Settle, Carried, Newborn, Key;
    var t' := Do(t, e);
    forall i | 0 <= i < |t.rows| ensures i < |t'.rows| && t'.rows[i].id == t.rows[i].id { OneStep(t, e, i); }
    if e.Reconciled? {
      ReconcileKeepsHistory(t, e.findings, e.now);
      var added := OpenedBy(t, e.findings, e.now);
      forall i | |t.rows| <= i < |t'.rows| ensures t'.rows[i].id == t.nextId + (i - |t.rows|) {
        assert t'.rows[i] == added[i - |t.rows|];
        NewIdsFollow(t, e.findings, e.now, i - |t.rows|);
      }
    }
  }

  /** Over every history, each alert has an id of its own: a new one differs from all there ever were. */
  lemma {:induction false} IdsStayFresh(t: Table, events: seq<Event>)
    requires IdsAreFresh(t)
    ensures IdsAreFresh(From(t, events))
  {
    hide IdsAreFresh, Do;
    if events != [] {
      IdsStayFresh(t, Front(events));
      StepKeepsIdsFresh(From(t, Front(events)), Final(events));
    }
  }

  // ---- notifying -------------------------------------------------------------

  datatype Message = Message(title: string, high: bool, tags: string, body: string)

  function MessageOf(r: Row): Message {
    Message("fleet: " + r.rule, r.severity == "critical", if r.severity == "critical" then "rotating_light" else "warning",
      r.message)
  }

  /** The message names the rule and has the alert's words, and a critical alert's, and no other's, is urgent. */
  predicate Announces(m: Message, r: Row) {
    m.title == "fleet: " + r.rule && m.body == r.message &&
    if r.severity == "critical" then m.high && m.tags == "rotating_light" else !m.high && m.tags == "warning"
  }

  /** One message for each row, in order. */
  predicate AnnounceAll(sent: seq<Message>, rows: seq<Row>) {
    |sent| == |rows| && forall i :: 0 <= i < |rows| ==> Announces(sent[i], rows[i])
  }

  /** notify: one message for each row, none without a webhook. */
  method Notify(webhook: bool, alerts: seq<Row>) returns (sent: seq<Message>)
    ensures if webhook then AnnounceAll(sent, alerts) else sent == []
  {
    sent := [];
    if !webhook || |alerts| == 0 { return; }
    for i := 0 to |alerts|
      invariant AnnounceAll(sent, alerts[..i])
    {
      sent := sent + [MessageOf(alerts[i])];
      assert alerts[..i + 1] == alerts[..i] + [alerts[i]];
    }
    assert alerts[..|alerts|] == alerts;
  }

  lemma SettleFirst(a: Row, rest: seq<Row>, at: map<string, Finding>, now: int)
    ensures Settle([a] + rest, at, now) == [SettleRow(a, at, now)] + Settle(rest, Strike(a, at), now)
    ensures Unmet([a] + rest, at) == Unmet(rest, Strike(a, at))
  {
    assert ([a] + rest)[1..] == rest;
  }

  lemma SettleNone(rows: seq<Row>, at: map<string, Finding>, now: int)
    ensures rows == [] ==> Settle(rows, at, now) == [] && Unmet(rows, at) == at
  {
  }

  // ---- the table as the collector updates it ---------------------------------

  class AlertTable {
    var rows: seq<Row>
    var nextId: nat

    constructor ()
      ensures Contents() == EMPTY
    {
      rows, nextId := [], 1;
    }

    ghost function Contents(): Table
      reads this
    {
      Table(rows, nextId)
    }

    /** new Map(findings.map(...)). */
    static method CollectCurrent(findings: seq<Finding>) returns (c: Current)
      ensures c == CurrentOf(findings)
    {
      c := Current([], map[]);
      for i := 0 to |findings|
        invariant c == CurrentOf(findings[..i])
      {
        assert findings[..i + 1][..i] == findings[..i];
        c := SetIn(c, KeyOfFinding(findings[i]), findings[i]);
      }
      assert findings[..|findings|] == findings;
    }

    method ReconcileFindings(findings: seq<Finding>, now: int) returns (added: seq<Row>)
      modifies this
      ensures Contents() == Reconcile(old(Contents()), findings, now)
      ensures added == OpenedBy(old(Contents()), findings, now)
    {
      var c := CollectCurrent(findings);
      var current := SettleRows(c.at, now);
      added := OpenRows(c.order, current, now);
    }

    /** The second loop: open an alert for each finding left, in the map's order. */
    method OpenRows(order: seq<string>, current: map<string, Finding>, now: int) returns (added: seq<Row>)
      modifies this
      ensures added == Opened(order, current, old(nextId), now)
      ensures rows == old(rows) + added && nextId == old(nextId) + |added|
    {
      hide NewRow;
      added := [];
      for i := 0 to |order|
        invariant rows == old(rows) + added && nextId == old(nextId) + |added|
        invariant added + Opened(order[i..], current, nextId, now) == Opened(order, current, old(nextId), now)
      {
        assert order[i..][0] == order[i] && order[i..][1..] == order[i + 1..];
        if order[i] in current {
          var r := NewRow(nextId, current[order[i]], now);
          rows, nextId, added := rows + [r], nextId + 1, added + [r];
        }
      }
    }

    /** The first loop: refresh or resolve each live row, and give what is left of the current findings. */
    method SettleRows(at: map<string, Finding>, now: int) returns (current: map<string, Finding>)
      modifies this`rows
      ensures rows == Settle(old(rows), at, now) && current == Unmet(old(rows), at)
    {
      hide Refresh, Resolve, Key, Settle, Unmet;
      current := at;
      ghost var was := rows;
      var i := 0;
      SettleNone(rows[i..], current, now);
      while i < |rows|
        invariant 0 <= i <= |rows| == |was| && rows[i..] == was[i..]
        invariant rows[..i] + Settle(was[i..], current, now) == Settle(was, at, now)
        invariant Unmet(was[i..], current) == Unmet(was, at)
      {
        var a := rows[i];
        assert was[i..] == [a] + was[i + 1..];
        SettleFirst(a, was[i + 1..], current, now);
        ghost var before := rows[..i];
        ghost var left := current;
        if Live(a) {
          if KeyOfRow(a) in current {
            rows := rows[i := Refresh(a, current[KeyOfRow(a)], now)];
            current := current - {KeyOfRow(a)};
          } else {
            rows := rows[i := Resolve(a, now)];
          }
        }
        assert current == Strike(a, left);
        assert rows[..i + 1] == before + [SettleRow(a, left, now)];
        i := i + 1;
      }
      SettleNone(rows[i..], current, now);
      assert rows[..i] + [] == rows;
    }

    /** expireSnoozes and the two operator requests, each one UPDATE over the rows. */
    method Update(e: Event) returns (changes: nat)
      requires !e.Reconciled?
      modifies this`rows
      ensures Contents() == Do(old(Contents()), e)
      ensures (e.Acknowledged? || e.SnoozedUntil?) ==>
        (changes > 0 <==> exists i :: 0 <= i < |old(rows)| && old(rows)[i].id == e.id && Live(old(rows)[i]))
    {
      changes := 0;
      ghost var was := rows;
      for i := 0 to |rows|
        invariant |rows| == |was| && rows[i..] == was[i..]
        invariant forall j :: 0 <= j < i ==> rows[j] == Moved(was[j], e)
        invariant e.Acknowledged? || e.SnoozedUntil? ==>
          (changes > 0 <==> exists j :: 0 <= j < i && was[j].id == e.id && Live(was[j]))
      {
        assert rows[i] == rows[i..][0] == was[i];
        if (e.Acknowledged? || e.SnoozedUntil?) && rows[i].id == e.id && Live(rows[i]) { changes := changes + 1; }
        rows := rows[i := Moved(rows[i], e)];
      }
      assert rows == MovedAll(was, e);
    }

    /** alertTick: expire, reconcile, and notify of what opened. */
    method AlertTick(findings: seq<Finding>, now: int, webhook: bool) returns (added: seq<Row>, sent: seq<Message>)
      modifies this
      ensures Contents() == Do(Do(old(Contents()), Expired(now)), Reconciled(findings, now))
      ensures added == Announced(Do(old(Contents()), Expired(now)), Reconciled(findings, now))
      ensures if webhook then AnnounceAll(sent, added) else sent == []
    {
      var _ := Update(Expired(now));
      added := ReconcileFindings(findings, now);
      sent := Notify(webhook, added);
    }
  }
}
