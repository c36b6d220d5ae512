// Alerts: reconcile and the waking of a snooze of collector/src/alerts.ts, by which an
// alert is a state and not an event.

module Alerts {
  import opened Text
  import opened Numerals

  datatype State = Open | Acked | Snoozed | Resolved

  datatype Finding = Finding(rule: string, subject: string, severity: string, message: string)

  datatype Row = Row(
    id: nat, rule: string, subject: string, severity: string, message: string, state: State,
    firstSeen: int, lastSeen: int, resolvedAt: Option<int>, snoozeUntil: Option<int>, seenCount: nat)

  /** Rule and subject with a NUL between. */
  function Key(rule: string, subject: string): string {
    rule + ['\0'] + subject
  }

  function KeyOfFinding(f: Finding): string {
    Key(f.rule, f.subject)
  }

  function KeyOfRow(r: Row): string {
    Key(r.rule, r.subject)
  }

  predicate Live(r: Row) {
    r.state != Resolved
  }

  /** A JavaScript Map: its keys in the order they were first set, and what each holds now. */
  datatype Current = Current(order: seq<string>, at: map<string, Finding>)

  /** new Map(findings.map(f => [key(f), f])): a later finding of the same key replaces the earlier. */
  function CurrentOf(findings: seq<Finding>): Current {
    if findings == [] then Current([], map[])
    else
      var c := CurrentOf(findings[..|findings| - 1]);
      var f := findings[|findings| - 1];
      SetIn(c, KeyOfFinding(f), f)
  }

  /** Map.prototype.set. */
  function SetIn(c: Current, k: string, f: Finding): Current {
    Current(if k in c.at then c.order else c.order + [k], c.at[k := f])
  }

  predicate Found(findings: seq<Finding>, k: string) {
    exists i :: 0 <= i < |findings| && KeyOfFinding(findings[i]) == k
  }

  lemma FoundBefore(findings: seq<Finding>, k: string)
    requires findings != []
    ensures Found(findings, k) <==>
      Found(findings[..|findings| - 1], k) || k == KeyOfFinding(findings[|findings| - 1])
  {
    var n := |findings| - 1;
    if i :| 0 <= i < |findings| && KeyOfFinding(findings[i]) == k {
      assert i < n ==> findings[..n][i] == findings[i];
    }
    if i :| 0 <= i < |findings[..n]| && KeyOfFinding(findings[..n][i]) == k {
      assert findings[i] == findings[..n][i];
    }
  }

  lemma {:induction false} CurrentHas(findings: seq<Finding>, k: string)
    ensures var c := CurrentOf(findings);
      (k in c.at <==> Found(findings, k)) && (k in c.order <==> Found(findings, k))
    ensures k in CurrentOf(findings).at ==> KeyOfFinding(CurrentOf(findings).at[k]) == k
  {
    hide Found, KeyOfFinding;
    if findings == [] {
      NothingFound(k);
    } else {
      CurrentHas(findings[..|findings| - 1], k);
      FoundBefore(findings, k);
    }
  }

  lemma NothingFound(k: string)
    ensures !Found([], k)
  {
  }

  predicate Distinct(order: seq<string>) {
    forall i, j :: 0 <= i < j < |order| ==> order[i] != order[j]
  }

  lemma {:induction false} CurrentIsDistinct(findings: seq<Finding>)
    ensures Distinct(CurrentOf(findings).order)
  {
    hide Found, KeyOfFinding;
    if findings != [] {
      var rest := findings[..|findings| - 1];
      CurrentIsDistinct(rest);
      CurrentHas(rest, KeyOfFinding(findings[|findings| - 1]));
    }
  }

  /** f is the last of the findings with this key. */
  predicate IsLatest(findings: seq<Finding>, f: Finding, k: string) {
    exists i :: 0 <= i < |findings| && findings[i] == f && KeyOfFinding(f) == k &&
      forall j :: i < j < |findings| ==> KeyOfFinding(findings[j]) != k
  }

  /** Of several findings with one key, the last is the one folded in. */
  lemma {:induction false} TheLastFindingWins(findings: seq<Finding>, k: string)
    requires k in CurrentOf(findings).at
    ensures IsLatest(findings, CurrentOf(findings).at[k], k)
  {
    hide KeyOfFinding;
    var n := |findings| - 1;
    if KeyOfFinding(findings[n]) != k {
      TheLastFindingWins(findings[..n], k);
      var i :| 0 <= i < n && findings[..n][i] == CurrentOf(findings).at[k] &&
        forall j :: i < j < n ==> KeyOfFinding(findings[..n][j]) != k;
      assert forall j :: i < j < n ==> findings[..n][j] == findings[j];
    }
  }

  // ---- one pass --------------------------------------------------------------

  function Refresh(r: Row, f: Finding, now: int): Row {
    r.(lastSeen := now, seenCount := r.seenCount + 1, message := f.message, severity := f.severity)
  }

  function Resolve(r: Row, now: int): Row {
    r.(state := Resolved, resolvedAt := Some(now))
  }

  /** What the first loop makes of one row, while these findings are still unmet. */
  function SettleRow(r: Row, at: map<string, Finding>, now: int): Row {
    if !Live(r) then r else if KeyOfRow(r) in at then Refresh(r, at[KeyOfRow(r)], now) else Resolve(r, now)
  }

  /** The findings unmet after it. */
  function Strike(r: Row, at: map<string, Finding>): map<string, Finding> {
    if Live(r) then at - {KeyOfRow(r)} else at
  }

  /** The rows after the first loop: the first live row of a current key is refreshed, other live rows resolved. */
  function Settle(rows: seq<Row>, at: map<string, Finding>, now: int): (r: seq<Row>)
    ensures |r| == |rows|
  {
    if rows == [] then [] else [SettleRow(rows[0], at, now)] + Settle(rows[1..], Strike(rows[0], at), now)
  }

  /** The keys the first loop leaves, to be opened. */
  function Unmet(rows: seq<Row>, at: map<string, Finding>): map<string, Finding> {
    if rows == [] then at else Unmet(rows[1..], Strike(rows[0], at))
  }

  function NewRow(id: nat, f: Finding, now: int): Row {
    Row(id, f.rule, f.subject, f.severity, f.message, Open, now, now, None, None, 1)
  }

  /** The rows the second loop inserts, in the map's order. */
  function Opened(order: seq<string>, at: map<string, Finding>, id: nat, now: int): seq<Row> {
    if order == [] then []
    else if order[0] in at then [NewRow(id, at[order[0]], now)] + Opened(order[1..], at, id + 1, now)
    else Opened(order[1..], at, id, now)
  }

  datatype Table = Table(rows: seq<Row>, nextId: nat)

  function OpenedBy(t: Table, findings: seq<Finding>, now: int): seq<Row> {
    var c := CurrentOf(findings);
    Opened(c.order, Unmet(t.rows, c.at), t.nextId, now)
  }

  function Reconcile(t: Table, findings: seq<Finding>, now: int): Table {
    var added := OpenedBy(t, findings, now);
    Table(Settle(t.rows, CurrentOf(findings).at, now) + added, t.nextId + |added|)
  }

  function Wake(r: Row, now: int): Row {
    if r.state == Snoozed && r.snoozeUntil.Some? && r.snoozeUntil.value <= now
    then r.(state := Open, snoozeUntil := None) else r
  }

  // ---- counting live rows ----------------------------------------------------

  function LiveCount(rows: seq<Row>, k: string): nat {
    if rows == [] then 0
    else (if Live(rows[0]) && KeyOfRow(rows[0]) == k then 1 else 0) + LiveCount(rows[1..], k)
  }

  lemma {:induction false} LiveCountJoin(a: seq<Row>, b: seq<Row>, k: string)
    ensures LiveCount(a + b, k) == LiveCount(a, k) + LiveCount(b, k)
  {
    if a == [] {
      assert a + b == b;
    } else {
      assert (a + b)[1..] == a[1..] + b;
      LiveCountJoin(a[1..], b, k);
    }
  }

  lemma {:induction false} LiveCountPositive(rows: seq<Row>, k: string)
    ensures LiveCount(rows, k) > 0 <==> exists i :: 0 <= i < |rows| && Live(rows[i]) && KeyOfRow(rows[i]) == k
  {
    if rows != [] {
      LiveCountPositive(rows[1..], k);
      if i :| 0 <= i < |rows[1..]| && Live(rows[1..][i]) && KeyOfRow(rows[1..][i]) == k {
        assert rows[i + 1] == rows[1..][i];
      }
      if i :| 0 < i < |rows| && Live(rows[i]) && KeyOfRow(rows[i]) == k {
        assert rows[1..][i - 1] == rows[i];
      }
    }
  }

  lemma {:induction false} UnmetAre(rows: seq<Row>, at: map<string, Finding>, k: string)
    ensures k in Unmet(rows, at) <==> k in at && LiveCount(rows, k) == 0
    ensures k in Unmet(rows, at) ==> Unmet(rows, at)[k] == at[k]
  {
    if rows != [] { UnmetAre(rows[1..], Strike(rows[0], at), k); }
  }

  /** Of the live rows of a current key the first loop leaves one, and of any other key none. */
  lemma {:induction false} SettleLeavesOne(rows: seq<Row>, at: map<string, Finding>, now: int, k: string)
    ensures LiveCount(Settle(rows, at, now), k) == if k in at && LiveCount(rows, k) > 0 then 1 else 0
  {
    if rows != [] {
      SettleLeavesOne(rows[1..], Strike(rows[0], at), now, k);
      assert Settle(rows, at, now)[1..] == Settle(rows[1..], Strike(rows[0], at), now);
    }
  }

  lemma {:induction false} OpenedAre(order: seq<string>, at: map<string, Finding>, id: nat, now: int, k: string)
    requires Keyed(at) && Distinct(order)
    ensures LiveCount(Opened(order, at, id, now), k) == if k in order && k in at then 1 else 0
  {
    if order != [] {
      var o := Opened(order, at, id, now);
      if order[0] in at {
        OpenedAre(order[1..], at, id + 1, now, k);
        assert o[1..] == Opened(order[1..], at, id + 1, now);
        assert KeyOfRow(o[0]) == KeyOfFinding(at[order[0]]);
      } else {
        OpenedAre(order[1..], at, id, now, k);
      }
      assert k == order[0] ==> k !in order[1..];
    }
  }

  predicate Keyed(at: map<string, Finding>) {
    forall x :: x in at ==> KeyOfFinding(at[x]) == x
  }

  lemma UnmetIsKeyed(rows: seq<Row>, findings: seq<Finding>)
    ensures Keyed(Unmet(rows, CurrentOf(findings).at))
  {
    hide KeyOfFinding, CurrentOf, Unmet;
    var at := CurrentOf(findings).at;
    forall x ensures x in Unmet(rows, at) ==> KeyOfFinding(Unmet(rows, at)[x]) == x {
      UnmetAre(rows, at, x);
      CurrentHas(findings, x);
    }
  }

  /** From any table whatever, reconcile leaves one live row for each key found and none for any other. */
  lemma OneLiveRowPerFinding(t: Table, findings: seq<Finding>, now: int, k: string)
    ensures LiveCount(Reconcile(t, findings, now).rows, k) == if Found(findings, k) then 1 else 0
    ensures LiveCount(OpenedBy(t, findings, now), k) == if Found(findings, k) && LiveCount(t.rows, k) == 0 then 1 else 0
  {
    hide LiveCount, CurrentOf, Settle, Unmet, Opened, Found, Keyed, Distinct;
    var c := CurrentOf(findings);
    CurrentHas(findings, k);
    CurrentIsDistinct(findings);
    SettleLeavesOne(t.rows, c.at, now, k);
    UnmetAre(t.rows, c.at, k);
    UnmetIsKeyed(t.rows, findings);
    OpenedAre(c.order, Unmet(t.rows, c.at), t.nextId, now, k);
    LiveCountJoin(Settle(t.rows, c.at, now), OpenedBy(t, findings, now), k);
  }

  // ---- what is kept ----------------------------------------------------------

  /** What one pass may make of a row: nothing if resolved, else it is resolved as it stood or refreshed by the last finding of its key. */
  ghost predicate Carried(r: Row, r': Row, findings: seq<Finding>, now: int) {
    if !Live(r) then r' == r
    else if Found(findings, KeyOfRow(r)) then
      r' == Resolve(r, now) || exists f :: IsLatest(findings, f, KeyOfRow(r)) && r' == Refresh(r, f, now)
    else r' == Resolve(r, now)
  }

  lemma {:induction false} SettleKeeps(rows: seq<Row>, at: map<string, Finding>, now: int, i: nat)
    requires i < |rows|
    ensures var r := Settle(rows, at, now)[i];
      if !Live(rows[i]) then r == rows[i]
      else if KeyOfRow(rows[i]) !in at then r == Resolve(rows[i], now)
      else (r == Resolve(rows[i], now) || r == Refresh(rows[i], at[KeyOfRow(rows[i])], now))
  {
    if i > 0 { SettleKeeps(rows[1..], Strike(rows[0], at), now, i - 1); }
  }

  lemma SettleCarries(t: Table, findings: seq<Finding>, now: int, i: nat)
    requires i < |t.rows|
    ensures Carried(t.rows[i], Settle(t.rows, CurrentOf(findings).at, now)[i], findings, now)
  {
    hide Settle, CurrentOf, Found, KeyOfFinding, IsLatest;
    var k := KeyOfRow(t.rows[i]);
    SettleKeeps(t.rows, CurrentOf(findings).at, now, i);
    CurrentHas(findings, k);
    if k in CurrentOf(findings).at { TheLastFindingWins(findings, k); }
  }

  /** A row as reconcile inserts it, from the last finding of its key. */
  ghost predicate Newborn(r: Row, findings: seq<Finding>, id: nat, now: int) {
    exists f :: IsLatest(findings, f, KeyOfRow(r)) && r == NewRow(id, f, now)
  }

  lemma {:induction false} OpenedFrom(order: seq<string>, at: map<string, Finding>, id: nat, now: int, i: nat)
    requires i < |Opened(order, at, id, now)| && Keyed(at)
    ensures var r := Opened(order, at, id, now)[i]; KeyOfRow(r) in at && r == NewRow(id + i, at[KeyOfRow(r)], now)
  {
    hide Key;
    if order[0] in at {
      if i > 0 { OpenedFrom(order[1..], at, id + 1, now, i - 1); }
    } else {
      OpenedFrom(order[1..], at, id, now, i);
    }
  }

  lemma OpenedAreNewborn(t: Table, findings: seq<Finding>, now: int, i: nat)
    requires i < |OpenedBy(t, findings, now)|
    ensures Newborn(OpenedBy(t, findings, now)[i], findings, t.nextId + i, now)
  {
    hide CurrentOf, Unmet, Opened, IsLatest, Keyed, KeyOfRow, NewRow;
    var c := CurrentOf(findings);
    var r := OpenedBy(t, findings, now)[i];
    UnmetIsKeyed(t.rows, findings);
    OpenedFrom(c.order, Unmet(t.rows, c.at), t.nextId, now, i);
    UnmetAre(t.rows, c.at, KeyOfRow(r));
    TheLastFindingWins(findings, KeyOfRow(r));
  }

  /**
   * reconcile deletes nothing and rewrites no resolved row; every other row is
   * resolved as it stood or refreshed from the last finding of its own key;
   * what it returns is what it appended, freshly opened from such a finding.
   */
  lemma ReconcileKeepsHistory(t: Table, findings: seq<Finding>, now: int)
    ensures |t.rows| <= |Reconcile(t, findings, now).rows|
    ensures Reconcile(t, findings, now).rows[|t.rows|..] == OpenedBy(t, findings, now)
    ensures forall i :: 0 <= i < |t.rows| ==> Carried(t.rows[i], Reconcile(t, findings, now).rows[i], findings, now)
    ensures forall i :: 0 <= i < |OpenedBy(t, findings, now)| ==>
      Newborn(OpenedBy(t, findings, now)[i], findings, t.nextId + i, now)
  {
    hide Settle, CurrentOf, Opened, Unmet, Carried, Newborn;
    var t' := Reconcile(t, findings, now);
    var added := OpenedBy(t, findings, now);
    forall i | 0 <= i < |t.rows| ensures Carried(t.rows[i], t'.rows[i], findings, now) {
      SettleCarries(t, findings, now, i);
    }
    forall i | 0 <= i < |added| ensures Newborn(added[i], findings, t.nextId + i, now) {
      OpenedAreNewborn(t, findings, now, i);
    }
  }

  // ---- the order of what opens -----------------------------------------------

  /** The first finding of the key is the i-th. */
  predicate FirstAt(findings: seq<Finding>, k: string, i: nat) {
    i < |findings| && KeyOfFinding(findings[i]) == k && forall j :: 0 <= j < i ==> KeyOfFinding(findings[j]) != k
  }

  /** The keys stand in the order of their first findings, which at gives. */
  predicate InOrder(findings: seq<Finding>, order: seq<string>, at: seq<nat>) {
    |at| == |order| && (forall p :: 0 <= p < |order| ==> FirstAt(findings, order[p], at[p])) &&
    forall p, q :: 0 <= p < q < |order| ==> at[p] < at[q]
  }

  lemma FirstsStay(front: seq<Finding>, f: Finding, k: string, i: nat)
    requires FirstAt(front, k, i)
    ensures FirstAt(front + [f], k, i)
  {
  }

  /** A key that is found again keeps its place. */
  lemma {:induction false} CurrentIsInOrder(findings: seq<Finding>) returns (at: seq<nat>)
    ensures InOrder(findings, CurrentOf(findings).order, at)
  {
    hide KeyOfFinding, FirstAt, Found;
    if findings == [] {
      at := [];
    } else {
      var front, f := findings[..|findings| - 1], findings[|findings| - 1];
      var k := KeyOfFinding(f);
      at := CurrentIsInOrder(front);
      assert findings == front + [f];
      var order := CurrentOf(front).order;
      forall p | 0 <= p < |order| ensures FirstAt(findings, order[p], at[p]) { FirstsStay(front, f, order[p], at[p]); }
      forall p | 0 <= p < |order| ensures at[p] < |front| { IsInside(front, order[p], at[p]); }
      CurrentHas(front, k);
      if k !in CurrentOf(front).at {
        NewIsFirst(front, f);
        at := at + [|front|];
      }
    }
  }

  lemma IsInside(findings: seq<Finding>, k: string, i: nat)
    requires FirstAt(findings, k, i)
    ensures i < |findings|
  {
  }

  lemma NewIsFirst(front: seq<Finding>, f: Finding)
    requires !Found(front, KeyOfFinding(f))
    ensures FirstAt(front + [f], KeyOfFinding(f), |front|)
  {
  }

  /** Where in the order the p-th opened row's key stands. */
  lemma {:induction false} OpenedPlaces(order: seq<string>, at: map<string, Finding>, id: nat, now: int) returns (place: seq<nat>)
    requires Keyed(at)
    ensures var o := Opened(order, at, id, now);
      Rising(place, |order|) && |place| == |o| && forall p :: 0 <= p < |o| ==> KeyOfRow(o[p]) == order[place[p]]
  {
    hide Key;
    if order == [] {
      place := [];
    } else if order[0] in at {
      var rest := OpenedPlaces(order[1..], at, id + 1, now);
      RisingShift(rest, |order| - 1);
      place := [0] + Shifted(rest);
    } else {
      var rest := OpenedPlaces(order[1..], at, id, now);
      RisingShift(rest, |order| - 1);
      place := Shifted(rest);
    }
  }

  /** Alerts open, and are returned to be announced, in the order in which their conditions were first found. */
  lemma OpenedInTheOrderFound(t: Table, findings: seq<Finding>, now: int) returns (at: seq<nat>)
    ensures var o := OpenedBy(t, findings, now);
      Rising(at, |findings|) && |at| == |o| && forall p :: 0 <= p < |o| ==> FirstAt(findings, KeyOfRow(o[p]), at[p])
  {
    hide Opened, CurrentOf, Unmet, FirstAt, Keyed, KeyOfRow;
    var c := CurrentOf(findings);
    var all := CurrentIsInOrder(findings);
    UnmetIsKeyed(t.rows, findings);
    var place := OpenedPlaces(c.order, Unmet(t.rows, c.at), t.nextId, now);
    at := seq(|place|, p requires 0 <= p < |place| => all[place[p]]);
    forall p | 0 <= p < |at| ensures at[p] < |findings| { IsInside(findings, c.order[place[p]], at[p]); }
  }

  // ---- keys ------------------------------------------------------------------

  /** With NUL-free rules a key says which rule and which subject. */
  lemma KeysTellPairsApart(r1: string, s1: string, r2: string, s2: string)
    requires '\0' !in r1 && '\0' !in r2
    ensures Key(r1, s1) == Key(r2, s2) <==> r1 == r2 && s1 == s2
  {
    FirstIndex(r1, '\0', s1);
    FirstIndex(r2, '\0', s2);
  }

  /** With a NUL in a rule two alerts can be taken for one. */
  lemma ANulInARuleCollides()
    ensures Key("a\0b", "c") == Key("a", "b\0c")
  {
    assert "a\0b" == "a" + ['\0'] + "b";
    assert "b\0c" == "b" + ['\0'] + "c";
    assert Key("a\0b", "c") == "a" + ['\0'] + "b" + ['\0'] + "c";
    assert Key("a", "b\0c") == "a" + ['\0'] + ("b" + ['\0'] + "c");
  }
}
