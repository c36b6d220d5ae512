// MigrationStore: migrate() and backfillSkipped() as they run, table by table
// and loop by loop, proved to be the functions of Migration.

module MigrationStore {
  import opened Text
  import opened Migration

  /** The column loops ask table_info once, before the first ALTER. */
  method AddMissingColumns(t: Table, added: seq<(string, Cell)>) returns (t': Table)
    requires forall i, j :: 0 <= i < j < |added| ==> added[i].0 != added[j].0
    ensures t' == AddColumns(t, added)
  {
    t' := t;
    var has := t.columns;
    for i := 0 to |added|
      invariant AddColumns(t', added[i..]) == AddColumns(t, added)
      invariant forall j :: i <= j < |added| ==> (added[j].0 in t'.columns <==> added[j].0 in has)
    {
      assert added[i..][0] == added[i] && added[i..][1..] == added[i + 1..];
      if added[i].0 !in has {
        t' := AddColumn(t', added[i].0, added[i].1);
      }
    }
  }

  /** UPDATE jobs SET status = 'skipped', last_error = reason WHERE job_id = id AND status = 'done'. */
  function SkipRow(r: Row, id: string, reason: string): Row {
    if Get(r, "job_id") == Str(id) && Get(r, "status") == Str("done")
    then r["status" := Str("skipped")]["last_error" := Str(reason)] else r
  }

  predicate Relabels<P>(rules: Rules<P>, results: seq<Result>, r: Row) {
    Get(r, "status") == Str("done") && Get(r, "job_id").Str? && SkipReason(rules, results, Get(r, "job_id").text).Some?
  }

  /** How many of these rows the backfill relabels. */
  function RelabelCount<P>(rules: Rules<P>, results: seq<Result>, rows: seq<Row>): nat {
    if rows == [] then 0
    else RelabelCount(rules, results, rows[..|rows| - 1]) + (if Relabels(rules, results, rows[|rows| - 1]) then 1 else 0)
  }

  lemma CountNext<P>(rules: Rules<P>, results: seq<Result>, rows: seq<Row>, i: nat)
    requires i < |rows|
    ensures RelabelCount(rules, results, rows[..i + 1]) ==
      RelabelCount(rules, results, rows[..i]) + (if Relabels(rules, results, rows[i]) then 1 else 0)
  {
    assert rows[..i + 1][..i] == rows[..i];
  }

  lemma CountAppend<P>(rules: Rules<P>, results: seq<Result>, rows: seq<Row>, r: Row)
    ensures RelabelCount(rules, results, rows + [r]) ==
      RelabelCount(rules, results, rows) + (if Relabels(rules, results, r) then 1 else 0)
  {
    assert (rows + [r])[..|rows|] == rows;
  }

  lemma SkippedIsNotDone(r: Row, id: string, reason: string)
    ensures Get(r, "job_id") == Str(id) && Get(r, "status") == Str("done") ==>
      Get(SkipRow(r, id, reason), "status") == Str("skipped") && Str("skipped") != Str("done")
  {
  }

  /** One UPDATE over the table: the new rows, and how many it changed. */
  method UpdateSkipped<P>(rules: Rules<P>, results: seq<Result>, rows: seq<Row>, id: string, reason: string)
    returns (rows': seq<Row>, changes: nat)
    requires SkipReason(rules, results, id) == Some(reason)
    ensures |rows'| == |rows|
    ensures forall i :: 0 <= i < |rows| ==> rows'[i] == SkipRow(rows[i], id, reason)
    ensures changes + RelabelCount(rules, results, rows') == RelabelCount(rules, results, rows)
  {
    hide SkipReason, SkipRow, Get;
    rows', changes := [], 0;
    for i := 0 to |rows|
      invariant |rows'| == i
      invariant forall j :: 0 <= j < i ==> rows'[j] == SkipRow(rows[j], id, reason)
      invariant changes + RelabelCount(rules, results, rows') == RelabelCount(rules, results, rows[..i])
    {
      CountNext(rules, results, rows, i);
      CountAppend(rules, results, rows', SkipRow(rows[i], id, reason));
      UpdateCounts(rules, results, rows[i], id, reason);
      if Get(rows[i], "job_id") == Str(id) && Get(rows[i], "status") == Str("done") { changes := changes + 1; }
      rows' := rows' + [SkipRow(rows[i], id, reason)];
    }
    assert rows[..|rows|] == rows;
  }

  lemma UpdateCounts<P>(rules: Rules<P>, results: seq<Result>, r: Row, id: string, reason: string)
    requires SkipReason(rules, results, id) == Some(reason)
    ensures if Get(r, "job_id") == Str(id) && Get(r, "status") == Str("done")
      then Relabels(rules, results, r) && !Relabels(rules, results, SkipRow(r, id, reason))
      else SkipRow(r, id, reason) == r
  {
    hide SkipReason;
    SkippedIsNotDone(r, id, reason);
  }

  lemma {:induction false} NoneLeft<P>(rules: Rules<P>, results: seq<Result>, rows: seq<Row>)
    requires forall i :: 0 <= i < |rows| ==> !Relabels(rules, results, rows[i])
    ensures RelabelCount(rules, results, rows) == 0
  {
    if rows != [] { NoneLeft(rules, results, rows[..|rows| - 1]); }
  }

  lemma RelabelledOnce<P>(rules: Rules<P>, results: seq<Result>, r: Row)
    ensures !Relabels(rules, results, Relabel(rules, results, r))
    ensures Relabel(rules, results, Relabel(rules, results, r)) == Relabel(rules, results, r)
  {
    hide SkipReason;
    var r' := Relabel(rules, results, r);
    if Relabels(rules, results, r) {
      assert Get(r', "status") == Str("skipped");
    }
  }

  /** The backfill run again finds nothing to do. */
  lemma BackfillTwiceIsOnce<P>(rules: Rules<P>, results: seq<Result>, t: Table)
    ensures var t' := Backfill(rules, results, t);
      RelabelCount(rules, results, t'.rows) == 0 && Backfill(rules, results, t') == t'
  {
    hide Relabel, Relabels;
    var t' := Backfill(rules, results, t);
    forall i | 0 <= i < |t'.rows|
      ensures !Relabels(rules, results, t'.rows[i]) && Relabel(rules, results, t'.rows[i]) == t'.rows[i]
    {
      RelabelledOnce(rules, results, t.rows[i]);
    }
    NoneLeft(rules, results, t'.rows);
    assert Backfill(rules, results, t').rows == t'.rows;
  }

  /** A done job with a result row that mentions a skip. */
  predicate IsCandidate<P>(rules: Rules<P>, results: seq<Result>, r: Row) {
    Get(r, "status") == Str("done") && Get(r, "job_id").Str? && HasSkipRow(rules, results, Get(r, "job_id").text)
  }

  lemma RelabelledAreCandidates<P>(rules: Rules<P>, results: seq<Result>, r: Row)
    ensures Relabels(rules, results, r) ==> IsCandidate(rules, results, r) && Get(r, "job_id").Str?
  {
    hide HasSkipRow;
  }

  function CandidateIds<P>(rules: Rules<P>, results: seq<Result>, rows: seq<Row>): seq<string> {
    if rows == [] then []
    else
      var r := rows[|rows| - 1];
      CandidateIds(rules, results, rows[..|rows| - 1]) +
      if IsCandidate(rules, results, r) then [Get(r, "job_id").text] else []
  }

  predicate HasId(r: Row, id: string) {
    Get(r, "job_id") == Str(id)
  }

  /** The ids are those of the candidates and of no other job. */
  lemma {:induction false} CandidateIdsAre<P>(rules: Rules<P>, results: seq<Result>, rows: seq<Row>, id: string)
    ensures id in CandidateIds(rules, results, rows) <==>
      exists i :: 0 <= i < |rows| && IsCandidate(rules, results, rows[i]) && HasId(rows[i], id)
  {
    hide HasSkipRow;
    if rows != [] {
      var front, n := rows[..|rows| - 1], |rows| - 1;
      CandidateIdsAre(rules, results, front, id);
      if i :| 0 <= i < |rows| && IsCandidate(rules, results, rows[i]) && HasId(rows[i], id) {
        assert i < n ==> front[i] == rows[i];
      }
      if i :| 0 <= i < |front| && IsCandidate(rules, results, front[i]) && HasId(front[i], id) {
        assert rows[i] == front[i];
      }
    }
  }

  lemma AreCandidates<P>(rules: Rules<P>, results: seq<Result>, rows: seq<Row>, id: string)
    requires id in CandidateIds(rules, results, rows)
    ensures HasSkipRow(rules, results, id)
  {
    hide HasSkipRow, CandidateIds;
    CandidateIdsAre(rules, results, rows, id);
  }

  /** The candidates' query, in the table's order. */
  method Candidates<P>(rules: Rules<P>, results: seq<Result>, rows: seq<Row>) returns (ids: seq<string>)
    ensures ids == CandidateIds(rules, results, rows)
  {
    hide HasSkipRow;
    ids := [];
    for i := 0 to |rows|
      invariant ids == CandidateIds(rules, results, rows[..i])
    {
      assert rows[..i + 1][..i] == rows[..i];
      var r := rows[i];
      if Get(r, "status") == Str("done") && Get(r, "job_id").Str? && HasSkipRow(rules, results, Get(r, "job_id").text) {
        ids := ids + [Get(r, "job_id").text];
      }
    }
    assert rows[..|rows|] == rows;
  }

  /** A row once the candidates in ids have been judged. */
  function Judged<P>(rules: Rules<P>, results: seq<Result>, r: Row, ids: seq<string>): Row {
    if Get(r, "job_id").Str? && Get(r, "job_id").text in ids then Relabel(rules, results, r) else r
  }

  lemma JudgeNext<P>(rules: Rules<P>, results: seq<Result>, r: Row, ids: seq<string>, id: string)
    ensures var reason := SkipReason(rules, results, id); var r1 := Judged(rules, results, r, ids);
      Judged(rules, results, r, ids + [id]) == if reason.Some? then SkipRow(r1, id, reason.value) else r1
  {
    hide SkipReason;
    RelabelledOnce(rules, results, r);
  }

  // ---- how a candidate is judged ---------------------------------------------

  /** The positions of the job's result rows, in the order they are read. */
  predicate AreRowsOf(results: seq<Result>, id: string, idx: seq<nat>) {
    Rising(idx, |results|) && forall i :: 0 <= i < |results| ==> (i in idx <==> results[i].jobId == id)
  }

  /** The rows are those at these positions. */
  ghost predicate AreAt<P>(rules: Rules<P>, results: seq<Result>, idx: seq<nat>, rows: seq<(string, P)>) {
    |rows| == |idx| && forall j :: 0 <= j < |idx| ==>
      idx[j] < |results| && rows[j] == (results[idx[j]].deviceId, rules.parse(results[idx[j]].payload))
  }

  /** A job is judged on its own result rows, all of them and in order. */
  lemma {:induction false} RowsOfAre<P>(rules: Rules<P>, results: seq<Result>, id: string) returns (idx: seq<nat>)
    ensures AreRowsOf(results, id, idx) && AreAt(rules, results, idx, RowsOf(rules, results, id))
  {
    hide AreRowsOf, AreAt, Shifted;
    if results == [] {
      idx := [];
      NoResults(rules, id);
    } else {
      var rest := RowsOfAre(rules, results[1..], id);
      PositionsShift(results, id, rest);
      RowsShift(rules, results, rest, RowsOf(rules, results[1..], id));
      if results[0].jobId == id {
        idx := [0] + Shifted(rest);
      } else {
        idx := Shifted(rest);
        assert [] + RowsOf(rules, results[1..], id) == RowsOf(rules, results[1..], id);
        assert [] + idx == idx;
      }
    }
  }

  lemma NoResults<P>(rules: Rules<P>, id: string)
    ensures AreRowsOf([], id, []) && AreAt(rules, [], [], RowsOf(rules, [], id))
  {
  }

  lemma RowsShift<P>(rules: Rules<P>, results: seq<Result>, rest: seq<nat>, rows: seq<(string, P)>)
    requires results != [] && AreAt(rules, results[1..], rest, rows)
    ensures AreAt(rules, results, Shifted(rest), rows)
    ensures AreAt(rules, results, [0] + Shifted(rest), [(results[0].deviceId, rules.parse(results[0].payload))] + rows)
  {
    hide Shifted;
    forall j | 0 <= j < |rest| ensures results[1..][rest[j]] == results[Shifted(rest)[j]] {}
  }

  lemma PositionsShift(results: seq<Result>, id: string, rest: seq<nat>)
    requires results != [] && AreRowsOf(results[1..], id, rest)
    ensures AreRowsOf(results, id, (if results[0].jobId == id then [0] else []) + Shifted(rest))
  {
    hide Shifted;
    RisingShift(rest, |results| - 1);
    var more := [0] + Shifted(rest);
    assert more[0] == 0;
    forall i | 0 <= i < |results| ensures i in Shifted(rest) <==> i > 0 && results[i].jobId == id {
      ShiftedHas(rest, i);
      if i > 0 { assert results[1..][i - 1] == results[i]; }
    }
    assert [] + Shifted(rest) == Shifted(rest);
  }

  /** The payload of a row that is final, and no row after it is. */
  ghost predicate IsLastFinal<P>(rules: Rules<P>, rows: seq<(string, P)>, payload: P) {
    exists i :: 0 <= i < |rows| && rows[i].1 == payload && rules.isFinal(payload) &&
      forall j :: i < j < |rows| ==> !rules.isFinal(rows[j].1)
  }

  /** A job is judged by the last of its rows that is final, and not judged if none is. */
  lemma {:induction false} LastFinalIs<P>(rules: Rules<P>, rows: seq<(string, P)>)
    ensures var last := LastFinal(rules, rows);
      if last.Some? then IsLastFinal(rules, rows, last.value) else forall i :: 0 <= i < |rows| ==> !rules.isFinal(rows[i].1)
  {
    if rows != [] && !rules.isFinal(rows[|rows| - 1].1) {
      var front := rows[..|rows| - 1];
      LastFinalIs(rules, front);
      forall i | 0 <= i < |front| ensures front[i] == rows[i] {}
    }
  }

  /** The row at i is final, and none after it is. */
  predicate LastFinalAt<P>(rules: Rules<P>, rows: seq<(string, P)>, i: nat) {
    i < |rows| && rules.isFinal(rows[i].1) && forall j :: i < j < |rows| ==> !rules.isFinal(rows[j].1)
  }

  lemma OneLastFinal<P>(rules: Rules<P>, rows: seq<(string, P)>, a: P, b: P)
    requires IsLastFinal(rules, rows, a) && IsLastFinal(rules, rows, b)
    ensures a == b
  {
    var i :| 0 <= i < |rows| && rows[i].1 == a && rules.isFinal(a) && forall j :: i < j < |rows| ==> !rules.isFinal(rows[j].1);
    var k :| 0 <= k < |rows| && rows[k].1 == b && rules.isFinal(b) && forall j :: k < j < |rows| ==> !rules.isFinal(rows[j].1);
    OnePosition(rules, rows, i, k);
  }

  lemma OnePosition<P>(rules: Rules<P>, rows: seq<(string, P)>, i: nat, k: nat)
    requires LastFinalAt(rules, rows, i) && LastFinalAt(rules, rows, k)
    ensures i == k
  {
  }

  /** The rule gives this reason for the rows and the last of them that is final. */
  ghost predicate Gives<P(!new)>(rules: Rules<P>, rows: seq<(string, P)>, reason: string) {
    exists last :: IsLastFinal(rules, rows, last) && rules.skipReason(rows, last) == Some(reason)
  }

  lemma GivesExactlyWhen<P(!new)>(rules: Rules<P>, rows: seq<(string, P)>, reason: string)
    ensures Gives(rules, rows, reason) <==>
      LastFinal(rules, rows).Some? && rules.skipReason(rows, LastFinal(rules, rows).value) == Some(reason)
  {
    hide IsLastFinal, LastFinal;
    LastFinalIs(rules, rows);
    var last := LastFinal(rules, rows);
    if last.Some? {
      assert IsLastFinal(rules, rows, last.value);
      if p :| IsLastFinal(rules, rows, p) && rules.skipReason(rows, p) == Some(reason) {
        OneLastFinal(rules, rows, p, last.value);
      }
    } else {
      forall p ensures !IsLastFinal(rules, rows, p) { NoLastFinal(rules, rows, p); }
    }
  }

  /**
   * A job is skipped for a reason exactly when a row of its own mentions a skip
   * and the rule gives that reason for all its rows and the last final one.
   */
  lemma SkippedExactlyWhen<P(!new)>(rules: Rules<P>, results: seq<Result>, id: string, reason: string)
    ensures SkipReason(rules, results, id) == Some(reason) <==>
      (exists i :: 0 <= i < |results| && results[i].jobId == id && rules.mentionsSkip(results[i].payload)) &&
      Gives(rules, RowsOf(rules, results, id), reason)
  {
    hide LastFinal, RowsOf, Gives;
    GivesExactlyWhen(rules, RowsOf(rules, results, id), reason);
  }

  lemma NoLastFinal<P>(rules: Rules<P>, rows: seq<(string, P)>, payload: P)
    requires forall i :: 0 <= i < |rows| ==> !rules.isFinal(rows[i].1)
    ensures !IsLastFinal(rules, rows, payload)
  {
  }

  lemma RowsNext<P>(rules: Rules<P>, results: seq<Result>, i: nat, id: string)
    requires i < |results|
    ensures RowsOf(rules, results[i..], id) ==
      (if results[i].jobId == id then [(results[i].deviceId, rules.parse(results[i].payload))] else [])
      + RowsOf(rules, results[i + 1..], id)
  {
    assert results[i..][1..] == results[i + 1..];
  }

  lemma RowsEnd<P>(rules: Rules<P>, results: seq<Result>, id: string)
    ensures results[0..] == results && RowsOf(rules, results[|results|..], id) == []
  {
  }

  /** SELECT device_id, payload WHERE job_id = id ORDER BY iter, rowid, each payload parsed. */
  method GatherRows<P>(rules: Rules<P>, results: seq<Result>, id: string) returns (rows: seq<(string, P)>)
    ensures rows == RowsOf(rules, results, id)
  {
    hide RowsOf;
    rows := [];
    RowsEnd(rules, results, id);
    for i := 0 to |results|
      invariant rows + RowsOf(rules, results[i..], id) == RowsOf(rules, results, id)
    {
      RowsNext(rules, results, i, id);
      if results[i].jobId == id { rows := rows + [(results[i].deviceId, rules.parse(results[i].payload))]; }
    }
  }

  /** The loop's body for one candidate: its rows, searched from the end for a final one. */
  method JudgeCandidate<P>(rules: Rules<P>, results: seq<Result>, id: string) returns (reason: Option<string>)
    requires HasSkipRow(rules, results, id)
    ensures reason == SkipReason(rules, results, id)
  {
    hide HasSkipRow, RowsOf;
    var rows := GatherRows(rules, results, id);
    assert rows[..|rows|] == rows;
    var n := |rows|;
    while n > 0
      invariant 0 <= n <= |rows| && LastFinal(rules, rows[..n]) == LastFinal(rules, rows)
    {
      assert rows[..n][..n - 1] == rows[..n - 1];
      var payload := rows[n - 1].1;
      if rules.isFinal(payload) { return rules.skipReason(rows, payload); }
      n := n - 1;
    }
    return None;
  }

  /** backfillSkipped: every candidate judged in turn; the number of jobs relabelled. */
  method BackfillSkipped<P>(rules: Rules<P>, results: seq<Result>, t: Table) returns (t': Table, n: nat)
    ensures t' == Backfill(rules, results, t)
    ensures n == RelabelCount(rules, results, t.rows)
  {
    hide Relabel, Relabels, SkipReason, Judged, SkipRow, IsCandidate, CandidateIds;
    var ids := Candidates(rules, results, t.rows);
    var rows := t.rows;
    forall j | 0 <= j < |rows| && Relabels(rules, results, rows[j])
      ensures Get(rows[j], "job_id").Str? && Get(rows[j], "job_id").text in ids
    {
      RelabelledAreCandidates(rules, results, rows[j]);
      assert HasId(rows[j], Get(rows[j], "job_id").text);
      CandidateIdsAre(rules, results, rows, Get(rows[j], "job_id").text);
    }
    n := 0;
    forall j | 0 <= j < |rows| ensures Judged(rules, results, rows[j], []) == rows[j] { JudgedByNone(rules, results, rows[j]); }
    assert ids[..0] == [];
    for i := 0 to |ids|
      invariant |rows| == |t.rows|
      invariant forall j :: 0 <= j < |rows| ==> rows[j] == Judged(rules, results, t.rows[j], ids[..i])
      invariant n + RelabelCount(rules, results, rows) == RelabelCount(rules, results, t.rows)
    {
      AreCandidates(rules, results, t.rows, ids[i]);
      var reason := JudgeCandidate(rules, results, ids[i]);
      forall j | 0 <= j < |rows|
        ensures Judged(rules, results, t.rows[j], ids[..i + 1]) ==
          if reason.Some? then SkipRow(rows[j], ids[i], reason.value) else rows[j]
      {
        JudgeNext(rules, results, t.rows[j], ids[..i], ids[i]);
        assert ids[..i + 1] == ids[..i] + [ids[i]];
      }
      if reason.Some? {
        var changes;
        rows, changes := UpdateSkipped(rules, results, rows, ids[i], reason.value);
        n := n + changes;
      }
    }
    assert ids[..|ids|] == ids;
    forall j | 0 <= j < |rows| ensures rows[j] == Relabel(rules, results, t.rows[j]) {
      JudgedByAll(rules, results, t.rows[j], ids);
    }
    t' := t.(rows := rows);
    assert rows == Backfill(rules, results, t).rows;
    BackfillTwiceIsOnce(rules, results, t);
  }

  lemma JudgedByNone<P>(rules: Rules<P>, results: seq<Result>, r: Row)
    ensures Judged(rules, results, r, []) == r
  {
  }

  lemma JudgedByAll<P>(rules: Rules<P>, results: seq<Result>, r: Row, ids: seq<string>)
    requires Relabels(rules, results, r) ==> Get(r, "job_id").text in ids
    ensures Judged(rules, results, r, ids) == Relabel(rules, results, r)
  {
    hide SkipReason;
  }

  // ---- migrate ---------------------------------------------------------------

  class Store<P> {
    var jobs: Option<Checked>
    var artifacts: Option<Table>
    var devices: Option<Table>
    var findings: Option<Checked>
    var verdicts: seq<Verdict>
    var results: seq<Result>

    constructor (db: Db)
      ensures D() == db
    {
      jobs, artifacts, devices := db.jobs, db.artifacts, db.devices;
      findings, verdicts, results := db.findings, db.verdicts, db.results;
    }

    function D(): Db
      reads this
    {
      Db(jobs, artifacts, devices, findings, verdicts, results)
    }

    /** Everything ahead of the first rebuild. */
    method BringUpColumns()
      modifies this
      ensures D() == Columns(old(D()))
    {
      hide AddColumns;
      if jobs.None? { jobs := Some(FRESH_JOBS); }
      if artifacts.None? { artifacts := Some(FRESH_ARTIFACTS); }
      if devices.None? { devices := Some(FRESH_DEVICES); }
      AddedOnce();
      var j := AddMissingColumns(jobs.value.table, LEASE_COLUMNS);
      jobs := Some(jobs.value.(table := j));
      var a := AddMissingColumns(artifacts.value, ARTIFACT_COLUMNS);
      artifacts := Some(FillPublished(a));
      devices := Some(RenameNickname(devices.value));
      var d := AddMissingColumns(devices.value, DEVICE_COLUMNS);
      devices := Some(d);
    }

    /** The status widening, with the backfill of the jobs that skipped before it. */
    method WidenJobsTable(rules: Rules<P>) returns (ok: bool)
      requires jobs.Some?
      modifies this`jobs
      ensures var wide := WidenJobs(rules, results, old(jobs).value);
        ok == wide.Some? && jobs == if wide.Some? then wide else old(jobs)
    {
      hide Backfill, AllAdmitted;
      var c := jobs.value;
      var wide := Widen(c, "status", "skipped");
      if wide.None? { return false; }
      if "skipped" !in c.mentions {
        var t, n := BackfillSkipped(rules, results, wide.value.table);
        wide := Some(wide.value.(table := t));
      }
      jobs := wide;
      return true;
    }

    /** History, provenance, the last widening and the leases. */
    method FinishUp(rules: Rules<P>) returns (ok: bool)
      requires jobs.Some? && findings.Some? && artifacts.Some?
      modifies this
      ensures Migrated(D(), ok) == Finish(rules, old(D()))
    {
      hide AddColumns, AddColumn, HistoryLines, WidenJobs, Leases;
      verdicts := verdicts + HistoryLines(verdicts, findings.value.table.rows);
      AddedOnce();
      var t := AddMissingColumns(jobs.value.table, PROVENANCE_COLUMNS);
      jobs := Some(jobs.value.(table := t));
      artifacts := Some(AddColumn(artifacts.value, "media_type", Null));
      ok := WidenJobsTable(rules);
      if ok { jobs := Some(jobs.value.(table := Leases(rules, jobs.value.table))); }
    }

    /** migrate(): true when it returns, false when it throws with what ran before in place. */
    method MigrateStore(rules: Rules<P>) returns (ok: bool)
      modifies this
      ensures Migrated(D(), ok) == Migrate(rules, old(D()))
    {
      hide Columns, Rebuild, Widen, Finish, AddColumn;
      BringUpColumns();
      var rebuilt := Rebuild(jobs.value);
      if rebuilt.None? { return false; }
      jobs := rebuilt;
      jobs := Some(jobs.value.(table := AddColumn(jobs.value.table, "depends_on", Null)));
      if findings.None? {
        findings := Some(Checked(Table(FRESH_FINDINGS, []), Some(FINDING_VERDICTS), Words(FINDING_VERDICTS)));
      }
      var wide := Widen(findings.value, "verdict", "fixed");
      if wide.None? { return false; }
      findings := wide;
      ok := FinishUp(rules);
    }
  }

  /** No column loop names a column twice. */
  lemma AddedOnce()
    ensures forall i, j :: 0 <= i < j < |LEASE_COLUMNS| ==> LEASE_COLUMNS[i].0 != LEASE_COLUMNS[j].0
    ensures forall i, j :: 0 <= i < j < |ARTIFACT_COLUMNS| ==> ARTIFACT_COLUMNS[i].0 != ARTIFACT_COLUMNS[j].0
    ensures forall i, j :: 0 <= i < j < |DEVICE_COLUMNS| ==> DEVICE_COLUMNS[i].0 != DEVICE_COLUMNS[j].0
    ensures forall i, j :: 0 <= i < j < |PROVENANCE_COLUMNS| ==> PROVENANCE_COLUMNS[i].0 != PROVENANCE_COLUMNS[j].0
  {
  }
}
