// MigrationRows: what migrate leaves in each row and column it was given: jobs
// cell by cell, findings and their history, artifacts and devices.

module MigrationRows {
  import opened Text
  import opened Migration
  import opened MigrationProofs

  // ---- the cells of the jobs table -------------------------------------------

  /** The rebuild forgets a column it does not list. */
  predicate Forgets(db: Db, x: string) {
    NeedsRebuild(JobsGiven(db)) && x !in JOB_COLUMNS && x != "rowid"
  }

  lemma RebuiltCell(c: Checked, i: nat, x: string)
    requires Rebuild(c).Some? && i < |c.table.rows|
    ensures |Rebuild(c).value.table.rows| == |c.table.rows|
    ensures Get(Rebuild(c).value.table.rows[i], x) ==
      if NeedsRebuild(c) && x !in JOB_COLUMNS && x != "rowid" then Null else Get(c.table.rows[i], x)
  {
  }

  lemma RebuiltTidy(c: Checked)
    requires Rebuild(c).Some? && Tidy(c.table)
    ensures Tidy(Rebuild(c).value.table)
  {
  }

  lemma BeforeWideningRow(db: Db, i: nat, x: string)
    requires Rebuild(JobsBeforeRebuild(db)).Some? && Tidy(JobsGiven(db).table) && i < |JobsGiven(db).table.rows|
    ensures |JobsBeforeWidening(db).table.rows| == |JobsGiven(db).table.rows|
    ensures |JobsBeforeRebuild(db).table.rows| == |JobsGiven(db).table.rows|
    ensures Get(JobsBeforeWidening(db).table.rows[i], x) ==
      if Forgets(db, x) then Null else Get(JobsBeforeRebuild(db).table.rows[i], x)
  {
    hide WithLaterColumns, Rebuild, AddColumns, Tidy;
    AddColumnsAdds(JobsGiven(db).table, LEASE_COLUMNS);
    AddColumnsTidy(JobsGiven(db).table, LEASE_COLUMNS);
    RebuiltCell(JobsBeforeRebuild(db), i, x);
    RebuiltTidy(JobsBeforeRebuild(db));
    LaterColumnsKeep(Rebuild(JobsBeforeRebuild(db)).value);
  }

  lemma BeforeWideningCell(db: Db, i: nat, x: string)
    requires Rebuild(JobsBeforeRebuild(db)).Some? && Tidy(JobsGiven(db).table)
    requires i < |JobsGiven(db).table.rows| && x in JobsGiven(db).table.columns
    ensures |JobsBeforeWidening(db).table.rows| == |JobsGiven(db).table.rows|
    ensures Get(JobsBeforeWidening(db).table.rows[i], x) ==
      if Forgets(db, x) then Null else Get(JobsGiven(db).table.rows[i], x)
  {
    hide JobsBeforeWidening, Rebuild, AddColumns, Tidy;
    AddColumnsKeeps(JobsGiven(db).table, LEASE_COLUMNS, i, x);
    BeforeWideningRow(db, i, x);
  }

  /** A missing column that is added holds its default in every row. */
  lemma {:induction false} AddColumnsDefault(t: Table, added: seq<(string, Cell)>, i: nat, j: nat)
    requires i < |t.rows| && j < |added| && added[j].0 !in t.columns
    requires forall a, b :: 0 <= a < b < |added| ==> added[a].0 != added[b].0
    ensures |AddColumns(t, added).rows| == |t.rows|
    ensures Get(AddColumns(t, added).rows[i], added[j].0) == added[j].1
    decreases |added|
  {
    var t' := AddColumn(t, added[0].0, added[0].1);
    if j == 0 {
      assert added[0].0 in t'.columns by { assert t'.columns[|t.columns|] == added[0].0; }
      AddColumnsKeeps(t', added[1..], i, added[0].0);
    } else {
      assert added[1..][j - 1] == added[j];
      AddColumnsDefault(t', added[1..], i, j - 1);
    }
  }

  /** What a job has in a column of the first two lists, once the lease columns are there. */
  function Had(t: Table, r: Row, x: string): Cell {
    if x in t.columns then Get(r, x)
    else DefaultOf(x)
  }

  function DefaultOf(x: string): Cell {
    if x == "attempts" then Num(0) else if x == "lease_ttl_s" then Num(600) else Null
  }

  lemma LeaseDefault(t: Table, i: nat, j: nat)
    requires i < |t.rows| && j < |LEASE_COLUMNS| && LEASE_COLUMNS[j].0 !in t.columns
    ensures |AddColumns(t, LEASE_COLUMNS).rows| == |t.rows|
    ensures Get(AddColumns(t, LEASE_COLUMNS).rows[i], LEASE_COLUMNS[j].0) == LEASE_COLUMNS[j].1
  {
    hide AddColumns;
    AddColumnsDefault(t, LEASE_COLUMNS, i, j);
  }

  /** The columns the last two steps read or write. */
  predicate Used(x: string) {
    x == "status" || x == "job_id" || x == "last_error" || x == "lease_deadline" || x == "attempts" || x == "lease_ttl_s"
  }

  /** A used column that is not of the first schema is one of the lease columns, and Had knows its default. */
  lemma UsedAreListed(db: Db, x: string) returns (j: nat)
    requires Used(x)
    ensures x in JOB_COLUMNS && !Forgets(db, x) && x != "rowid"
    ensures x == "status" || x == "job_id" ==> !AddedByLease(x)
    ensures x != "status" && x != "job_id" ==> j < |LEASE_COLUMNS| && LEASE_COLUMNS[j] == (x, DefaultOf(x))
  {
    JobColumnsAre(x);
    assert BASE_COLUMNS[4] == "status" && BASE_COLUMNS[0] == "job_id";
    assert LEASE_COLUMNS[0] == ("lease_ttl_s", Num(600)) && LEASE_COLUMNS[2] == ("attempts", Num(0));
    assert LEASE_COLUMNS[3] == ("lease_deadline", Null) && LEASE_COLUMNS[4] == ("last_error", Null);
    BaseIsNotLease(4);
    BaseIsNotLease(0);
    j := if x == "lease_ttl_s" then 0 else if x == "attempts" then 2 else if x == "lease_deadline" then 3 else 4;
  }

  lemma TidyCell(t: Table, i: nat, x: string)
    requires Tidy(t) && i < |t.rows| && x !in t.columns && x != "rowid"
    ensures Get(t.rows[i], x) == Null
  {
  }

  lemma UsedCell(db: Db, i: nat, x: string)
    requires Rebuild(JobsBeforeRebuild(db)).Some? && Tidy(JobsGiven(db).table) && i < |JobsGiven(db).table.rows| && Used(x)
    ensures |JobsBeforeWidening(db).table.rows| == |JobsGiven(db).table.rows|
    ensures Get(JobsBeforeWidening(db).table.rows[i], x) == Had(JobsGiven(db).table, JobsGiven(db).table.rows[i], x)
  {
    hide JobsBeforeWidening, Rebuild, AddColumns, Tidy, Forgets, AddedByLease;
    var t := JobsGiven(db).table;
    var j := UsedAreListed(db, x);
    BeforeWideningRow(db, i, x);
    if x in t.columns {
      AddColumnsKeeps(t, LEASE_COLUMNS, i, x);
    } else if x != "status" && x != "job_id" {
      LeaseDefault(t, i, j);
    } else {
      NotLeaseKept(t, i, x);
      TidyCell(t, i, x);
    }
  }

  lemma NotLeaseKept(t: Table, i: nat, x: string)
    requires i < |t.rows| && !AddedByLease(x)
    ensures |AddColumns(t, LEASE_COLUMNS).rows| == |t.rows|
    ensures Get(AddColumns(t, LEASE_COLUMNS).rows[i], x) == Get(t.rows[i], x)
  {
    hide AddColumns;
    AddColumnsKeeps(t, LEASE_COLUMNS, i, x);
  }

  lemma FinishedCell<P>(rules: Rules<P>, db: Db, r: Row, x: string)
    requires x != "status" && x != "last_error" && x != "lease_deadline" && x != "attempts"
    ensures Get(Finished(rules, db, r), x) == Get(r, x)
  {
  }

  /** The columns the last two steps may write. */
  predicate Rewritten(x: string) {
    x == "status" || x == "last_error" || x == "lease_deadline" || x == "attempts"
  }

  lemma RewrittenAreListed(x: string)
    requires Rewritten(x)
    ensures x in JOB_COLUMNS
  {
    JobColumnsAre(x);
    assert BASE_COLUMNS[4] == "status" && LEASE_COLUMNS[4].0 == "last_error";
    assert LEASE_COLUMNS[3].0 == "lease_deadline" && LEASE_COLUMNS[2].0 == "attempts";
  }

  lemma MigratedCell<P>(rules: Rules<P>, db: Db, i: nat, x: string)
    requires Migrate(rules, db).ok && Sound(JobsGiven(db), "status") && Tidy(JobsGiven(db).table)
    requires i < |JobsGiven(db).table.rows| && x in JobsGiven(db).table.columns && !Rewritten(x)
    ensures var t := JobsAfter(rules, db);
      |t.rows| == |JobsGiven(db).table.rows| &&
      Get(t.rows[i], x) == if Forgets(db, x) then Null else Get(JobsGiven(db).table.rows[i], x)
  {
    hide JobsAfter, Migrate, WithLaterColumns, Rebuild, AddColumns, Tidy, Sound, Finished, JobsBeforeWidening, WidenJobs;
    JobRowIs(rules, db);
    BeforeWideningCell(db, i, x);
    FinishedCell(rules, db, JobsBeforeWidening(db).table.rows[i], x);
  }

  /** The backfill runs: the skipped rebuild has not happened yet. */
  predicate Backfills(db: Db) {
    NeedsRebuild(JobsGiven(db)) || "skipped" !in JobsGiven(db).mentions
  }

  /** The backfill runs, the job is done, and its result rows say it skipped. */
  predicate IsRelabelled<P>(rules: Rules<P>, db: Db, r: Row) {
    Backfills(db) && Get(r, "status") == Str("done") && Get(r, "job_id").Str? &&
    SkipReason(rules, db.results, Get(r, "job_id").text).Some?
  }

  /** A claim from before leases. */
  predicate IsLeased(r: Row) {
    Get(r, "status") == Str("claimed") && Get(r, "lease_deadline").Null?
  }

  /**
   * The four columns migrate may write: a relabelled job gets its new status and
   * its reason, a claim without a deadline gets a deadline and an attempt, and
   * every other job keeps all four as it had them.
   */
  predicate FourCells<P>(rules: Rules<P>, db: Db, t: Table, r: Row, r': Row) {
    Get(r', "status") == (if IsRelabelled(rules, db, r) then Str("skipped") else Get(r, "status")) &&
    Get(r', "last_error") ==
      (if IsRelabelled(rules, db, r) then Str(SkipReason(rules, db.results, Get(r, "job_id").text).value)
       else Get(r, "last_error")) &&
    Get(r', "lease_deadline") ==
      (if IsLeased(r) then Str(rules.deadline(Had(t, r, "lease_ttl_s"))) else Get(r, "lease_deadline")) &&
    Get(r', "attempts") == (if IsLeased(r) then AtLeastOne(Had(t, r, "attempts")) else Had(t, r, "attempts"))
  }

  /** A job's four cells after the last two steps, from those it came to them with. */
  lemma FinishedFour<P>(rules: Rules<P>, db: Db, t: Table, r: Row, r1: Row)
    requires Get(r1, "status") == Get(r, "status") && Get(r1, "job_id") == Get(r, "job_id")
    requires Get(r1, "last_error") == Get(r, "last_error") && Get(r1, "lease_deadline") == Get(r, "lease_deadline")
    requires Get(r1, "attempts") == Had(t, r, "attempts") && Get(r1, "lease_ttl_s") == Had(t, r, "lease_ttl_s")
    ensures FourCells(rules, db, t, r, Finished(rules, db, r1))
  {
    hide SkipReason, Had, NeedsRebuild, AtLeastOne;
  }

  /** migrate leaves exactly these in the i-th job. */
  lemma JobsFourCells<P>(rules: Rules<P>, db: Db, i: nat)
    requires Migrate(rules, db).ok && Sound(JobsGiven(db), "status") && Tidy(JobsGiven(db).table)
    requires i < |JobsGiven(db).table.rows|
    ensures |JobsAfter(rules, db).rows| == |JobsGiven(db).table.rows|
    ensures FourCells(rules, db, JobsGiven(db).table, JobsGiven(db).table.rows[i], JobsAfter(rules, db).rows[i])
  {
    hide JobsAfter, Migrate, Rebuild, AddColumns, Tidy, Sound, JobsBeforeWidening, WidenJobs, Finished, FourCells, Get;
    var t := JobsGiven(db).table;
    JobCountKept(rules, db);
    JobRowIs(rules, db);
    UsedCell(db, i, "status");
    UsedCell(db, i, "job_id");
    UsedCell(db, i, "last_error");
    UsedCell(db, i, "lease_deadline");
    UsedCell(db, i, "attempts");
    UsedCell(db, i, "lease_ttl_s");
    HadIs(t, i);
    FinishedFour(rules, db, t, t.rows[i], JobsBeforeWidening(db).table.rows[i]);
  }

  lemma HadIs(t: Table, i: nat)
    requires Tidy(t) && i < |t.rows|
    ensures Had(t, t.rows[i], "status") == Get(t.rows[i], "status") && Had(t, t.rows[i], "job_id") == Get(t.rows[i], "job_id")
    ensures Had(t, t.rows[i], "last_error") == Get(t.rows[i], "last_error")
    ensures Had(t, t.rows[i], "lease_deadline") == Get(t.rows[i], "lease_deadline")
  {
  }

  /** No job lost, every cell that was there before as it was, and the four that may be written as FourCells has them. */
  predicate JobsKept<P>(rules: Rules<P>, db: Db, before: Table, after: Table) {
    |after.rows| == |before.rows| &&
    (forall i, x :: 0 <= i < |before.rows| && x in before.columns && !Rewritten(x) ==>
      Get(after.rows[i], x) == Get(before.rows[i], x)) &&
    forall i :: 0 <= i < |before.rows| ==> FourCells(rules, db, before, before.rows[i], after.rows[i])
  }

  /** What a caller can check first: a jobs table due for the fixed-column rebuild has nothing outside its list. */
  predicate NothingBeyondTheList(c: Checked) {
    NeedsRebuild(c) ==>
      forall i, x :: 0 <= i < |c.table.rows| && x in c.table.columns && x !in JOB_COLUMNS && x != "rowid" ==>
        Get(c.table.rows[i], x).Null?
  }

  /**
   * migrate keeps every job and every value exactly when the early rebuild, if
   * it runs, meets no value in a column that its fixed list leaves out.
   */
  lemma MigrateKeepsJobsExactlyWhen<P>(rules: Rules<P>, db: Db)
    requires Migrate(rules, db).ok && Sound(JobsGiven(db), "status") && Tidy(JobsGiven(db).table)
    ensures JobsKept(rules, db, JobsGiven(db).table, JobsAfter(rules, db)) <==> NothingBeyondTheList(JobsGiven(db))
  {
    hide JobsAfter, Migrate, WithLaterColumns, Rebuild, AddColumns, Tidy, Sound, Finished, JobsBeforeWidening, NeedsRebuild, Rewritten, FourCells;
    var c := JobsGiven(db);
    var after := JobsAfter(rules, db);
    JobCountKept(rules, db);
    forall i, x | 0 <= i < |c.table.rows| && x in c.table.columns && !Rewritten(x)
      ensures Get(after.rows[i], x) == if Forgets(db, x) then Null else Get(c.table.rows[i], x)
    {
      MigratedCell(rules, db, i, x);
    }
    forall i | 0 <= i < |c.table.rows| ensures FourCells(rules, db, c.table, c.table.rows[i], after.rows[i]) {
      JobsFourCells(rules, db, i);
    }
    if JobsKept(rules, db, c.table, after) && NeedsRebuild(c) {
      forall i, x | 0 <= i < |c.table.rows| && x in c.table.columns && x !in JOB_COLUMNS && x != "rowid"
        ensures Get(c.table.rows[i], x).Null?
      {
        if Rewritten(x) { RewrittenAreListed(x); }
        assert Forgets(db, x);
      }
    }
  }

  lemma JobCountKept<P>(rules: Rules<P>, db: Db)
    requires Migrate(rules, db).ok && Sound(JobsGiven(db), "status") && Tidy(JobsGiven(db).table)
    ensures |JobsAfter(rules, db).rows| == |JobsGiven(db).table.rows|
  {
    hide JobsAfter, Migrate, WithLaterColumns, Rebuild, Tidy, Sound, Finished, AddColumns, WidenJobs;
    JobRowIs(rules, db);
    var given := JobsGiven(db).table;
    AddColumnsAdds(given, LEASE_COLUMNS);
    AddColumnsTidy(given, LEASE_COLUMNS);
    RebuiltTidy(JobsBeforeRebuild(db));
    RebuiltCount(JobsBeforeRebuild(db));
    LaterColumnsKeep(Rebuild(JobsBeforeRebuild(db)).value);
  }

  lemma RebuiltCount(c: Checked)
    requires Rebuild(c).Some?
    ensures |Rebuild(c).value.table.rows| == |c.table.rows|
  {
  }

  // ---- relabelling and leases ------------------------------------------------

  /** A status changes only from done to skipped, exactly for the jobs the backfill finds, and last_error with it only. */
  lemma OnlySkippedDoneJobsAreRelabelled<P>(rules: Rules<P>, db: Db, i: nat)
    requires Migrate(rules, db).ok && Sound(JobsGiven(db), "status") && Tidy(JobsGiven(db).table)
    requires i < |JobsGiven(db).table.rows|
    ensures |JobsAfter(rules, db).rows| == |JobsGiven(db).table.rows|
    ensures var before := JobsGiven(db).table.rows[i]; var after := JobsAfter(rules, db).rows[i];
      (Get(after, "status") != Get(before, "status") ==>
        Get(before, "status") == Str("done") && Get(after, "status") == Str("skipped")) &&
      (Get(after, "status") != Get(before, "status") <==> IsRelabelled(rules, db, before)) &&
      (!IsRelabelled(rules, db, before) ==> Get(after, "last_error") == Get(before, "last_error"))
  {
    hide JobsAfter, Migrate, Tidy, Sound, SkipReason, Backfills;
    JobsFourCells(rules, db, i);
  }

  /**
   * Every claimed job ends with a deadline.  It ends with at least one attempt
   * exactly when it had one or had no deadline: a claim that already has a
   * deadline keeps it and its attempts, and so does every job not claimed.
   */
  lemma ClaimedJobsEndLeased<P>(rules: Rules<P>, db: Db, i: nat)
    requires Migrate(rules, db).ok && Sound(JobsGiven(db), "status") && Tidy(JobsGiven(db).table)
    requires i < |JobsGiven(db).table.rows|
    requires Had(JobsGiven(db).table, JobsGiven(db).table.rows[i], "attempts").Num?
    ensures |JobsAfter(rules, db).rows| == |JobsGiven(db).table.rows|
    ensures var t := JobsGiven(db).table; var before := t.rows[i]; var after := JobsAfter(rules, db).rows[i];
      if Get(after, "status") == Str("claimed") then
        !Get(after, "lease_deadline").Null? && Get(after, "attempts").Num? &&
        (Get(after, "attempts").n >= 1 <==>
          Get(before, "lease_deadline").Null? || Had(t, before, "attempts").n >= 1) &&
        (!Get(before, "lease_deadline").Null? ==>
          Get(after, "lease_deadline") == Get(before, "lease_deadline") && Get(after, "attempts") == Had(t, before, "attempts"))
      else
        (Get(after, "lease_deadline") == Get(before, "lease_deadline") && Get(after, "attempts") == Had(t, before, "attempts"))
  {
    hide JobsAfter, Migrate, Tidy, Sound, SkipReason, Backfills, Had;
    JobsFourCells(rules, db, i);
  }

  // ---- the columns -----------------------------------------------------------

  predicate NamedIn(added: seq<(string, Cell)>, x: string) {
    exists i :: 0 <= i < |added| && added[i].0 == x
  }

  lemma LaterColumnNames(c: Checked, x: string)
    ensures x in WithLaterColumns(c).table.columns <==>
      x in c.table.columns || x == "depends_on" || NamedIn(PROVENANCE_COLUMNS, x)
  {
    hide AddColumns;
    AddColumnsAdds(AddColumn(c.table, "depends_on", Null), PROVENANCE_COLUMNS);
  }

  lemma WidenKeepsColumns<P>(rules: Rules<P>, results: seq<Result>, c: Checked)
    requires WidenJobs(rules, results, c).Some?
    ensures Leases(rules, WidenJobs(rules, results, c).value.table).columns == c.table.columns
  {
    hide Relabel, Lease, AllAdmitted;
  }

  lemma RebuiltColumns(c: Checked)
    requires Rebuild(c).Some?
    ensures Rebuild(c).value.table.columns == if NeedsRebuild(c) then JOB_COLUMNS else c.table.columns
  {
    hide NeedsRebuild;
  }

  /** A table ends with the columns it had and those the code adds, except that the early rebuild keeps only its list. */
  lemma JobsColumnsAfter<P>(rules: Rules<P>, db: Db, x: string)
    requires Migrate(rules, db).ok
    ensures x in JobsAfter(rules, db).columns <==>
      (if NeedsRebuild(JobsGiven(db)) then x in JOB_COLUMNS
       else x in JobsGiven(db).table.columns || NamedIn(LEASE_COLUMNS, x)) ||
      x == "depends_on" || NamedIn(PROVENANCE_COLUMNS, x)
  {
    hide Migrate, Rebuild, AddColumns, AddColumn, NeedsRebuild, WidenJobs, Leases, WithLaterColumns;
    MigratedJobs(rules, db);
    var c := JobsBeforeRebuild(db);
    AddColumnsAdds(JobsGiven(db).table, LEASE_COLUMNS);
    SameWords(JobsGiven(db), c);
    RebuiltColumns(c);
    LaterColumnNames(Rebuild(c).value, x);
    WidenKeepsColumns(rules, db.results, WithLaterColumns(Rebuild(c).value));
  }

  lemma OthersColumnsAfter<P>(rules: Rules<P>, db: Db, x: string)
    requires Migrate(rules, db).ok
    ensures Migrate(rules, db).db.artifacts.Some? && Migrate(rules, db).db.devices.Some?
    ensures x in Migrate(rules, db).db.artifacts.value.columns <==>
      x in CreateTables(db).artifacts.value.columns || NamedIn(ARTIFACT_COLUMNS, x) || x == "media_type"
    ensures x in Migrate(rules, db).db.devices.value.columns <==>
      x in RenameNickname(CreateTables(db).devices.value).columns || NamedIn(DEVICE_COLUMNS, x)
  {
    hide Migrate, AddColumns, RenameNickname;
    MigratedOthers(rules, db);
    AddColumnsAdds(CreateTables(db).artifacts.value, ARTIFACT_COLUMNS);
    AddColumnsAdds(RenameNickname(CreateTables(db).devices.value), DEVICE_COLUMNS);
  }

  // ---- findings and their history --------------------------------------------

  /** The findings keep every row, and their CHECK gains 'fixed' unless the DDL already had the word. */
  lemma FindingsAreKept<P>(rules: Rules<P>, db: Db)
    requires Migrate(rules, db).ok
    ensures var m := Migrate(rules, db).db;
      m.findings.Some? && m.findings.value.table == FindingsGiven(db).table &&
      (AdmitsAll(m.findings.value, FINDING_VERDICTS) <==>
        AdmitsAll(FindingsGiven(db), FINDING_VERDICTS[..4]) &&
        ("fixed" in FindingsGiven(db).mentions ==> "fixed" in FindingsGiven(db).allowed.value))
  {
    hide Migrate, HistoryLines;
    MigratedFindings(rules, db);
    WidenedFindingsCheck(FindingsGiven(db));
  }

  /** A finding that was judged before verdicts had a history. */
  predicate LacksHistory(before: seq<Verdict>, f: Row) {
    !Get(f, "verdict").Null? && !HasHistory(before, Get(f, "id"))
  }

  /** The line such a finding is owed: its verdict and note, as a verdict, dated when given or else when last seen. */
  predicate IsItsLine(v: Verdict, f: Row) {
    v.findingId == Get(f, "id") && v.event == "verdict" && v.verdict == Get(f, "verdict") && v.note == Get(f, "verdict_note") &&
    (if Get(f, "verdict_at").Null? then v.at == Get(f, "last_seen") else v.at == Get(f, "verdict_at"))
  }

  /** The positions of the findings without history. */
  predicate Lacking(before: seq<Verdict>, rows: seq<Row>, idx: seq<nat>) {
    forall i :: 0 <= i < |rows| ==> (i in idx <==> LacksHistory(before, rows[i]))
  }

  predicate LinesOf(lines: seq<Verdict>, rows: seq<Row>, idx: seq<nat>) {
    |lines| == |idx| && forall k :: 0 <= k < |idx| ==> idx[k] < |rows| && IsItsLine(lines[k], rows[idx[k]])
  }

  /** lines holds one line for each finding without history, in the findings' order; idx says which each is for. */
  predicate LinesFor(before: seq<Verdict>, rows: seq<Row>, lines: seq<Verdict>, idx: seq<nat>) {
    Rising(idx, |rows|) && Lacking(before, rows, idx) && LinesOf(lines, rows, idx)
  }

  lemma LackingNext(before: seq<Verdict>, rows: seq<Row>, rest: seq<nat>)
    requires rows != [] && Lacking(before, rows[1..], rest)
    ensures Lacking(before, rows, if LacksHistory(before, rows[0]) then [0] + Shifted(rest) else Shifted(rest))
  {
    hide LacksHistory, Shifted;
    forall i | 0 < i < |rows| ensures i in Shifted(rest) <==> LacksHistory(before, rows[i]) {
      ShiftedHas(rest, i);
      assert rows[1..][i - 1] == rows[i];
    }
    ShiftedHas(rest, 0);
  }

  lemma LinesOfNext(lines: seq<Verdict>, rows: seq<Row>, rest: seq<nat>)
    requires rows != [] && LinesOf(lines, rows[1..], rest)
    ensures LinesOf(lines, rows, Shifted(rest))
  {
    hide IsItsLine;
    forall k | 0 <= k < |rest| ensures rows[Shifted(rest)[k]] == rows[1..][rest[k]] {}
  }

  lemma LinesOfTake(v: Verdict, lines: seq<Verdict>, rows: seq<Row>, idx: seq<nat>)
    requires rows != [] && LinesOf(lines, rows, idx) && IsItsLine(v, rows[0])
    ensures LinesOf([v] + lines, rows, [0] + idx)
  {
    hide IsItsLine;
  }

  lemma {:induction false} HistoryLinesAre(before: seq<Verdict>, rows: seq<Row>) returns (idx: seq<nat>)
    ensures LinesFor(before, rows, HistoryLines(before, rows), idx)
  {
    hide HistoryLines, LacksHistory, IsItsLine, Lacking, LinesOf, Rising, Shifted;
    if rows == [] {
      idx := [];
      NoLines(before);
    } else {
      var rest := HistoryLinesAre(before, rows[1..]);
      var lines := HistoryLines(before, rows[1..]);
      FirstLine(before, rows);
      RisingShift(rest, |rows| - 1);
      LackingNext(before, rows, rest);
      LinesOfNext(lines, rows, rest);
      if LacksHistory(before, rows[0]) {
        idx := [0] + Shifted(rest);
        LinesOfTake(HistoryLines(before, rows)[0], lines, rows, Shifted(rest));
        assert HistoryLines(before, rows) == [HistoryLines(before, rows)[0]] + lines;
      } else {
        idx := Shifted(rest);
      }
    }
  }

  lemma NoLines(before: seq<Verdict>)
    ensures LinesFor(before, [], HistoryLines(before, []), [])
  {
  }

  lemma FirstLine(before: seq<Verdict>, rows: seq<Row>)
    requires rows != []
    ensures !LacksHistory(before, rows[0]) ==> HistoryLines(before, rows) == HistoryLines(before, rows[1..])
    ensures LacksHistory(before, rows[0]) ==>
      HistoryLines(before, rows) != [] && IsItsLine(HistoryLines(before, rows)[0], rows[0]) &&
      HistoryLines(before, rows)[1..] == HistoryLines(before, rows[1..])
  {
    hide HasHistory;
  }

  /** Verdict history gains exactly the lines that were missing, one for each finding judged before it began. */
  lemma VerdictHistoryIsCompleted<P>(rules: Rules<P>, db: Db) returns (idx: seq<nat>)
    requires Migrate(rules, db).ok
    ensures db.verdicts <= Migrate(rules, db).db.verdicts
    ensures LinesFor(db.verdicts, FindingsGiven(db).table.rows, Migrate(rules, db).db.verdicts[|db.verdicts|..], idx)
  {
    hide Migrate, HistoryLines, LinesFor;
    MigratedFindings(rules, db);
    idx := HistoryLinesAre(db.verdicts, FindingsGiven(db).table.rows);
  }

  // ---- artifacts and devices -------------------------------------------------

  /** No artifact is lost; what it held is kept; a missing publication is filled from the upload. */
  lemma ArtifactsAreKept<P>(rules: Rules<P>, db: Db, i: nat, x: string)
    requires Migrate(rules, db).ok && db.artifacts.Some? && i < |db.artifacts.value.rows|
    requires x in db.artifacts.value.columns || x == "rowid"
    ensures Migrate(rules, db).db.artifacts.Some?
    ensures var before := db.artifacts.value; var after := Migrate(rules, db).db.artifacts.value;
      |after.rows| == |before.rows| &&
      Get(after.rows[i], x) ==
        if !Get(before.rows[i], x).Null? then Get(before.rows[i], x)
        else if x == "published_at" then Get(before.rows[i], "created_at")
        else if x == "publish_seq" then Get(before.rows[i], "rowid")
        else Null
  {
    hide Migrate, AddColumns;
    MigratedOthers(rules, db);
    var before := db.artifacts.value;
    AddColumnsAdds(before, ARTIFACT_COLUMNS);
    AddColumnsKeeps(before, ARTIFACT_COLUMNS, i, x);
    AddColumnsKeeps(before, ARTIFACT_COLUMNS, i, "created_at");
    AddColumnsKeeps(before, ARTIFACT_COLUMNS, i, "rowid");
  }

  /** No device is lost; every value is kept, and one under nickname moves to name unless name was there. */
  lemma DevicesAreKept<P>(rules: Rules<P>, db: Db, i: nat, x: string)
    requires Migrate(rules, db).ok && db.devices.Some? && i < |db.devices.value.rows|
    requires x in db.devices.value.columns
    ensures Migrate(rules, db).db.devices.Some?
    ensures var before := db.devices.value; var after := Migrate(rules, db).db.devices.value;
      |after.rows| == |before.rows| &&
      Get(after.rows[i], if x == "nickname" && "name" !in before.columns then "name" else x) == Get(before.rows[i], x)
  {
    hide Migrate, AddColumns;
    MigratedOthers(rules, db);
    var before := db.devices.value;
    var t := RenameNickname(before);
    var y := if x == "nickname" && "name" !in before.columns then "name" else x;
    RenamedHas(before, x);
    AddColumnsKeeps(t, DEVICE_COLUMNS, i, y);
  }

  lemma RenamedHas(t: Table, x: string)
    requires x in t.columns
    ensures (if x == "nickname" && "name" !in t.columns then "name" else x) in RenameNickname(t).columns
  {
    var k :| 0 <= k < |t.columns| && t.columns[k] == x;
    assert RenameColumn(t.columns)[k] == if x == "nickname" then "name" else x;
  }
}
