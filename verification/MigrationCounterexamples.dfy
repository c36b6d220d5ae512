// MigrationCounterexamples: databases that migrate() accepts and leaves short of
// what its comments promise, one outside each condition of MigrationRows and
// MigrationProofs.

module MigrationCounterexamples {
  import opened Text
  import opened Migration
  import opened MigrationProofs
  import opened MigrationRows

  /** A database with one job and nothing else, and a jobs table of these columns, CHECK and comment. */
  function OneJob(columns: seq<string>, row: Row, allowed: seq<string>, comment: set<string>): Db {
    Db(Some(Checked(Table(JOB_COLUMNS + columns, [row]), Some(allowed), Words(allowed) + comment)),
       None, None, None, [], [])
  }

  lemma OneJobMigrates<P>(rules: Rules<P>, columns: seq<string>, row: Row, allowed: seq<string>, comment: set<string>)
    requires Get(row, "status").Str? && Get(row, "status").text in allowed
    requires forall i :: 0 <= i < |allowed| ==> allowed[i] in REBUILT_STATUSES
    requires forall c :: c in row ==> c in JOB_COLUMNS + columns
    ensures var db := OneJob(columns, row, allowed, comment);
      Migrate(rules, db).ok && Sound(JobsGiven(db), "status") && Tidy(JobsGiven(db).table)
  {
    hide Migrate;
    var db := OneJob(columns, row, allowed, comment);
    forall i | 0 <= i < |BASE_COLUMNS| ensures BASE_COLUMNS[i] in db.jobs.value.table.columns {
      JobColumnsAre(BASE_COLUMNS[i]);
    }
    OlderDatabasesMigrate(rules, db);
  }

  lemma BaseIsListed(k: nat)
    requires k < |BASE_COLUMNS|
    ensures BASE_COLUMNS[k] in JOB_COLUMNS
  {
    JobColumnsAre(BASE_COLUMNS[k]);
  }

  lemma LeaseIsListed(k: nat)
    requires k < |LEASE_COLUMNS|
    ensures LEASE_COLUMNS[k].0 in JOB_COLUMNS
  {
    JobColumnsAre(LEASE_COLUMNS[k].0);
  }

  lemma DependsOnIsNotListed()
    ensures "depends_on" !in JOB_COLUMNS && "depends_on" != "rowid"
  {
    JobColumnsAre("depends_on");
  }

  lemma ListedColumns()
    ensures "job_id" in JOB_COLUMNS && "status" in JOB_COLUMNS && "lease_deadline" in JOB_COLUMNS && "attempts" in JOB_COLUMNS
    ensures "depends_on" !in JOB_COLUMNS && "depends_on" != "rowid"
  {
    BaseIsListed(0);
    BaseIsListed(4);
    LeaseIsListed(3);
    LeaseIsListed(2);
    DependsOnIsNotListed();
  }

  const Waiter: Row := map["job_id" := Str("j"), "status" := Str("queued"), "depends_on" := Str("[1]")]

  /** A table whose CHECK lacks 'waiting' but which has depends_on already: migrate returns, and the dependency is gone. */
  lemma RebuildDropsDependencies<P>(rules: Rules<P>)
    ensures var db := OneJob(["depends_on"], Waiter, ["queued", "cancelled"], {});
      Migrate(rules, db).ok && !JobsKept(rules, db, JobsGiven(db).table, JobsAfter(rules, db)) &&
      |JobsAfter(rules, db).rows| == 1 && Get(JobsAfter(rules, db).rows[0], "depends_on").Null?
  {
    hide Migrate, JobsAfter, JobsKept, NeedsRebuild;
    var db := OneJob(["depends_on"], Waiter, ["queued", "cancelled"], {});
    var c := JobsGiven(db);
    ListedColumns();
    LacksWaiting(c);
    assert ["queued", "cancelled"][0] == "queued" && REBUILT_STATUSES[1] == "queued" && REBUILT_STATUSES[5] == "cancelled";
    assert c.table.columns[|JOB_COLUMNS|] == "depends_on";
    OneJobMigrates(rules, ["depends_on"], Waiter, ["queued", "cancelled"], {});
    MigrateKeepsJobsExactlyWhen(rules, db);
    assert !NothingBeyondTheList(c) by { assert Get(c.table.rows[0], "depends_on") == Str("[1]"); }
    MigratedCell(rules, db, 0, "depends_on");
  }

  lemma LacksWaiting(c: Checked)
    requires c.mentions == Words(["queued", "cancelled"]) + {}
    ensures NeedsRebuild(c)
  {
    assert "waiting" !in c.mentions;
  }

  const Queued: Row := map["job_id" := Str("j"), "status" := Str("queued")]

  /** A DDL that only mentions 'skipped' in a comment: migrate returns, and the table goes on refusing skipped jobs. */
  lemma AMentionIsTakenForACheck<P>(rules: Rules<P>)
    ensures var db := OneJob([], Queued, REBUILT_STATUSES, {"skipped"});
      Migrate(rules, db).ok && Migrate(rules, db).db.jobs.Some? &&
      !AdmitsAll(Migrate(rules, db).db.jobs.value, STATUSES)
  {
    hide Migrate, AdmitsAll, NeedsRebuild;
    var db := OneJob([], Queued, REBUILT_STATUSES, {"skipped"});
    ListedColumns();
    assert REBUILT_STATUSES[1] == "queued";
    OneJobMigrates(rules, [], Queued, REBUILT_STATUSES, {"skipped"});
    EveryStatusIsAdmittedExactlyWhen(rules, db);
    KnowsBoth(JobsGiven(db));
    SkippedIsNew();
    assert "skipped" in REBUILT_STATUSES ==> "skipped" in Words(REBUILT_STATUSES);
  }

  lemma KnowsBoth(c: Checked)
    requires c.mentions == Words(REBUILT_STATUSES) + {"skipped"}
    ensures !NeedsRebuild(c)
  {
    assert REBUILT_STATUSES[5] == "cancelled" && REBUILT_STATUSES[0] == "waiting";
  }

  const Claim: Row := map["job_id" := Str("j"), "status" := Str("claimed"), "lease_deadline" := Str("t"), "attempts" := Num(0)]

  /** A claim that has a deadline and no attempt: migrate returns, and it still has none. */
  lemma AClaimMayKeepNoAttempt<P>(rules: Rules<P>)
    ensures var db := OneJob([], Claim, REBUILT_STATUSES, {});
      Migrate(rules, db).ok && |JobsAfter(rules, db).rows| == 1 &&
      Get(JobsAfter(rules, db).rows[0], "status") == Str("claimed") &&
      Get(JobsAfter(rules, db).rows[0], "attempts") == Num(0)
  {
    hide Migrate, JobsAfter, NeedsRebuild, SkipReason;
    var db := OneJob([], Claim, REBUILT_STATUSES, {});
    ListedColumns();
    assert REBUILT_STATUSES[2] == "claimed";
    OneJobMigrates(rules, [], Claim, REBUILT_STATUSES, {});
    JobsFourCells(rules, db, 0);
  }
}
