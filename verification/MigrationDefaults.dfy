// MigrationDefaults: what a database from before a column holds in it once
// migrate has run, what a new database looks like, and which CHECK each ends with,
// all in literals.

module MigrationDefaults {
  import opened Text
  import opened Migration
  import opened MigrationProofs
  import opened MigrationRows

  // ---- artifacts -------------------------------------------------------------

  lemma ArtifactDefault(t: Table, i: nat, j: nat)
    requires i < |t.rows| && j < |ARTIFACT_COLUMNS| && ARTIFACT_COLUMNS[j].0 !in t.columns
    ensures |AddColumns(t, ARTIFACT_COLUMNS).rows| == |t.rows|
    ensures Get(AddColumns(t, ARTIFACT_COLUMNS).rows[i], ARTIFACT_COLUMNS[j].0) == ARTIFACT_COLUMNS[j].1
  {
    hide AddColumns;
    AddColumnsDefault(t, ARTIFACT_COLUMNS, i, j);
  }

  /** One artifact's cell after the columns are added, filled and followed by media_type. */
  lemma ArtifactCell<P>(rules: Rules<P>, db: Db, i: nat, x: string)
    requires Migrate(rules, db).ok && db.artifacts.Some? && i < |db.artifacts.value.rows| && x != "media_type"
    ensures Migrate(rules, db).db.artifacts.Some?
    ensures var t := AddColumns(db.artifacts.value, ARTIFACT_COLUMNS); var after := Migrate(rules, db).db.artifacts.value;
      |after.rows| == |t.rows| == |db.artifacts.value.rows| &&
      Get(after.rows[i], x) ==
        if x == "published_at" && Get(t.rows[i], x).Null? then Get(db.artifacts.value.rows[i], "created_at")
        else if x == "publish_seq" && Get(t.rows[i], x).Null? then Get(db.artifacts.value.rows[i], "rowid")
        else Get(t.rows[i], x)
  {
    hide Migrate, AddColumns;
    MigratedOthers(rules, db);
    var before := db.artifacts.value;
    AddColumnsAdds(before, ARTIFACT_COLUMNS);
    AddColumnsKeeps(before, ARTIFACT_COLUMNS, i, "created_at");
    AddColumnsKeeps(before, ARTIFACT_COLUMNS, i, "rowid");
  }

  lemma MediaTypeIsNew<P>(rules: Rules<P>, db: Db, i: nat)
    requires Migrate(rules, db).ok && db.artifacts.Some? && i < |db.artifacts.value.rows|
    requires "media_type" !in db.artifacts.value.columns
    ensures Migrate(rules, db).db.artifacts.Some?
    ensures |Migrate(rules, db).db.artifacts.value.rows| == |db.artifacts.value.rows|
    ensures Get(Migrate(rules, db).db.artifacts.value.rows[i], "media_type") == Null
  {
    hide Migrate, AddColumns;
    MigratedOthers(rules, db);
    AddColumnsAdds(db.artifacts.value, ARTIFACT_COLUMNS);
  }

  /**
   * An artifact from before a column: its sequence is its rowid and its
   * publication its upload; it is not pinned, and nothing else is known of it.
   */
  lemma OldArtifactsGet<P>(rules: Rules<P>, db: Db, i: nat)
    requires Migrate(rules, db).ok && db.artifacts.Some? && i < |db.artifacts.value.rows|
    ensures Migrate(rules, db).db.artifacts.Some?
    ensures var was := db.artifacts.value; var after := Migrate(rules, db).db.artifacts.value;
      |after.rows| == |was.rows| &&
      var r, r' := was.rows[i], after.rows[i];
      ("publish_seq" !in was.columns ==> Get(r', "publish_seq") == Get(r, "rowid")) &&
      ("published_at" !in was.columns ==> Get(r', "published_at") == Get(r, "created_at")) &&
      ("pinned" !in was.columns ==> Get(r', "pinned") == Num(0)) &&
      ("app" !in was.columns ==> Get(r', "app") == Null) &&
      ("build" !in was.columns ==> Get(r', "build") == Null) &&
      ("platform" !in was.columns ==> Get(r', "platform") == Null) &&
      ("channel" !in was.columns ==> Get(r', "channel") == Null) &&
      ("pin_reason" !in was.columns ==> Get(r', "pin_reason") == Null) &&
      ("media_type" !in was.columns ==> Get(r', "media_type") == Null)
  {
    hide Migrate, AddColumns;
    var t := db.artifacts.value;
    ArtifactColumnsAre();
    forall j | 0 <= j < |ARTIFACT_COLUMNS| && ARTIFACT_COLUMNS[j].0 !in t.columns
      ensures Migrate(rules, db).db.artifacts.Some?
      ensures |Migrate(rules, db).db.artifacts.value.rows| == |t.rows|
      ensures Get(Migrate(rules, db).db.artifacts.value.rows[i], ARTIFACT_COLUMNS[j].0) ==
        if ARTIFACT_COLUMNS[j].0 == "published_at" && ARTIFACT_COLUMNS[j].1.Null? then Get(t.rows[i], "created_at")
        else if ARTIFACT_COLUMNS[j].0 == "publish_seq" && ARTIFACT_COLUMNS[j].1.Null? then Get(t.rows[i], "rowid")
        else ARTIFACT_COLUMNS[j].1
    {
      ArtifactDefault(t, i, j);
      ArtifactCell(rules, db, i, ARTIFACT_COLUMNS[j].0);
    }
    ArtifactCell(rules, db, i, "app");
    if "media_type" !in t.columns { MediaTypeIsNew(rules, db, i); }
  }

  lemma ArtifactColumnsAre()
    ensures |ARTIFACT_COLUMNS| == 8 && forall j :: 0 <= j < 8 ==> ARTIFACT_COLUMNS[j].0 != "media_type"
    ensures ARTIFACT_COLUMNS[0] == ("app", Null) && ARTIFACT_COLUMNS[1] == ("build", Null)
    ensures ARTIFACT_COLUMNS[2] == ("platform", Null) && ARTIFACT_COLUMNS[3] == ("published_at", Null)
    ensures ARTIFACT_COLUMNS[4] == ("publish_seq", Null) && ARTIFACT_COLUMNS[5] == ("channel", Null)
    ensures ARTIFACT_COLUMNS[6] == ("pinned", Num(0)) && ARTIFACT_COLUMNS[7] == ("pin_reason", Null)
  {
  }

  // ---- jobs ------------------------------------------------------------------

  /** A job's cell in a column that no step after the column's own writes. */
  lemma NewJobCell<P>(rules: Rules<P>, db: Db, i: nat, x: string)
    requires Migrate(rules, db).ok && Sound(JobsGiven(db), "status") && Tidy(JobsGiven(db).table)
    requires i < |JobsGiven(db).table.rows| && !Rewritten(x) && !Forgets(db, x)
    ensures |JobsAfter(rules, db).rows| == |JobsGiven(db).table.rows| == |JobsBeforeRebuild(db).table.rows|
    ensures Get(JobsAfter(rules, db).rows[i], x) == Get(JobsBeforeRebuild(db).table.rows[i], x)
  {
    hide JobsAfter, Migrate, Rebuild, AddColumns, Tidy, Sound, Finished, JobsBeforeWidening, WidenJobs, JobsBeforeRebuild, Forgets;
    JobCountKept(rules, db);
    JobRowIs(rules, db);
    BeforeWideningRow(db, i, x);
    FinishedCell(rules, db, JobsBeforeWidening(db).table.rows[i], x);
  }

  lemma LaterJobCell<P>(rules: Rules<P>, db: Db, i: nat, x: string)
    requires Migrate(rules, db).ok && Sound(JobsGiven(db), "status") && Tidy(JobsGiven(db).table)
    requires i < |JobsGiven(db).table.rows| && x !in JobsGiven(db).table.columns
    requires x == "depends_on" || x == "requested_by" || x == "source"
    ensures |JobsAfter(rules, db).rows| == |JobsGiven(db).table.rows|
    ensures Get(JobsAfter(rules, db).rows[i], x) == Null
  {
    hide JobsAfter, Migrate, Rebuild, AddColumns, Tidy, Sound, Finished, JobsBeforeWidening, WidenJobs;
    var t := JobsGiven(db).table;
    JobCountKept(rules, db);
    JobRowIs(rules, db);
    BeforeWideningRow(db, i, x);
    FinishedCell(rules, db, JobsBeforeWidening(db).table.rows[i], x);
    NotLeaseKept(t, i, x);
    TidyCell(t, i, x);
  }

  lemma LeaseColumnsAre()
    ensures |LEASE_COLUMNS| == 8
    ensures LEASE_COLUMNS[0] == ("lease_ttl_s", Num(600)) && LEASE_COLUMNS[1] == ("max_attempts", Num(3))
    ensures LEASE_COLUMNS[2] == ("attempts", Num(0)) && LEASE_COLUMNS[3] == ("lease_deadline", Null)
    ensures LEASE_COLUMNS[4] == ("last_error", Null) && LEASE_COLUMNS[5] == ("priority", Num(0))
    ensures LEASE_COLUMNS[6] == ("parent_job_id", Null) && LEASE_COLUMNS[7] == ("template_id", Null)
  {
  }

  lemma OldLeaseCell<P>(rules: Rules<P>, db: Db, i: nat, j: nat)
    requires Migrate(rules, db).ok && Sound(JobsGiven(db), "status") && Tidy(JobsGiven(db).table)
    requires i < |JobsGiven(db).table.rows| && j < |LEASE_COLUMNS|
    requires LEASE_COLUMNS[j].0 !in JobsGiven(db).table.columns && !Rewritten(LEASE_COLUMNS[j].0)
    ensures |JobsAfter(rules, db).rows| == |JobsGiven(db).table.rows|
    ensures Get(JobsAfter(rules, db).rows[i], LEASE_COLUMNS[j].0) == LEASE_COLUMNS[j].1
  {
    hide JobsAfter, Migrate, AddColumns, Tidy, Sound, Rewritten, NeedsRebuild;
    JobColumnsAre(LEASE_COLUMNS[j].0);
    LeaseDefault(JobsGiven(db).table, i, j);
    NewJobCell(rules, db, i, LEASE_COLUMNS[j].0);
  }

  /** A job from before a column: ten minutes' lease, three attempts, no priority, and nothing else known of it. */
  lemma OldJobsGet<P>(rules: Rules<P>, db: Db, i: nat)
    requires Migrate(rules, db).ok && Sound(JobsGiven(db), "status") && Tidy(JobsGiven(db).table)
    requires i < |JobsGiven(db).table.rows|
    ensures |JobsAfter(rules, db).rows| == |JobsGiven(db).table.rows|
    ensures var columns, r' := JobsGiven(db).table.columns, JobsAfter(rules, db).rows[i];
      ("lease_ttl_s" !in columns ==> Get(r', "lease_ttl_s") == Num(600)) &&
      ("max_attempts" !in columns ==> Get(r', "max_attempts") == Num(3)) &&
      ("priority" !in columns ==> Get(r', "priority") == Num(0)) &&
      ("parent_job_id" !in columns ==> Get(r', "parent_job_id") == Null) &&
      ("template_id" !in columns ==> Get(r', "template_id") == Null) &&
      ("depends_on" !in columns ==> Get(r', "depends_on") == Null) &&
      ("requested_by" !in columns ==> Get(r', "requested_by") == Null) &&
      ("source" !in columns ==> Get(r', "source") == Null)
  {
    hide JobsAfter, Migrate, Tidy, Sound, Get;
    var columns := JobsGiven(db).table.columns;
    LeaseColumnsAre();
    JobCountKept(rules, db);
    if "lease_ttl_s" !in columns { OldLeaseCell(rules, db, i, 0); }
    if "max_attempts" !in columns { OldLeaseCell(rules, db, i, 1); }
    if "priority" !in columns { OldLeaseCell(rules, db, i, 5); }
    if "parent_job_id" !in columns { OldLeaseCell(rules, db, i, 6); }
    if "template_id" !in columns { OldLeaseCell(rules, db, i, 7); }
    if "depends_on" !in columns { LaterJobCell(rules, db, i, "depends_on"); }
    if "requested_by" !in columns { LaterJobCell(rules, db, i, "requested_by"); }
    if "source" !in columns { LaterJobCell(rules, db, i, "source"); }
  }

  /** A job claimed before any lease column: one attempt, and a deadline from a lease of ten minutes. */
  lemma OldClaimsGet<P>(rules: Rules<P>, db: Db, i: nat)
    requires Migrate(rules, db).ok && Sound(JobsGiven(db), "status") && Tidy(JobsGiven(db).table)
    requires i < |JobsGiven(db).table.rows|
    requires forall x :: x in ["lease_ttl_s", "attempts", "lease_deadline"] ==> x !in JobsGiven(db).table.columns
    ensures |JobsAfter(rules, db).rows| == |JobsGiven(db).table.rows|
    ensures var r, r' := JobsGiven(db).table.rows[i], JobsAfter(rules, db).rows[i];
      if Get(r, "status") == Str("claimed")
      then Get(r', "attempts") == Num(1) && Get(r', "lease_deadline") == Str(rules.deadline(Num(600)))
      else Get(r', "attempts") == Num(0) && Get(r', "lease_deadline") == Null
  {
    hide JobsAfter, Migrate, Sound, SkipReason, Backfills;
    assert "lease_ttl_s" in ["lease_ttl_s", "attempts", "lease_deadline"];
    assert "attempts" in ["lease_ttl_s", "attempts", "lease_deadline"];
    assert "lease_deadline" in ["lease_ttl_s", "attempts", "lease_deadline"];
    JobsFourCells(rules, db, i);
  }

  /** A claim without a deadline keeps its attempts, but for an attempt it is given if it had none. */
  lemma LeasedAttemptsAre<P>(rules: Rules<P>, db: Db, i: nat, n: int)
    requires Migrate(rules, db).ok && Sound(JobsGiven(db), "status") && Tidy(JobsGiven(db).table)
    requires i < |JobsGiven(db).table.rows| && IsLeased(JobsGiven(db).table.rows[i])
    requires "attempts" in JobsGiven(db).table.columns && Get(JobsGiven(db).table.rows[i], "attempts") == Num(n)
    ensures |JobsAfter(rules, db).rows| == |JobsGiven(db).table.rows|
    ensures var r' := JobsAfter(rules, db).rows[i]; Get(r', "attempts") == if n >= 1 then Num(n) else Num(1)
  {
    hide JobsAfter, Migrate, Sound, SkipReason, Backfills;
    JobsFourCells(rules, db, i);
  }

  // ---- devices ---------------------------------------------------------------

  lemma DeviceDefault(t: Table, i: nat, j: nat)
    requires i < |t.rows| && j < |DEVICE_COLUMNS| && DEVICE_COLUMNS[j].0 !in t.columns
    ensures |AddColumns(t, DEVICE_COLUMNS).rows| == |t.rows|
    ensures Get(AddColumns(t, DEVICE_COLUMNS).rows[i], DEVICE_COLUMNS[j].0) == DEVICE_COLUMNS[j].1
  {
    hide AddColumns;
    AddColumnsDefault(t, DEVICE_COLUMNS, i, j);
  }

  predicate IsDeviceColumn(x: string) {
    x == "pools_override" || x == "name" || x == "notes" || x == "capabilities" || x == "last_net" || x == "ttl_s"
  }

  lemma DeviceColumnsAre(x: string) returns (j: nat)
    requires IsDeviceColumn(x)
    ensures j < |DEVICE_COLUMNS| && DEVICE_COLUMNS[j] == (x, Null)
  {
    assert DEVICE_COLUMNS[0] == ("pools_override", Null) && DEVICE_COLUMNS[1] == ("name", Null);
    assert DEVICE_COLUMNS[2] == ("notes", Null) && DEVICE_COLUMNS[3] == ("capabilities", Null);
    assert DEVICE_COLUMNS[4] == ("last_net", Null) && DEVICE_COLUMNS[5] == ("ttl_s", Null);
    j := if x == "pools_override" then 0 else if x == "name" then 1 else if x == "notes" then 2
         else if x == "capabilities" then 3 else if x == "last_net" then 4 else 5;
  }

  lemma NotRenamed(t: Table, x: string)
    requires x !in t.columns && (x == "name" ==> "nickname" !in t.columns)
    ensures x !in RenameNickname(t).columns && |RenameNickname(t).rows| == |t.rows|
  {
    hide RenameCell;
  }

  /** A device from before a column has nothing in it: every pool override, name, note, capability and lifetime is unset. */
  lemma OldDevicesGet<P>(rules: Rules<P>, db: Db, i: nat, x: string)
    requires Migrate(rules, db).ok && db.devices.Some? && i < |db.devices.value.rows| && IsDeviceColumn(x)
    requires x !in db.devices.value.columns && (x == "name" ==> "nickname" !in db.devices.value.columns)
    ensures Migrate(rules, db).db.devices.Some?
    ensures |Migrate(rules, db).db.devices.value.rows| == |db.devices.value.rows|
    ensures Get(Migrate(rules, db).db.devices.value.rows[i], x) == Null
  {
    hide Migrate, AddColumns, RenameNickname;
    MigratedOthers(rules, db);
    var j := DeviceColumnsAre(x);
    NotRenamed(db.devices.value, x);
    DeviceDefault(RenameNickname(db.devices.value), i, j);
  }

  // ---- the columns -----------------------------------------------------------

  /** Each list, by name. */
  lemma AddedColumnsAre(x: string)
    ensures NamedIn(LEASE_COLUMNS, x) <==>
      x in ["lease_ttl_s", "max_attempts", "attempts", "lease_deadline", "last_error", "priority", "parent_job_id", "template_id"]
    ensures NamedIn(ARTIFACT_COLUMNS, x) <==>
      x in ["app", "build", "platform", "published_at", "publish_seq", "channel", "pinned", "pin_reason"]
    ensures NamedIn(DEVICE_COLUMNS, x) <==> IsDeviceColumn(x)
    ensures NamedIn(PROVENANCE_COLUMNS, x) <==> x == "requested_by" || x == "source"
  {
    LeaseColumnsAre();
    ArtifactColumnsAre();
    assert LEASE_COLUMNS[0].0 == "lease_ttl_s" && LEASE_COLUMNS[1].0 == "max_attempts" && LEASE_COLUMNS[5].0 == "priority";
    if IsDeviceColumn(x) { var j := DeviceColumnsAre(x); }
    assert PROVENANCE_COLUMNS[0].0 == "requested_by" && PROVENANCE_COLUMNS[1].0 == "source";
  }

  lemma RebuildListIs(x: string)
    ensures x in JOB_COLUMNS <==>
      x in ["job_id", "executor", "workload", "spec", "status", "created_at", "claimed_by", "claimed_at", "finished_at"] ||
      NamedIn(LEASE_COLUMNS, x)
  {
    JobColumnsAre(x);
    if x in ["job_id", "executor", "workload", "spec", "status", "created_at", "claimed_by", "claimed_at", "finished_at"] {
      var k :| 0 <= k < 9 && BASE_COLUMNS[k] == x;
    }
  }

  // ---- the CHECKs ------------------------------------------------------------

  /** The DDL has this word, quoted, somewhere. */
  predicate Mentions(c: Checked, word: string) {
    word in c.mentions
  }

  /**
   * A jobs table whose DDL lacks 'cancelled' or 'waiting' ends with the CHECK of
   * these seven statuses; one that lacks only 'skipped' gains it at the end of
   * the CHECK it had; any other keeps its CHECK.
   */
  lemma JobsCheckEndsAs<P>(rules: Rules<P>, db: Db)
    requires Migrate(rules, db).ok
    ensures Migrate(rules, db).db.jobs.Some?
    ensures var given, after := JobsGiven(db), Migrate(rules, db).db.jobs.value;
      if !Mentions(given, "cancelled") || !Mentions(given, "waiting")
      then after.allowed == Some(["waiting", "queued", "claimed", "done", "failed", "cancelled", "skipped"])
      else if !Mentions(given, "skipped") then given.allowed.Some? && after.allowed == Some(given.allowed.value + ["skipped"])
      else after.allowed == given.allowed
  {
    hide Migrate, Rewritable;
    JobsCheckAfter(rules, db);
    JobsCheckShape(rules, db);
    assert REBUILT_STATUSES + ["skipped"] == ["waiting", "queued", "claimed", "done", "failed", "cancelled", "skipped"];
  }

  /** And a findings table whose DDL lacks 'fixed' gains that verdict. */
  lemma FindingsCheckEndsAs<P>(rules: Rules<P>, db: Db)
    requires Migrate(rules, db).ok
    ensures Migrate(rules, db).db.findings.Some?
    ensures var given, after := FindingsGiven(db), Migrate(rules, db).db.findings.value;
      if !Mentions(given, "fixed") then given.allowed.Some? && after.allowed == Some(given.allowed.value + ["fixed"])
      else after.allowed == given.allowed
  {
    hide Migrate, HistoryLines;
    MigratedFindings(rules, db);
  }

  // ---- a new database --------------------------------------------------------

  predicate IsNew(db: Db) {
    db.jobs.None? && db.artifacts.None? && db.devices.None? && db.findings.None?
  }

  lemma FreshWords()
    ensures Mentions(FRESH_JOBS, "cancelled") && Mentions(FRESH_JOBS, "waiting") && Mentions(FRESH_JOBS, "skipped")
    ensures FRESH_JOBS.allowed == Some(["waiting", "queued", "claimed", "done", "failed", "cancelled", "skipped"])
  {
    FreshTablesAreWide();
    assert STATUSES == ["waiting", "queued", "claimed", "done", "failed", "cancelled", "skipped"];
  }

  lemma FreshColumns(x: string)
    ensures x in FRESH_JOBS.table.columns <==> x in JOB_COLUMNS || x == "depends_on"
    ensures FRESH_JOBS.table.rows == [] && FRESH_ARTIFACTS.rows == [] && FRESH_DEVICES.rows == []
  {
  }

  lemma FreshDevicesKeepTheirColumns()
    ensures RenameNickname(FRESH_DEVICES) == FRESH_DEVICES
  {
    assert FRESH_DEVICES.columns[8] == "name";
  }

  lemma DoneIsThere(db: Db)
    requires MigrationDone(db)
    ensures db.jobs.Some? && db.artifacts.Some? && db.devices.Some? && db.findings.Some?
  {
  }

  lemma NewJobs<P>(rules: Rules<P>, db: Db, x: string)
    requires IsNew(db) && Migrate(rules, db).ok
    ensures Migrate(rules, db).db.jobs.Some?
    ensures var jobs := Migrate(rules, db).db.jobs.value;
      jobs.allowed == Some(["waiting", "queued", "claimed", "done", "failed", "cancelled", "skipped"]) && jobs.table.rows == [] &&
      (x in jobs.table.columns <==> x in JOB_COLUMNS || x == "depends_on" || x == "requested_by" || x == "source")
  {
    hide Migrate, Rewritable, Words;
    FreshWords();
    FreshColumns(x);
    JobsCheckEndsAs(rules, db);
    JobsColumnsAfter(rules, db, x);
    JobCountKept(rules, db);
    RebuildListIs(x);
    AddedColumnsAre(x);
  }

  lemma NewOthers<P>(rules: Rules<P>, db: Db, x: string)
    requires IsNew(db) && Migrate(rules, db).ok
    ensures Migrate(rules, db).db.artifacts.Some? && Migrate(rules, db).db.devices.Some?
    ensures var artifacts, devices := Migrate(rules, db).db.artifacts.value, Migrate(rules, db).db.devices.value;
      artifacts.rows == [] && devices.rows == [] &&
      (x in artifacts.columns <==> x in ["sha256", "name", "size", "created_at", "media_type"] || NamedIn(ARTIFACT_COLUMNS, x)) &&
      (x in devices.columns <==>
        x in ["device_id", "descriptor", "pools", "last_seen", "last_beacon"] || IsDeviceColumn(x))
  {
    hide Migrate, AddColumns, RenameNickname;
    MigratedOthers(rules, db);
    OthersColumnsAfter(rules, db, x);
    AddedColumnsAre(x);
    FreshDevicesKeepTheirColumns();
    AddColumnsAdds(FRESH_ARTIFACTS, ARTIFACT_COLUMNS);
    AddColumnsAdds(FRESH_DEVICES, DEVICE_COLUMNS);
  }

  lemma NewFindings<P>(rules: Rules<P>, db: Db)
    requires IsNew(db) && Migrate(rules, db).ok
    ensures Migrate(rules, db).db.findings.Some? && Migrate(rules, db).db.verdicts == db.verdicts
    ensures var findings := Migrate(rules, db).db.findings.value;
      findings.allowed == Some(["real", "duplicate", "not_a_bug", "agent_mistake", "fixed"]) && findings.table.rows == [] &&
      findings.table.columns == [
        "id", "fingerprint", "app", "build", "platform", "device_id", "job_id", "last_job_id", "mission_id",
        "check_name", "subclass", "severity", "title", "detail", "screen", "screen_name", "steps", "replay",
        "artifacts", "first_seen", "last_seen", "seen_count", "builds_seen", "verdict", "verdict_note",
        "verdict_at", "duplicate_of", "issue", "issue_state", "issue_at"]
  {
    hide Migrate;
    FreshTablesAreWide();
    MigratedFindings(rules, db);
    FindingsCheckEndsAs(rules, db);
    assert db.verdicts + [] == db.verdicts;
  }

  /** Opening a new directory makes empty tables with these CHECKs and columns, and nothing throws. */
  lemma NewDatabaseIs<P>(rules: Rules<P>, db: Db, x: string)
    requires IsNew(db)
    ensures Migrate(rules, db).ok && MigrationDone(Migrate(rules, db).db)
    ensures var m := Migrate(rules, db).db;
      m.jobs.value.allowed == Some(["waiting", "queued", "claimed", "done", "failed", "cancelled", "skipped"]) &&
      m.findings.value.allowed == Some(["real", "duplicate", "not_a_bug", "agent_mistake", "fixed"]) &&
      (x in m.jobs.value.table.columns <==>
        x in JOB_COLUMNS || x == "depends_on" || x == "requested_by" || x == "source") &&
      (x in m.artifacts.value.columns <==>
        x in ["sha256", "name", "size", "created_at", "media_type"] || NamedIn(ARTIFACT_COLUMNS, x)) &&
      (x in m.devices.value.columns <==>
        x in ["device_id", "descriptor", "pools", "last_seen", "last_beacon"] || IsDeviceColumn(x))
    ensures var m := Migrate(rules, db).db;
      m.jobs.value.table.rows == [] && m.artifacts.value.rows == [] && m.devices.value.rows == [] &&
      m.findings.value.table.rows == [] && m.verdicts == db.verdicts
  {
    hide Migrate, MigrationDone, NeedsRebuild, HistoryLines, RenameNickname, CreateTables;
    OlderDatabasesMigrate(rules, db);
    MigrateEndsDone(rules, db);
    FreshWords();
    FreshColumns(x);
    FreshDevicesKeepTheirColumns();
    NewJobs(rules, db, x);
    NewOthers(rules, db, x);
    NewFindings(rules, db);
    DoneIsThere(Migrate(rules, db).db);
  }
}
