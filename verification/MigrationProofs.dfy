// MigrationProofs: migrate is idempotent, loses nothing it should not, and
// ends in the schema the code expects; each claim with its exact condition.

module MigrationProofs {
  import opened Text
  import opened Migration

  // ---- adding columns --------------------------------------------------------

  predicate HasColumns(t: Table, added: seq<(string, Cell)>) {
    forall i :: 0 <= i < |added| ==> added[i].0 in t.columns
  }

  lemma {:induction false} AddColumnsAdds(t: Table, added: seq<(string, Cell)>)
    ensures HasColumns(AddColumns(t, added), added)
    ensures |AddColumns(t, added).rows| == |t.rows|
    ensures forall c :: c in AddColumns(t, added).columns <==> c in t.columns || exists i :: 0 <= i < |added| && added[i].0 == c
    decreases |added|
  {
    if added != [] {
      var t1 := AddColumn(t, added[0].0, added[0].1);
      AddColumnsAdds(t1, added[1..]);
      var t2 := AddColumns(t, added);
      forall i | 0 <= i < |added| ensures added[i].0 in t2.columns {
        if i > 0 { assert added[i] == added[1..][i - 1]; }
      }
      forall c ensures c in t2.columns <==> c in t.columns || exists i :: 0 <= i < |added| && added[i].0 == c {
        if i :| 0 <= i < |added[1..]| && added[1..][i].0 == c { assert added[i + 1].0 == c; }
      }
    }
  }

  lemma {:induction false} AddColumnsDone(t: Table, added: seq<(string, Cell)>)
    requires HasColumns(t, added)
    ensures AddColumns(t, added) == t
    decreases |added|
  {
    if added != [] {
      assert added[0].0 in t.columns;
      forall i | 0 <= i < |added[1..]| ensures added[1..][i].0 in t.columns { assert added[i + 1].0 in t.columns; }
      AddColumnsDone(t, added[1..]);
    }
  }

  /** A cell of a column that was there, or that none of the added ones is, is untouched. */
  lemma {:induction false} AddColumnsKeeps(t: Table, added: seq<(string, Cell)>, i: nat, c: string)
    requires i < |t.rows| && (c in t.columns || forall j :: 0 <= j < |added| ==> added[j].0 != c)
    ensures |AddColumns(t, added).rows| == |t.rows|
    ensures Get(AddColumns(t, added).rows[i], c) == Get(t.rows[i], c)
    decreases |added|
  {
    if added != [] {
      forall j | 0 <= j < |added[1..]| ensures added[1..][j] == added[j + 1] {}
      AddColumnsKeeps(AddColumn(t, added[0].0, added[0].1), added[1..], i, c);
    }
  }

  // ---- what a migrated database looks like -----------------------------------

  predicate Leased(r: Row) {
    Get(r, "status") == Str("claimed") ==> !Get(r, "lease_deadline").Null?
  }

  predicate JobsDone(c: Checked) {
    HasColumns(c.table, LEASE_COLUMNS) && HasColumns(c.table, PROVENANCE_COLUMNS) && "depends_on" in c.table.columns &&
    !NeedsRebuild(c) && "skipped" in c.mentions &&
    forall i :: 0 <= i < |c.table.rows| ==> Leased(c.table.rows[i])
  }

  predicate ArtifactsDone(t: Table) {
    HasColumns(t, ARTIFACT_COLUMNS) && "media_type" in t.columns &&
    forall i :: 0 <= i < |t.rows| ==> PublishSeq(PublishedAt(t.rows[i])) == t.rows[i]
  }

  predicate DevicesDone(t: Table) {
    HasColumns(t, DEVICE_COLUMNS) && "name" in t.columns
  }

  predicate FindingsDone(c: Checked, verdicts: seq<Verdict>) {
    "fixed" in c.mentions &&
    forall i :: 0 <= i < |c.table.rows| ==>
      Get(c.table.rows[i], "verdict").Null? || HasHistory(verdicts, Get(c.table.rows[i], "id"))
  }

  predicate MigrationDone(db: Db) {
    db.jobs.Some? && db.artifacts.Some? && db.devices.Some? && db.findings.Some? &&
    JobsDone(db.jobs.value) && ArtifactsDone(db.artifacts.value) && DevicesDone(db.devices.value) &&
    FindingsDone(db.findings.value, db.verdicts)
  }

  // ---- a migrated database is a fixed point ----------------------------------

  lemma LeasesDone<P>(rules: Rules<P>, t: Table)
    requires forall i :: 0 <= i < |t.rows| ==> Leased(t.rows[i])
    ensures Leases(rules, t) == t
  {
    forall i | 0 <= i < |t.rows| ensures Lease(rules, t.rows[i]) == t.rows[i] { assert Leased(t.rows[i]); }
    assert Leases(rules, t).rows == t.rows;
  }

  lemma FillPublishedDone(t: Table)
    requires forall i :: 0 <= i < |t.rows| ==> PublishSeq(PublishedAt(t.rows[i])) == t.rows[i]
    ensures FillPublished(t) == t
  {
    assert FillPublished(t).rows == t.rows;
  }

  lemma {:induction false} HistoryDone(verdicts: seq<Verdict>, rows: seq<Row>)
    requires forall i :: 0 <= i < |rows| ==> Get(rows[i], "verdict").Null? || HasHistory(verdicts, Get(rows[i], "id"))
    ensures HistoryLines(verdicts, rows) == []
  {
    if rows != [] {
      forall i | 0 <= i < |rows[1..]| ensures rows[1..][i] == rows[i + 1] {}
      HistoryDone(verdicts, rows[1..]);
    }
  }

  lemma ColumnsDone(db: Db)
    requires MigrationDone(db)
    ensures Columns(db) == db
  {
    AddColumnsDone(db.jobs.value.table, LEASE_COLUMNS);
    AddColumnsDone(db.artifacts.value, ARTIFACT_COLUMNS);
    FillPublishedDone(db.artifacts.value);
    AddColumnsDone(db.devices.value, DEVICE_COLUMNS);
  }

  lemma ProvenanceDone(db: Db)
    requires MigrationDone(db)
    ensures Provenance(db) == db
  {
    HistoryDone(db.verdicts, db.findings.value.table.rows);
    AddColumnsDone(db.jobs.value.table, PROVENANCE_COLUMNS);
    assert db.verdicts + [] == db.verdicts;
  }

  lemma MigratedIsFixed<P>(rules: Rules<P>, db: Db)
    requires MigrationDone(db)
    ensures Migrate(rules, db) == Migrated(db, true)
  {
    ColumnsDone(db);
    ProvenanceDone(db);
    LeasesDone(rules, db.jobs.value.table);
    assert Findings(db) == db;
    assert Finish(rules, db) == Migrated(db, true);
  }

  // ---- a successful migrate ends migrated ------------------------------------

  lemma {:induction false} HistoryCovers(verdicts: seq<Verdict>, rows: seq<Row>, k: nat)
    requires k < |rows| && !Get(rows[k], "verdict").Null?
    ensures HasHistory(verdicts + HistoryLines(verdicts, rows), Get(rows[k], "id"))
  {
    var id := Get(rows[k], "id");
    var lines := HistoryLines(verdicts, rows);
    if HasHistory(verdicts, id) {
      var i :| 0 <= i < |verdicts| && verdicts[i].findingId == id;
      assert (verdicts + lines)[i].findingId == id;
    } else if k == 0 {
      assert lines[0].findingId == id;
      assert (verdicts + lines)[|verdicts|].findingId == id;
    } else {
      var rest := HistoryLines(verdicts, rows[1..]);
      HistoryCovers(verdicts, rows[1..], k - 1);
      var i :| 0 <= i < |verdicts + rest| && (verdicts + rest)[i].findingId == id;
      assert i >= |verdicts|;
      var j := i - |verdicts| + (|lines| - |rest|);
      assert lines[j] == rest[i - |verdicts|];
      assert (verdicts + lines)[|verdicts| + j].findingId == id;
    }
  }

  lemma LeaseLeases<P>(rules: Rules<P>, r: Row)
    ensures Leased(Lease(rules, r))
  {
  }

  lemma FillIsDone(r: Row)
    ensures PublishSeq(PublishedAt(PublishSeq(PublishedAt(r)))) == PublishSeq(PublishedAt(r))
  {
    var r1 := PublishedAt(r);
    var r2 := PublishSeq(r1);
    assert Get(r2, "published_at") == Get(r1, "published_at");
    assert Get(r2, "created_at") == Get(r, "created_at") && Get(r1, "created_at") == Get(r, "created_at");
    assert Get(r2, "rowid") == Get(r, "rowid") && Get(r1, "rowid") == Get(r, "rowid");
    assert PublishedAt(r2) == r2;
    assert PublishSeq(r2) == r2;
  }

  lemma DevicesToTheEnd(t: Table)
    ensures DevicesDone(AddColumns(RenameNickname(t), DEVICE_COLUMNS))
  {
    var d := AddColumns(RenameNickname(t), DEVICE_COLUMNS);
    AddColumnsAdds(RenameNickname(t), DEVICE_COLUMNS);
    assert DEVICE_COLUMNS[1].0 == "name";
  }

  lemma FillIgnoresOthers(r: Row, c: string, v: Cell)
    requires PublishSeq(PublishedAt(r)) == r
    requires c != "published_at" && c != "publish_seq" && c != "created_at" && c != "rowid"
    ensures PublishSeq(PublishedAt(r[c := v])) == r[c := v]
  {
    var r' := r[c := v];
    assert Get(r', "published_at") == Get(r, "published_at") && Get(r', "publish_seq") == Get(r, "publish_seq");
    assert Get(r', "created_at") == Get(r, "created_at") && Get(r', "rowid") == Get(r, "rowid");
    assert Get(PublishedAt(r'), "publish_seq") == Get(r', "publish_seq");
    assert Get(PublishedAt(r), "publish_seq") == Get(r, "publish_seq");
    assert PublishedAt(r)["publish_seq" := Get(r, "rowid")]["published_at" := Get(r, "created_at")] ==
           PublishedAt(r)["published_at" := Get(r, "created_at")]["publish_seq" := Get(r, "rowid")];
    FillShape(r);
    FillShape(r');
  }

  /** The fill changes nothing exactly when each of the two cells is there or has nothing to be filled with. */
  lemma FillShape(r: Row)
    ensures PublishSeq(PublishedAt(r)) == r <==>
      (!Get(r, "published_at").Null? || ("published_at" in r && Get(r, "created_at").Null?)) &&
      (!Get(r, "publish_seq").Null? || ("publish_seq" in r && Get(r, "rowid").Null?))
  {
    var r1 := PublishedAt(r);
    var r2 := PublishSeq(r1);
    assert Get(r1, "publish_seq") == Get(r, "publish_seq") && Get(r1, "rowid") == Get(r, "rowid");
    assert Get(r2, "published_at") == Get(r1, "published_at");
    assert "published_at" in r2 <==> "published_at" in r1;
    if r2 == r {
      assert Get(r, "published_at") == Get(r1, "published_at");
      assert Get(r, "publish_seq") == Get(r2, "publish_seq");
    }
  }

  lemma JobsThroughRebuild(c: Checked)
    requires HasColumns(c.table, LEASE_COLUMNS) && Rebuild(c).Some?
    ensures var r := Rebuild(c).value; HasColumns(r.table, LEASE_COLUMNS) && !NeedsRebuild(r)
  {
    if NeedsRebuild(c) {
      assert REBUILT_STATUSES[5] == "cancelled" && REBUILT_STATUSES[0] == "waiting";
      forall j | 0 <= j < |LEASE_COLUMNS| ensures LEASE_COLUMNS[j].0 in JOB_COLUMNS {
        assert Names(LEASE_COLUMNS)[j] == LEASE_COLUMNS[j].0;
      }
    }
  }

  lemma HasColumnsGrows(t: Table, t': Table, added: seq<(string, Cell)>)
    requires HasColumns(t, added) && forall c :: c in t.columns ==> c in t'.columns
    ensures HasColumns(t', added)
  {
  }

  lemma JobsToTheEnd<P>(rules: Rules<P>, results: seq<Result>, c: Checked)
    requires HasColumns(c.table, LEASE_COLUMNS) && !NeedsRebuild(c)
    ensures var t1 := AddColumn(c.table, "depends_on", Null); var t2 := AddColumns(t1, PROVENANCE_COLUMNS);
      var wide := WidenJobs(rules, results, c.(table := t2));
      wide.Some? ==> JobsDone(wide.value.(table := Leases(rules, wide.value.table)))
  {
    var t1 := AddColumn(c.table, "depends_on", Null);
    var t2 := AddColumns(t1, PROVENANCE_COLUMNS);
    AddColumnsAdds(t1, PROVENANCE_COLUMNS);
    var wide := WidenJobs(rules, results, c.(table := t2));
    if wide.Some? {
      var t3 := wide.value.table;
      assert t3.columns == t2.columns;
      HasColumnsGrows(c.table, Leases(rules, t3), LEASE_COLUMNS);
      HasColumnsGrows(t2, Leases(rules, t3), PROVENANCE_COLUMNS);
      forall i | 0 <= i < |t3.rows| ensures Leased(Leases(rules, t3).rows[i]) { LeaseLeases(rules, t3.rows[i]); }
    }
  }

  lemma ArtifactsToTheEnd(t: Table)
    ensures ArtifactsDone(AddColumn(FillPublished(AddColumns(t, ARTIFACT_COLUMNS)), "media_type", Null))
  {
    var t1 := AddColumns(t, ARTIFACT_COLUMNS);
    var t2 := FillPublished(t1);
    AddColumnsAdds(t, ARTIFACT_COLUMNS);
    forall i | 0 <= i < |t2.rows| ensures PublishSeq(PublishedAt(t2.rows[i])) == t2.rows[i] {
      FillIsDone(t1.rows[i]);
    }
    var t3 := AddColumn(t2, "media_type", Null);
    forall i | 0 <= i < |t3.rows| ensures PublishSeq(PublishedAt(t3.rows[i])) == t3.rows[i] {
      FillIgnoresOthers(t2.rows[i], "media_type", Null);
    }
    HasColumnsGrows(t2, t3, ARTIFACT_COLUMNS);
  }

  lemma WidenMentions(c: Checked, column: string, word: string)
    requires Widen(c, column, word).Some?
    ensures word in Widen(c, column, word).value.mentions
  {
  }

  lemma FindingsToTheEnd(c: Checked, verdicts: seq<Verdict>)
    requires "fixed" in c.mentions
    ensures FindingsDone(c, verdicts + HistoryLines(verdicts, c.table.rows))
  {
    var rows := c.table.rows;
    forall i | 0 <= i < |rows| && !Get(rows[i], "verdict").Null?
      ensures HasHistory(verdicts + HistoryLines(verdicts, rows), Get(rows[i], "id"))
    {
      HistoryCovers(verdicts, rows, i);
    }
  }

  // The migrated tables, one at a time, from the table migrate was given.

  function JobsGiven(db: Db): Checked {
    if db.jobs.Some? then db.jobs.value else FRESH_JOBS
  }

  function FindingsGiven(db: Db): Checked {
    if db.findings.Some? then db.findings.value
    else Checked(Table(FRESH_FINDINGS, []), Some(FINDING_VERDICTS), Words(FINDING_VERDICTS))
  }

  function JobsBeforeRebuild(db: Db): Checked {
    var c := JobsGiven(db);
    c.(table := AddColumns(c.table, LEASE_COLUMNS))
  }

  function WithLaterColumns(c: Checked): Checked {
    c.(table := AddColumns(AddColumn(c.table, "depends_on", Null), PROVENANCE_COLUMNS))
  }

  /** The three table rewrites that can throw can be done. */
  predicate Rewritable<P>(rules: Rules<P>, db: Db) {
    Rebuild(JobsBeforeRebuild(db)).Some? && Widen(FindingsGiven(db), "verdict", "fixed").Some? &&
    WidenJobs(rules, db.results, WithLaterColumns(Rebuild(JobsBeforeRebuild(db)).value)).Some?
  }

  lemma MigrateReturns<P>(rules: Rules<P>, db: Db)
    ensures Migrate(rules, db).ok <==> Rewritable(rules, db)
  {
    hide AddColumn, AddColumns, Rebuild, Widen, WidenJobs, Leases, HistoryLines, FillPublished, RenameNickname;
  }

  lemma MigratedJobs<P>(rules: Rules<P>, db: Db)
    requires Migrate(rules, db).ok
    ensures Rewritable(rules, db)
    ensures var wide := WidenJobs(rules, db.results, WithLaterColumns(Rebuild(JobsBeforeRebuild(db)).value)).value;
      Migrate(rules, db).db.jobs == Some(wide.(table := Leases(rules, wide.table)))
  {
    hide AddColumn, AddColumns, Rebuild, Widen, WidenJobs, Leases, HistoryLines, FillPublished, RenameNickname;
  }

  lemma MigratedFindings<P>(rules: Rules<P>, db: Db)
    requires Migrate(rules, db).ok
    ensures var m := Migrate(rules, db).db; var findings := Widen(FindingsGiven(db), "verdict", "fixed");
      findings.Some? && m.findings == findings && m.results == db.results &&
      m.verdicts == db.verdicts + HistoryLines(db.verdicts, findings.value.table.rows)
  {
    hide AddColumn, AddColumns, Rebuild, Widen, WidenJobs, Leases, HistoryLines, FillPublished, RenameNickname;
  }

  lemma MigratedOthers<P>(rules: Rules<P>, db: Db)
    requires Migrate(rules, db).ok
    ensures var m := Migrate(rules, db).db; var given := CreateTables(db);
      m.artifacts == Some(AddColumn(FillPublished(AddColumns(given.artifacts.value, ARTIFACT_COLUMNS)), "media_type", Null)) &&
      m.devices == Some(AddColumns(RenameNickname(given.devices.value), DEVICE_COLUMNS))
  {
    hide AddColumn, AddColumns, Rebuild, Widen, WidenJobs, Leases, HistoryLines, FillPublished, RenameNickname;
  }

  lemma MigrateEndsDone<P>(rules: Rules<P>, db: Db)
    requires Migrate(rules, db).ok
    ensures MigrationDone(Migrate(rules, db).db)
  {
    hide Migrate, JobsDone, ArtifactsDone, DevicesDone, FindingsDone, Rebuild, NeedsRebuild, HasColumns,
      AddColumn, AddColumns, Widen, WidenJobs, HistoryLines, FillPublished, RenameNickname, Leases;
    MigratedJobs(rules, db);
    MigratedFindings(rules, db);
    MigratedOthers(rules, db);
    var c := JobsBeforeRebuild(db);
    AddColumnsAdds(JobsGiven(db).table, LEASE_COLUMNS);
    JobsThroughRebuild(c);
    JobsToTheEnd(rules, db.results, Rebuild(c).value);
    ArtifactsToTheEnd(CreateTables(db).artifacts.value);
    DevicesToTheEnd(CreateTables(db).devices.value);
    WidenMentions(FindingsGiven(db), "verdict", "fixed");
    FindingsToTheEnd(Widen(FindingsGiven(db), "verdict", "fixed").value, db.verdicts);
  }

  /** Every step is a no-op once applied: whenever migrate returns, running it again, by any clock, changes nothing. */
  lemma MigrateIsIdempotent<P>(rules: Rules<P>, later: Rules<P>, db: Db)
    requires Migrate(rules, db).ok
    ensures Migrate(later, Migrate(rules, db).db) == Migrated(Migrate(rules, db).db, true)
  {
    MigrateEndsDone(rules, db);
    MigratedIsFixed(later, Migrate(rules, db).db);
  }

  // ---- when migrate returns --------------------------------------------------

  /** SQLite enforced each table's own CHECK on the rows it holds. */
  predicate Sound(c: Checked, column: string) {
    c.allowed.Some? ==> AllAdmitted(c.table, column, c.allowed.value)
  }

  predicate HasBaseColumns(t: Table) {
    forall i :: 0 <= i < |BASE_COLUMNS| ==> BASE_COLUMNS[i] in t.columns
  }

  predicate AddedByLease(c: string) {
    exists j :: 0 <= j < |LEASE_COLUMNS| && LEASE_COLUMNS[j].0 == c
  }

  lemma BaseIsNotLease(i: nat)
    requires i < |BASE_COLUMNS|
    ensures !AddedByLease(BASE_COLUMNS[i])
  {
  }

  lemma JobColumnsAre(x: string)
    ensures x in JOB_COLUMNS <==> (exists i :: 0 <= i < |BASE_COLUMNS| && BASE_COLUMNS[i] == x) || AddedByLease(x)
  {
    if AddedByLease(x) {
      var j :| 0 <= j < |LEASE_COLUMNS| && LEASE_COLUMNS[j].0 == x;
      assert Names(LEASE_COLUMNS)[j] == x;
    }
    if x in Names(LEASE_COLUMNS) {
      var j :| 0 <= j < |LEASE_COLUMNS| && Names(LEASE_COLUMNS)[j] == x;
      assert LEASE_COLUMNS[j].0 == x;
    }
  }

  lemma BaseColumnsAreEnough(t: Table)
    ensures (forall x :: x in JOB_COLUMNS ==> x in AddColumns(t, LEASE_COLUMNS).columns) <==> HasBaseColumns(t)
  {
    hide AddColumns;
    var t' := AddColumns(t, LEASE_COLUMNS);
    AddColumnsAdds(t, LEASE_COLUMNS);
    forall i | 0 <= i < |BASE_COLUMNS|
      ensures BASE_COLUMNS[i] in JOB_COLUMNS && (BASE_COLUMNS[i] in t'.columns <==> BASE_COLUMNS[i] in t.columns)
    {
      JobColumnsAre(BASE_COLUMNS[i]);
      BaseIsNotLease(i);
    }
    if HasBaseColumns(t) {
      forall x | x in JOB_COLUMNS ensures x in t'.columns { JobColumnsAre(x); }
    }
  }

  lemma StatusThroughColumns(t: Table, allowed: seq<string>)
    ensures AllAdmitted(AddColumns(t, LEASE_COLUMNS), "status", allowed) <==> AllAdmitted(t, "status", allowed)
  {
    hide AddColumns;
    var t' := AddColumns(t, LEASE_COLUMNS);
    AddColumnsAdds(t, LEASE_COLUMNS);
    BaseIsNotLease(4);
    forall i | 0 <= i < |t.rows| ensures Get(t'.rows[i], "status") == Get(t.rows[i], "status") {
      AddColumnsKeeps(t, LEASE_COLUMNS, i, BASE_COLUMNS[4]);
    }
  }

  lemma StatusThroughLater(c: Checked, allowed: seq<string>)
    requires AllAdmitted(c.table, "status", allowed)
    ensures AllAdmitted(WithLaterColumns(c).table, "status", allowed)
  {
    var t1 := AddColumn(c.table, "depends_on", Null);
    var t2 := AddColumns(t1, PROVENANCE_COLUMNS);
    AddColumnsAdds(t1, PROVENANCE_COLUMNS);
    forall i | 0 <= i < |t2.rows| ensures Admits(allowed, Get(t2.rows[i], "status")) {
      AddColumnsKeeps(t1, PROVENANCE_COLUMNS, i, "status");
      assert Admits(allowed, Get(c.table.rows[i], "status"));
    }
  }

  lemma AdmitsMore(t: Table, column: string, allowed: seq<string>, word: string)
    requires AllAdmitted(t, column, allowed)
    ensures AllAdmitted(t, column, allowed + [word])
  {
    forall i | 0 <= i < |t.rows| ensures Admits(allowed + [word], Get(t.rows[i], column)) {
      assert Admits(allowed, Get(t.rows[i], column));
    }
  }

  /** The fixed-column rebuild is either not needed or can be done. */
  predicate RebuildGoes(c: Checked) {
    NeedsRebuild(c) ==> HasBaseColumns(c.table) && AllAdmitted(c.table, "status", REBUILT_STATUSES)
  }

  lemma RebuildGoesExactlyWhen(db: Db)
    ensures Rebuild(JobsBeforeRebuild(db)).Some? <==> RebuildGoes(JobsGiven(db))
  {
    BaseColumnsAreEnough(JobsGiven(db).table);
    StatusThroughColumns(JobsGiven(db).table, REBUILT_STATUSES);
  }

  lemma SkippedIsNew()
    ensures "skipped" !in Words(REBUILT_STATUSES)
  {
  }

  lemma StatusIsCopied(r: Row)
    ensures Get(Project(r), "status") == Get(r, "status")
  {
    assert BASE_COLUMNS[4] == "status";
  }

  lemma RebuiltIsSound(db: Db)
    requires Sound(JobsGiven(db), "status") && Rebuild(JobsBeforeRebuild(db)).Some?
    ensures var c := Rebuild(JobsBeforeRebuild(db)).value;
      Sound(c, "status") &&
      (c.allowed.Some? <==> NeedsRebuild(JobsGiven(db)) || JobsGiven(db).allowed.Some?) &&
      ("skipped" in c.mentions <==> !NeedsRebuild(JobsGiven(db)) && "skipped" in JobsGiven(db).mentions)
  {
    hide Words, AddColumns, Project;
    var given := JobsGiven(db);
    var c := Rebuild(JobsBeforeRebuild(db)).value;
    if NeedsRebuild(given) {
      SkippedIsNew();
      forall i | 0 <= i < |c.table.rows| ensures Admits(REBUILT_STATUSES, Get(c.table.rows[i], "status")) {
        StatusIsCopied(JobsBeforeRebuild(db).table.rows[i]);
        assert Admits(REBUILT_STATUSES, Get(JobsBeforeRebuild(db).table.rows[i], "status"));
      }
    } else if given.allowed.Some? {
      StatusThroughColumns(given.table, given.allowed.value);
    }
  }

  /**
   * migrate returns exactly when the old jobs table, if it must be rebuilt with
   * fixed columns, has those columns and only statuses the rebuilt CHECK knows,
   * and each CHECK that must be widened has the shape the migration knows.
   */
  lemma MigrateReturnsExactlyWhen<P>(rules: Rules<P>, db: Db)
    requires Sound(JobsGiven(db), "status") && Sound(FindingsGiven(db), "verdict")
    ensures Migrate(rules, db).ok <==>
      RebuildGoes(JobsGiven(db)) &&
      ("fixed" in FindingsGiven(db).mentions || FindingsGiven(db).allowed.Some?) &&
      (NeedsRebuild(JobsGiven(db)) || "skipped" in JobsGiven(db).mentions || JobsGiven(db).allowed.Some?)
  {
    hide Migrate, AddColumns, AddColumn, Backfill, Rebuild;
    MigrateReturns(rules, db);
    RebuildGoesExactlyWhen(db);
    var findings := FindingsGiven(db);
    if findings.allowed.Some? { AdmitsMore(findings.table, "verdict", findings.allowed.value, "fixed"); }
    if Rebuild(JobsBeforeRebuild(db)).Some? {
      var c := Rebuild(JobsBeforeRebuild(db)).value;
      RebuiltIsSound(db);
      if c.allowed.Some? {
        StatusThroughLater(c, c.allowed.value);
        AdmitsMore(WithLaterColumns(c).table, "status", c.allowed.value, "skipped");
      }
    }
  }

  // ---- what migrate keeps ----------------------------------------------------

  lemma FreshTablesAreWide()
    ensures !NeedsRebuild(FRESH_JOBS) && "skipped" in FRESH_JOBS.mentions
    ensures "fixed" in Words(FINDING_VERDICTS)
  {
    assert STATUSES[0] == "waiting" && STATUSES[5] == "cancelled" && STATUSES[6] == "skipped";
    assert FINDING_VERDICTS[4] == "fixed";
  }

  predicate KnowsOnlyOldStatuses(c: Checked) {
    c.allowed.Some? && forall i :: 0 <= i < |c.allowed.value| ==> c.allowed.value[i] in REBUILT_STATUSES
  }

  lemma AdmittedIsKnown(allowed: seq<string>, v: Cell)
    requires Admits(allowed, v) && forall i :: 0 <= i < |allowed| ==> allowed[i] in REBUILT_STATUSES
    ensures Admits(REBUILT_STATUSES, v)
  {
  }

  /**
   * migrate returns on a new database, and on every one from before findings
   * whose jobs table has the first columns and a CHECK of known statuses,
   * whatever rows it holds.
   */
  lemma OlderDatabasesMigrate<P>(rules: Rules<P>, db: Db)
    requires db.findings.None? && Sound(JobsGiven(db), "status")
    requires db.jobs.Some? ==> HasBaseColumns(db.jobs.value.table) && KnowsOnlyOldStatuses(db.jobs.value)
    ensures Migrate(rules, db).ok
  {
    hide Migrate, HasBaseColumns, NeedsRebuild;
    var c := JobsGiven(db);
    FreshTablesAreWide();
    if db.jobs.Some? {
      forall i | 0 <= i < |c.table.rows| ensures Admits(REBUILT_STATUSES, Get(c.table.rows[i], "status")) {
        AdmittedIsKnown(c.allowed.value, Get(c.table.rows[i], "status"));
      }
    }
    MigrateReturnsExactlyWhen(rules, db);
  }

  /** Rows hold cells for their table's columns only. */
  predicate Tidy(t: Table) {
    forall i, c :: 0 <= i < |t.rows| && c in t.rows[i] ==> c in t.columns || c == "rowid"
  }

  /** A nullable column added to a tidy table changes no cell. */
  lemma NullColumnKeeps(t: Table, c: string)
    requires Tidy(t) && c != "rowid"
    ensures Tidy(AddColumn(t, c, Null)) && |AddColumn(t, c, Null).rows| == |t.rows|
    ensures forall i, x :: 0 <= i < |t.rows| ==> Get(AddColumn(t, c, Null).rows[i], x) == Get(t.rows[i], x)
  {
  }

  lemma LaterColumnsKeep(c: Checked)
    requires Tidy(c.table)
    ensures Tidy(WithLaterColumns(c).table) && |WithLaterColumns(c).table.rows| == |c.table.rows|
    ensures forall i, x :: 0 <= i < |c.table.rows| ==> Get(WithLaterColumns(c).table.rows[i], x) == Get(c.table.rows[i], x)
  {
    var t1 := AddColumn(c.table, "depends_on", Null);
    NullColumnKeeps(c.table, "depends_on");
    var t2 := AddColumn(t1, "requested_by", Null);
    NullColumnKeeps(t1, "requested_by");
    NullColumnKeeps(t2, "source");
    var t3 := AddColumn(t2, "source", Null);
    assert PROVENANCE_COLUMNS[1..] == [("source", Null)];
    assert [("source", Null)][1..] == [];
    assert AddColumns(t2, [("source", Null)]) == t3;
    assert AddColumns(t1, PROVENANCE_COLUMNS) == t3;
  }

  lemma {:induction false} AddColumnsTidy(t: Table, added: seq<(string, Cell)>)
    requires Tidy(t)
    ensures Tidy(AddColumns(t, added))
    decreases |added|
  {
    if added != [] { AddColumnsTidy(AddColumn(t, added[0].0, added[0].1), added[1..]); }
  }

  /** The row as the last two steps leave it: relabelled if the widening ran, then leased. */
  function Finished<P>(rules: Rules<P>, db: Db, r: Row): Row {
    Lease(rules, if NeedsRebuild(JobsGiven(db)) || "skipped" !in JobsGiven(db).mentions
                 then Relabel(rules, db.results, r) else r)
  }

  lemma WidenedRows<P>(rules: Rules<P>, results: seq<Result>, c: Checked)
    requires WidenJobs(rules, results, c).Some?
    ensures var rows := Leases(rules, WidenJobs(rules, results, c).value.table).rows;
      |rows| == |c.table.rows| &&
      forall i :: 0 <= i < |rows| ==>
        rows[i] == Lease(rules, if "skipped" in c.mentions then c.table.rows[i] else Relabel(rules, results, c.table.rows[i]))
  {
    hide Lease, Relabel;
  }

  lemma LaterMentions(c: Checked)
    ensures WithLaterColumns(c).mentions == c.mentions
  {
  }

  /** The jobs before the widening: rebuilt if need be, with every column the code adds. */
  function JobsBeforeWidening(db: Db): Checked
    requires Rebuild(JobsBeforeRebuild(db)).Some?
  {
    WithLaterColumns(Rebuild(JobsBeforeRebuild(db)).value)
  }

  /** The jobs as migrate leaves them. */
  function JobsAfter<P>(rules: Rules<P>, db: Db): Table
    requires Migrate(rules, db).ok
  {
    MigratedJobs(rules, db);
    Migrate(rules, db).db.jobs.value.table
  }

  /** The i-th job after migrate, from the i-th job before the widening. */
  lemma JobRowIs<P>(rules: Rules<P>, db: Db)
    requires Migrate(rules, db).ok && Sound(JobsGiven(db), "status")
    ensures Rewritable(rules, db)
    ensures var rows := JobsAfter(rules, db).rows; var before := JobsBeforeWidening(db).table.rows;
      |rows| == |before| && forall i :: 0 <= i < |rows| ==> rows[i] == Finished(rules, db, before[i])
  {
    hide Migrate, AddColumns, AddColumn, Relabel, Lease, Rebuild, WidenJobs, NeedsRebuild, WithLaterColumns, Leases, Sound;
    MigratedJobs(rules, db);
    RebuiltIsSound(db);
    LaterMentions(Rebuild(JobsBeforeRebuild(db)).value);
    WidenedRows(rules, db.results, JobsBeforeWidening(db));
  }

  // ---- the CHECKs migrate ends with ------------------------------------------

  predicate AdmitsAll(c: Checked, words: seq<string>) {
    c.allowed.Some? && forall i :: 0 <= i < |words| ==> words[i] in c.allowed.value
  }

  lemma WidenedJobsCheck<P>(rules: Rules<P>, results: seq<Result>, c: Checked)
    requires WidenJobs(rules, results, c).Some?
    ensures WidenJobs(rules, results, c).value.allowed ==
      if "skipped" in c.mentions then c.allowed else Some(c.allowed.value + ["skipped"])
  {
  }

  lemma StatusesAre(allowed: seq<string>)
    ensures (forall i :: 0 <= i < |STATUSES| ==> STATUSES[i] in allowed) <==>
      (forall i :: 0 <= i < |REBUILT_STATUSES| ==> REBUILT_STATUSES[i] in allowed) && "skipped" in allowed
  {
    assert STATUSES[|REBUILT_STATUSES|] == "skipped";
    forall i | 0 <= i < |REBUILT_STATUSES| ensures STATUSES[i] == REBUILT_STATUSES[i] {}
    forall i | 0 <= i < |STATUSES| ensures STATUSES[i] == "skipped" || (i < |REBUILT_STATUSES| && STATUSES[i] == REBUILT_STATUSES[i]) {}
  }

  lemma RebuiltCheck(c: Checked)
    requires Rebuild(c).Some?
    ensures Rebuild(c).value.allowed == if NeedsRebuild(c) then Some(REBUILT_STATUSES) else c.allowed
    ensures "skipped" in Rebuild(c).value.mentions <==> !NeedsRebuild(c) && "skipped" in c.mentions
  {
    hide Words;
    SkippedIsNew();
  }

  lemma JobsCheckAfter<P>(rules: Rules<P>, db: Db)
    requires Migrate(rules, db).ok
    ensures Rewritable(rules, db) && Migrate(rules, db).db.jobs.Some?
    ensures Migrate(rules, db).db.jobs.value.allowed ==
      if NeedsRebuild(JobsGiven(db)) then Some(REBUILT_STATUSES + ["skipped"])
      else if "skipped" in JobsGiven(db).mentions then JobsGiven(db).allowed
      else Some(JobsGiven(db).allowed.value + ["skipped"])
  {
    hide Migrate, Rebuild, WidenJobs, AddColumns, AddColumn, Leases, NeedsRebuild;
    MigratedJobs(rules, db);
    var c := JobsBeforeRebuild(db);
    SameWords(JobsGiven(db), c);
    RebuiltCheck(c);
    WidenedJobsCheck(rules, db.results, WithLaterColumns(Rebuild(c).value));
  }

  lemma SameWords(c: Checked, c': Checked)
    requires c'.mentions == c.mentions
    ensures NeedsRebuild(c') <==> NeedsRebuild(c)
  {
  }

  lemma SkippedIsLast(allowed: seq<string>)
    ensures "skipped" in allowed + ["skipped"]
    ensures (forall i :: 0 <= i < |REBUILT_STATUSES| ==> REBUILT_STATUSES[i] in allowed + ["skipped"]) <==>
            (forall i :: 0 <= i < |REBUILT_STATUSES| ==> REBUILT_STATUSES[i] in allowed)
  {
    assert (allowed + ["skipped"])[|allowed|] == "skipped";
    forall i | 0 <= i < |REBUILT_STATUSES| ensures REBUILT_STATUSES[i] != "skipped" {
      SkippedIsNew();
      assert REBUILT_STATUSES[i] in Words(REBUILT_STATUSES);
    }
  }

  /**
   * migrate ends with a CHECK that admits every job status exactly when the
   * table is rebuilt, or its CHECK already knew the six older statuses and the
   * word 'skipped' stood in the DDL only if it stood in the CHECK: the code
   * looks for the quoted word anywhere in the text, comments included.
   */
  lemma EveryStatusIsAdmittedExactlyWhen<P>(rules: Rules<P>, db: Db)
    requires Migrate(rules, db).ok
    ensures Migrate(rules, db).db.jobs.Some?
    ensures AdmitsAll(Migrate(rules, db).db.jobs.value, STATUSES) <==>
      NeedsRebuild(JobsGiven(db)) ||
      (AdmitsAll(JobsGiven(db), REBUILT_STATUSES) &&
       ("skipped" in JobsGiven(db).mentions ==> "skipped" in JobsGiven(db).allowed.value))
  {
    hide Migrate, NeedsRebuild, Rewritable;
    JobsCheckAfter(rules, db);
    JobsCheckShape(rules, db);
    var given := JobsGiven(db);
    var after := Migrate(rules, db).db.jobs.value;
    if after.allowed.Some? { StatusesAre(after.allowed.value); }
    SkippedIsLast(REBUILT_STATUSES);
    if given.allowed.Some? { SkippedIsLast(given.allowed.value); }
  }

  lemma JobsCheckShape<P>(rules: Rules<P>, db: Db)
    requires Migrate(rules, db).ok
    ensures JobsGiven(db).allowed.None? && !NeedsRebuild(JobsGiven(db)) ==> "skipped" in JobsGiven(db).mentions
  {
    hide Migrate, AddColumns, AddColumn, Backfill;
    MigratedJobs(rules, db);
  }

  lemma WidenedFindingsCheck(c: Checked)
    requires Widen(c, "verdict", "fixed").Some?
    ensures AdmitsAll(Widen(c, "verdict", "fixed").value, FINDING_VERDICTS) <==>
      AdmitsAll(c, FINDING_VERDICTS[..4]) && ("fixed" in c.mentions ==> "fixed" in c.allowed.value)
  {
    var w := Widen(c, "verdict", "fixed").value;
    assert FINDING_VERDICTS[4] == "fixed";
    forall i | 0 <= i < 4 ensures FINDING_VERDICTS[..4][i] == FINDING_VERDICTS[i] && FINDING_VERDICTS[i] != "fixed" {}
    if "fixed" !in c.mentions {
      assert w.allowed.value[|c.allowed.value|] == "fixed";
    }
    if AdmitsAll(w, FINDING_VERDICTS) {
      forall i | 0 <= i < 4 ensures FINDING_VERDICTS[..4][i] in c.allowed.value { assert FINDING_VERDICTS[i] in w.allowed.value; }
      assert FINDING_VERDICTS[4] in w.allowed.value;
    }
    if AdmitsAll(c, FINDING_VERDICTS[..4]) && ("fixed" in c.mentions ==> "fixed" in c.allowed.value) {
      forall i | 0 <= i < 5 ensures FINDING_VERDICTS[i] in w.allowed.value {
        if i < 4 { assert FINDING_VERDICTS[..4][i] in c.allowed.value; }
      }
    }
  }
}
