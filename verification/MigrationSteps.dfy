// MigrationSteps: migrate() statement by statement - a migrate killed between two
// of its steps, or stopped by an error, leaves nothing that the next one cannot
// take up.

module MigrationSteps {
  import opened Text
  import opened Migration
  import opened MigrationProofs

  /** One statement, or one transaction, that migrate runs: it happens as a whole or not at all. */
  datatype Step =
    | CreateDevices
    | CreateJobs
    | CreateArtifacts
    | JobColumn(column: string, default: Cell)
    | ArtifactColumn(column: string, default: Cell)
    | FillPublishedAt
    | FillPublishSeq
    | RenameToName
    | DeviceColumn(column: string, default: Cell)
    | RebuildJobs
    | CreateFindings
    | WidenVerdicts
    | WriteHistory
    | WidenStatuses
    | GrantLeases

  const STEPS: nat := 38

  /** The n-th step, in the order of the code. */
  function StepAt(n: nat): Step
    requires n < STEPS
  {
    if n == 0 then CreateDevices
    else if n == 1 then CreateJobs
    else if n == 2 then CreateArtifacts
    else if n < 11 then JobColumn(LEASE_COLUMNS[n - 3].0, LEASE_COLUMNS[n - 3].1)
    else if n < 19 then ArtifactColumn(ARTIFACT_COLUMNS[n - 11].0, ARTIFACT_COLUMNS[n - 11].1)
    else if n == 19 then FillPublishedAt
    else if n == 20 then FillPublishSeq
    else if n == 21 then RenameToName
    else if n < 28 then DeviceColumn(DEVICE_COLUMNS[n - 22].0, DEVICE_COLUMNS[n - 22].1)
    else if n == 28 then RebuildJobs
    else if n == 29 then JobColumn("depends_on", Null)
    else if n == 30 then CreateFindings
    else if n == 31 then WidenVerdicts
    else if n == 32 then WriteHistory
    else if n < 35 then JobColumn(PROVENANCE_COLUMNS[n - 33].0, PROVENANCE_COLUMNS[n - 33].1)
    else if n == 35 then ArtifactColumn("media_type", Null)
    else if n == 36 then WidenStatuses
    else GrantLeases
  }

  function PublishedAtAll(t: Table): Table {
    t.(rows := seq(|t.rows|, i requires 0 <= i < |t.rows| => PublishedAt(t.rows[i])))
  }

  function PublishSeqAll(t: Table): Table {
    t.(rows := seq(|t.rows|, i requires 0 <= i < |t.rows| => PublishSeq(t.rows[i])))
  }

  /** What one step does to the jobs table, if there is one; None is a throw. */
  function TakeJobs<P>(rules: Rules<P>, s: Step, results: seq<Result>, jobs: Checked): Option<Checked> {
    match s
    case JobColumn(c, default) => Some(jobs.(table := AddColumn(jobs.table, c, default)))
    case RebuildJobs => Rebuild(jobs)
    case WidenStatuses => WidenJobs(rules, results, jobs)
    case GrantLeases => Some(jobs.(table := Leases(rules, jobs.table)))
    case _ => Some(jobs)
  }

  function TakeArtifacts(s: Step, t: Table): Table {
    match s
    case ArtifactColumn(c, default) => AddColumn(t, c, default)
    case FillPublishedAt => PublishedAtAll(t)
    case FillPublishSeq => PublishSeqAll(t)
    case _ => t
  }

  function TakeDevices(s: Step, t: Table): Table {
    match s
    case RenameToName => RenameNickname(t)
    case DeviceColumn(c, default) => AddColumn(t, c, default)
    case _ => t
  }

  predicate OnJobs(s: Step) {
    s.JobColumn? || s.RebuildJobs? || s.WidenStatuses? || s.GrantLeases?
  }

  predicate OnArtifacts(s: Step) {
    s.ArtifactColumn? || s.FillPublishedAt? || s.FillPublishSeq?
  }

  predicate OnDevices(s: Step) {
    s.RenameToName? || s.DeviceColumn?
  }

  /** One step on the database; None is a throw, with nothing done. */
  function Take<P>(rules: Rules<P>, s: Step, db: Db): Option<Db> {
    if OnJobs(s) then
      if db.jobs.None? then None
      else
        var jobs := TakeJobs(rules, s, db.results, db.jobs.value);
        if jobs.None? then None else Some(db.(jobs := jobs))
    else if OnArtifacts(s) then
      if db.artifacts.None? then None else Some(db.(artifacts := Some(TakeArtifacts(s, db.artifacts.value))))
    else if OnDevices(s) then
      if db.devices.None? then None else Some(db.(devices := Some(TakeDevices(s, db.devices.value))))
    else if s.CreateDevices? then Some(if db.devices.None? then db.(devices := Some(FRESH_DEVICES)) else db)
    else if s.CreateJobs? then Some(if db.jobs.None? then db.(jobs := Some(FRESH_JOBS)) else db)
    else if s.CreateArtifacts? then Some(if db.artifacts.None? then db.(artifacts := Some(FRESH_ARTIFACTS)) else db)
    else if s.CreateFindings? then Some(db.(findings := Some(FindingsGiven(db))))
    else if db.findings.None? then None
    else if s.WidenVerdicts? then
      var wide := Widen(db.findings.value, "verdict", "fixed");
      if wide.None? then None else Some(db.(findings := wide))
    else Some(db.(verdicts := db.verdicts + HistoryLines(db.verdicts, db.findings.value.table.rows)))
  }

  /** The database after the first k steps, if none of them threw. */
  function Ran<P>(rules: Rules<P>, k: nat, db: Db): Option<Db>
    requires k <= STEPS
  {
    if k == 0 then Some(db)
    else
      var before := Ran(rules, k - 1, db);
      if before.None? then None else Take(rules, StepAt(k - 1), before.value)
  }

  /** From step k to the end, or to the first step that throws. */
  function RunFrom<P>(rules: Rules<P>, k: nat, db: Db): Migrated
    requires k <= STEPS
    decreases STEPS - k
  {
    if k == STEPS then Migrated(db, true)
    else
      var after := Take(rules, StepAt(k), db);
      if after.None? then Migrated(db, false) else RunFrom(rules, k + 1, after.value)
  }

  // ---- a step that is done ---------------------------------------------------

  /** The step's own test finds nothing to do. */
  predicate IsDone(s: Step, db: Db) {
    match s
    case CreateDevices => db.devices.Some?
    case CreateJobs => db.jobs.Some?
    case CreateArtifacts => db.artifacts.Some?
    case JobColumn(c, _) => db.jobs.Some? && c in db.jobs.value.table.columns
    case ArtifactColumn(c, _) => db.artifacts.Some? && c in db.artifacts.value.columns
    case FillPublishedAt => db.artifacts.Some? && AllPublishedAt(db.artifacts.value)
    case FillPublishSeq => db.artifacts.Some? && AllPublishSeq(db.artifacts.value)
    case RenameToName => db.devices.Some? && ("nickname" !in db.devices.value.columns || "name" in db.devices.value.columns)
    case DeviceColumn(c, _) => db.devices.Some? && c in db.devices.value.columns
    case RebuildJobs => db.jobs.Some? && !NeedsRebuild(db.jobs.value)
    case CreateFindings => db.findings.Some?
    case WidenVerdicts => db.findings.Some? && "fixed" in db.findings.value.mentions
    case WriteHistory => db.findings.Some? && FindingsTold(db.findings.value.table.rows, db.verdicts)
    case WidenStatuses => db.jobs.Some? && "skipped" in db.jobs.value.mentions
    case GrantLeases => db.jobs.Some? && AllLeased(db.jobs.value.table)
  }

  predicate AllPublishedAt(t: Table) {
    forall i :: 0 <= i < |t.rows| ==> PublishedAt(t.rows[i]) == t.rows[i]
  }

  predicate AllPublishSeq(t: Table) {
    forall i :: 0 <= i < |t.rows| ==> PublishSeq(t.rows[i]) == t.rows[i]
  }

  predicate FindingsTold(rows: seq<Row>, verdicts: seq<Verdict>) {
    forall i :: 0 <= i < |rows| ==> Get(rows[i], "verdict").Null? || HasHistory(verdicts, Get(rows[i], "id"))
  }

  predicate AllLeased(t: Table) {
    forall i :: 0 <= i < |t.rows| ==> Leased(t.rows[i])
  }

  /** A step that is done changes nothing. */
  lemma DoneIsNoOp<P>(rules: Rules<P>, s: Step, db: Db)
    requires IsDone(s, db)
    ensures Take(rules, s, db) == Some(db)
  {
    hide WidenJobs, Widen, Leases, HistoryLines, PublishedAtAll, PublishSeqAll, PublishedAt, PublishSeq, Leased, Rebuild, NeedsRebuild;
    match s
    case FillPublishedAt => DoneFillsAt(db.artifacts.value);
    case FillPublishSeq => DoneFillsSeq(db.artifacts.value);
    case RebuildJobs => DoneRebuilds(db.jobs.value);
    case WidenVerdicts => DoneWidens(db.findings.value);
    case WriteHistory => HistoryDone(db.verdicts, db.findings.value.table.rows); assert db.verdicts + [] == db.verdicts;
    case WidenStatuses => DoneWidensJobs(rules, db.results, db.jobs.value);
    case GrantLeases => LeasesDone(rules, db.jobs.value.table);
    case _ =>
  }

  lemma DoneFillsAt(t: Table)
    requires AllPublishedAt(t)
    ensures PublishedAtAll(t) == t
  {
    hide PublishedAt;
    assert PublishedAtAll(t).rows == t.rows;
  }

  lemma DoneFillsSeq(t: Table)
    requires AllPublishSeq(t)
    ensures PublishSeqAll(t) == t
  {
    hide PublishSeq;
    assert PublishSeqAll(t).rows == t.rows;
  }

  lemma DoneRebuilds(c: Checked)
    requires !NeedsRebuild(c)
    ensures Rebuild(c) == Some(c)
  {
  }

  lemma DoneWidens(c: Checked)
    requires "fixed" in c.mentions
    ensures Widen(c, "verdict", "fixed") == Some(c)
  {
  }

  lemma DoneWidensJobs<P>(rules: Rules<P>, results: seq<Result>, c: Checked)
    requires "skipped" in c.mentions
    ensures WidenJobs(rules, results, c) == Some(c)
  {
  }

  // ---- a step taken is done --------------------------------------------------

  lemma TakenIsDone<P>(rules: Rules<P>, s: Step, db: Db)
    requires Take(rules, s, db).Some?
    ensures IsDone(s, Take(rules, s, db).value)
  {
    hide WidenJobs, Widen, Leases, HistoryLines, PublishedAtAll, PublishSeqAll, PublishedAt, PublishSeq, Leased, Rebuild, NeedsRebuild,
      AllPublishedAt, AllPublishSeq, FindingsTold, AllLeased, RenameNickname;
    match s
    case FillPublishedAt => FilledAt(db.artifacts.value);
    case FillPublishSeq => FilledSeq(db.artifacts.value);
    case RenameToName => Renamed(db.devices.value);
    case RebuildJobs => Rebuilt(db.jobs.value);
    case WidenVerdicts => WidenMentions(FindingsGiven(db), "verdict", "fixed");
    case WriteHistory => Told(db.findings.value.table.rows, db.verdicts);
    case WidenStatuses => Widened(rules, db.results, db.jobs.value);
    case GrantLeases => Granted(rules, db.jobs.value.table);
    case _ =>
  }

  lemma FilledAt(t: Table)
    ensures AllPublishedAt(PublishedAtAll(t))
  {
    forall i | 0 <= i < |t.rows| ensures PublishedAt(PublishedAt(t.rows[i])) == PublishedAt(t.rows[i]) {
      var r := PublishedAt(t.rows[i]);
      assert Get(r, "created_at") == Get(t.rows[i], "created_at");
      assert PublishedAt(r) == r;
    }
  }

  lemma FilledSeq(t: Table)
    ensures AllPublishSeq(PublishSeqAll(t))
  {
    forall i | 0 <= i < |t.rows| ensures PublishSeq(PublishSeq(t.rows[i])) == PublishSeq(t.rows[i]) {
      var r := PublishSeq(t.rows[i]);
      assert Get(r, "rowid") == Get(t.rows[i], "rowid");
      assert PublishSeq(r) == r;
    }
  }

  lemma Renamed(t: Table)
    ensures var c := RenameNickname(t).columns; "nickname" !in c || "name" in c
  {
    hide RenameCell;
  }

  lemma Rebuilt(c: Checked)
    requires Rebuild(c).Some?
    ensures !NeedsRebuild(Rebuild(c).value)
  {
    assert REBUILT_STATUSES[5] == "cancelled" && REBUILT_STATUSES[0] == "waiting";
  }

  lemma Told(rows: seq<Row>, verdicts: seq<Verdict>)
    ensures FindingsTold(rows, verdicts + HistoryLines(verdicts, rows))
  {
    hide HistoryLines, HasHistory;
    forall i | 0 <= i < |rows| && !Get(rows[i], "verdict").Null?
      ensures HasHistory(verdicts + HistoryLines(verdicts, rows), Get(rows[i], "id"))
    {
      HistoryCovers(verdicts, rows, i);
    }
  }

  lemma Widened<P>(rules: Rules<P>, results: seq<Result>, c: Checked)
    requires WidenJobs(rules, results, c).Some?
    ensures "skipped" in WidenJobs(rules, results, c).value.mentions
  {
    hide Backfill;
  }

  lemma Granted<P>(rules: Rules<P>, t: Table)
    ensures AllLeased(Leases(rules, t))
  {
    hide Lease, Leased;
    forall i | 0 <= i < |t.rows| ensures Leased(Leases(rules, t).rows[i]) { LeaseLeases(rules, t.rows[i]); }
  }

  // ---- a later step keeps it done --------------------------------------------

  /** What t may not be for s to stay done; the order of the steps sees to it. */
  predicate Keeps(s: Step, t: Step) {
    (s.JobColumn? && t.RebuildJobs? ==> s.column in JOB_COLUMNS) &&
    (s.DeviceColumn? ==> !t.RenameToName?) && (s.RenameToName? && t.DeviceColumn? ==> t.column != "nickname") &&
    ((s.FillPublishedAt? || s.FillPublishSeq?) && t.ArtifactColumn? ==> t.column == "media_type") &&
    !s.GrantLeases? && (s.WidenStatuses? ==> !t.RebuildJobs?)
  }

  lemma OrderKeeps(i: nat, j: nat)
    requires i < j < STEPS
    ensures Keeps(StepAt(i), StepAt(j))
  {
    if j == 28 && 3 <= i < 11 { assert Names(LEASE_COLUMNS)[i - 3] == LEASE_COLUMNS[i - 3].0; }
  }

  lemma StaysDone<P>(rules: Rules<P>, s: Step, t: Step, db: Db)
    requires IsDone(s, db) && Keeps(s, t) && Take(rules, t, db).Some?
    ensures IsDone(s, Take(rules, t, db).value)
  {
    hide WidenJobs, Widen, Leases, HistoryLines, PublishedAtAll, PublishSeqAll, PublishedAt, PublishSeq, Leased, Rebuild, NeedsRebuild,
      AllPublishedAt, AllPublishSeq, FindingsTold, AllLeased, RenameNickname, AddColumn, TakeJobs, TakeArtifacts, TakeDevices;
    if OnJobs(t) && db.jobs.Some? {
      JobsStayDone(rules, s, t, db.results, db.jobs.value);
    } else if OnArtifacts(t) && db.artifacts.Some? {
      ArtifactsStayDone(s, t, db.artifacts.value);
    } else if OnDevices(t) && db.devices.Some? {
      DevicesStayDone(s, t, db.devices.value);
    } else if t.WidenVerdicts? {
      VerdictsWiden(FindingsGiven(db));
    } else if t.WriteHistory? && db.findings.Some? {
      StillTold(db.findings.value.table.rows, db.verdicts, HistoryLines(db.verdicts, db.findings.value.table.rows));
    }
  }

  lemma JobsStayDone<P>(rules: Rules<P>, s: Step, t: Step, results: seq<Result>, jobs: Checked)
    requires OnJobs(t) && Keeps(s, t) && TakeJobs(rules, t, results, jobs).Some?
    ensures var after := TakeJobs(rules, t, results, jobs).value;
      (s.JobColumn? && s.column in jobs.table.columns ==> s.column in after.table.columns) &&
      (!NeedsRebuild(jobs) ==> !NeedsRebuild(after)) &&
      (s.WidenStatuses? && "skipped" in jobs.mentions ==> "skipped" in after.mentions)
  {
    hide Relabel, Lease, AllAdmitted;
    if t.RebuildJobs? { Rebuilt(jobs); }
  }

  lemma ArtifactsStayDone(s: Step, t: Step, a: Table)
    requires OnArtifacts(t) && Keeps(s, t)
    ensures var after := TakeArtifacts(t, a);
      (s.ArtifactColumn? && s.column in a.columns ==> s.column in after.columns) &&
      (s.FillPublishedAt? && AllPublishedAt(a) ==> AllPublishedAt(after)) &&
      (s.FillPublishSeq? && AllPublishSeq(a) ==> AllPublishSeq(after))
  {
    hide PublishedAt, PublishSeq;
    forall i | 0 <= i < |a.rows| {
      FillsApart(a.rows[i], if t.ArtifactColumn? then t.default else Null);
    }
  }

  /** Neither fill touches what the other tests, and media_type is nothing to either. */
  lemma FillsApart(r: Row, v: Cell)
    ensures PublishedAt(r) == r ==> PublishedAt(PublishSeq(r)) == PublishSeq(r)
    ensures PublishedAt(r) == r ==> PublishedAt(r["media_type" := v]) == r["media_type" := v]
    ensures PublishSeq(r) == r ==> PublishSeq(PublishedAt(r)) == PublishedAt(r)
    ensures PublishSeq(r) == r ==> PublishSeq(r["media_type" := v]) == r["media_type" := v]
    ensures PublishedAt(PublishedAt(r)) == PublishedAt(r) && PublishSeq(PublishSeq(r)) == PublishSeq(r)
  {
  }

  lemma DevicesStayDone(s: Step, t: Step, d: Table)
    requires OnDevices(t) && Keeps(s, t)
    ensures var after := TakeDevices(t, d);
      (s.DeviceColumn? && s.column in d.columns ==> s.column in after.columns) &&
      (s.RenameToName? && ("nickname" !in d.columns || "name" in d.columns) ==>
        "nickname" !in after.columns || "name" in after.columns)
  {
  }

  lemma VerdictsWiden(c: Checked)
    ensures var wide := Widen(c, "verdict", "fixed"); wide.Some? ==> wide.value.table == c.table && "fixed" in wide.value.mentions
  {
  }

  lemma StillTold(rows: seq<Row>, verdicts: seq<Verdict>, more: seq<Verdict>)
    ensures FindingsTold(rows, verdicts) ==> FindingsTold(rows, verdicts + more)
  {
    forall i | FindingsTold(rows, verdicts) && 0 <= i < |rows| && !Get(rows[i], "verdict").Null?
      ensures HasHistory(verdicts + more, Get(rows[i], "id"))
    {
      var j :| 0 <= j < |verdicts| && verdicts[j].findingId == Get(rows[i], "id");
      assert (verdicts + more)[j].findingId == Get(rows[i], "id");
    }
  }

  // ---- prefixes --------------------------------------------------------------

  /** After k steps the first k have nothing left to do. */
  lemma {:induction false} RanIsDone<P>(rules: Rules<P>, k: nat, db: Db)
    requires k <= STEPS && Ran(rules, k, db).Some?
    ensures forall i :: 0 <= i < k ==> IsDone(StepAt(i), Ran(rules, k, db).value)
  {
    hide Take, IsDone, StepAt, Keeps;
    if k > 0 {
      var before := Ran(rules, k - 1, db).value;
      RanIsDone(rules, k - 1, db);
      TakenIsDone(rules, StepAt(k - 1), before);
      forall i | 0 <= i < k - 1 ensures IsDone(StepAt(i), Ran(rules, k, db).value) {
        OrderKeeps(i, k - 1);
        StaysDone(rules, StepAt(i), StepAt(k - 1), before);
      }
    }
  }

  lemma {:induction false} DoneIsSkipped<P>(rules: Rules<P>, k: nat, db: Db)
    requires k <= STEPS && forall i :: 0 <= i < k ==> IsDone(StepAt(i), db)
    ensures RunFrom(rules, 0, db) == RunFrom(rules, k, db)
  {
    hide Take, IsDone, StepAt;
    if k > 0 {
      DoneIsSkipped(rules, k - 1, db);
      DoneIsNoOp(rules, StepAt(k - 1), db);
    }
  }

  lemma {:induction false} RunIsPrefixAndRest<P>(rules: Rules<P>, k: nat, db: Db)
    requires k <= STEPS && Ran(rules, k, db).Some?
    ensures RunFrom(rules, 0, db) == RunFrom(rules, k, Ran(rules, k, db).value)
  {
    hide Take, StepAt;
    if k > 0 { RunIsPrefixAndRest(rules, k - 1, db); }
  }

  /** Only the last step asks the clock. */
  lemma {:induction false} ClockIsForTheLast<P>(rules: Rules<P>, later: Rules<P>, k: nat, db: Db)
    requires k < STEPS && later == rules.(deadline := later.deadline)
    ensures Ran(rules, k, db) == Ran(later, k, db)
  {
    hide StepAt, Take;
    if k > 0 {
      ClockIsForTheLast(rules, later, k - 1, db);
      var before := Ran(rules, k - 1, db);
      LastGrants(k - 1);
      if before.Some? { SameWithoutLeases(rules, later, StepAt(k - 1), before.value); }
    }
  }

  lemma LastGrants(k: nat)
    requires k < STEPS
    ensures StepAt(k).GrantLeases? <==> k == STEPS - 1
  {
  }

  lemma SameWithoutLeases<P>(rules: Rules<P>, later: Rules<P>, s: Step, db: Db)
    requires later == rules.(deadline := later.deadline) && !s.GrantLeases?
    ensures Take(rules, s, db) == Take(later, s, db)
  {
    if s.WidenStatuses? && db.jobs.Some? { SameBackfill(rules, later, db.results, db.jobs.value); }
  }

  lemma SameBackfill<P>(rules: Rules<P>, later: Rules<P>, results: seq<Result>, c: Checked)
    requires later == rules.(deadline := later.deadline)
    ensures WidenJobs(rules, results, c) == WidenJobs(later, results, c)
  {
    hide Relabel;
    forall r ensures Relabel(rules, results, r) == Relabel(later, results, r) { SameRelabel(rules, later, results, r); }
    assert Backfill(rules, results, c.table).rows == Backfill(later, results, c.table).rows;
  }

  lemma SameRelabel<P>(rules: Rules<P>, later: Rules<P>, results: seq<Result>, r: Row)
    requires later == rules.(deadline := later.deadline)
    ensures Relabel(rules, results, r) == Relabel(later, results, r)
  {
    hide RowsOf, LastFinal;
    if Get(r, "job_id").Str? {
      var id := Get(r, "job_id").text;
      SameRows(rules, later, results, id);
      SameLast(rules, later, RowsOf(rules, results, id));
    }
  }

  lemma {:induction false} SameRows<P>(rules: Rules<P>, later: Rules<P>, results: seq<Result>, id: string)
    requires later == rules.(deadline := later.deadline)
    ensures RowsOf(rules, results, id) == RowsOf(later, results, id)
  {
    if results != [] { SameRows(rules, later, results[1..], id); }
  }

  lemma {:induction false} SameLast<P>(rules: Rules<P>, later: Rules<P>, rows: seq<(string, P)>)
    requires later == rules.(deadline := later.deadline)
    ensures LastFinal(rules, rows) == LastFinal(later, rows)
  {
    if rows != [] { SameLast(rules, later, rows[..|rows| - 1]); }
  }

  // ---- the steps are migrate -------------------------------------------------

  /** One step that does not throw. */
  lemma OneStep<P>(rules: Rules<P>, k: nat, s: Step, db: Db, after: Db)
    requires k < STEPS && StepAt(k) == s && Take(rules, s, db) == Some(after)
    ensures RunFrom(rules, k, db) == RunFrom(rules, k + 1, after)
  {
    hide Take, StepAt;
  }

  lemma OneThrow<P>(rules: Rules<P>, k: nat, s: Step, db: Db)
    requires k < STEPS && StepAt(k) == s && Take(rules, s, db).None?
    ensures RunFrom(rules, k, db) == Migrated(db, false)
  {
    hide Take, StepAt;
  }

  lemma {:induction false} JobSegment<P>(rules: Rules<P>, from: nat, added: seq<(string, Cell)>, db: Db)
    requires from + |added| <= STEPS && db.jobs.Some?
    requires forall i :: 0 <= i < |added| ==> StepAt(from + i) == JobColumn(added[i].0, added[i].1)
    ensures RunFrom(rules, from, db) ==
      RunFrom(rules, from + |added|, db.(jobs := Some(db.jobs.value.(table := AddColumns(db.jobs.value.table, added)))))
    decreases |added|
  {
    hide StepAt, RunFrom, AddColumn;
    if added != [] {
      var t := AddColumn(db.jobs.value.table, added[0].0, added[0].1);
      assert StepAt(from + 0) == JobColumn(added[0].0, added[0].1);
      forall i | 0 <= i < |added[1..]| ensures StepAt(from + 1 + i) == JobColumn(added[1..][i].0, added[1..][i].1) {
        assert StepAt(from + (i + 1)) == JobColumn(added[i + 1].0, added[i + 1].1);
      }
      OneStep(rules, from, JobColumn(added[0].0, added[0].1), db, db.(jobs := Some(db.jobs.value.(table := t))));
      JobSegment(rules, from + 1, added[1..], db.(jobs := Some(db.jobs.value.(table := t))));
    }
  }

  lemma {:induction false} ArtifactSegment<P>(rules: Rules<P>, from: nat, added: seq<(string, Cell)>, db: Db)
    requires from + |added| <= STEPS && db.artifacts.Some?
    requires forall i :: 0 <= i < |added| ==> StepAt(from + i) == ArtifactColumn(added[i].0, added[i].1)
    ensures RunFrom(rules, from, db) ==
      RunFrom(rules, from + |added|, db.(artifacts := Some(AddColumns(db.artifacts.value, added))))
    decreases |added|
  {
    hide StepAt, RunFrom, AddColumn;
    if added != [] {
      var t := AddColumn(db.artifacts.value, added[0].0, added[0].1);
      assert StepAt(from + 0) == ArtifactColumn(added[0].0, added[0].1);
      forall i | 0 <= i < |added[1..]| ensures StepAt(from + 1 + i) == ArtifactColumn(added[1..][i].0, added[1..][i].1) {
        assert StepAt(from + (i + 1)) == ArtifactColumn(added[i + 1].0, added[i + 1].1);
      }
      OneStep(rules, from, ArtifactColumn(added[0].0, added[0].1), db, db.(artifacts := Some(t)));
      ArtifactSegment(rules, from + 1, added[1..], db.(artifacts := Some(t)));
    }
  }

  lemma {:induction false} DeviceSegment<P>(rules: Rules<P>, from: nat, added: seq<(string, Cell)>, db: Db)
    requires from + |added| <= STEPS && db.devices.Some?
    requires forall i :: 0 <= i < |added| ==> StepAt(from + i) == DeviceColumn(added[i].0, added[i].1)
    ensures RunFrom(rules, from, db) ==
      RunFrom(rules, from + |added|, db.(devices := Some(AddColumns(db.devices.value, added))))
    decreases |added|
  {
    hide StepAt, RunFrom, AddColumn;
    if added != [] {
      var t := AddColumn(db.devices.value, added[0].0, added[0].1);
      assert StepAt(from + 0) == DeviceColumn(added[0].0, added[0].1);
      forall i | 0 <= i < |added[1..]| ensures StepAt(from + 1 + i) == DeviceColumn(added[1..][i].0, added[1..][i].1) {
        assert StepAt(from + (i + 1)) == DeviceColumn(added[i + 1].0, added[i + 1].1);
      }
      OneStep(rules, from, DeviceColumn(added[0].0, added[0].1), db, db.(devices := Some(t)));
      DeviceSegment(rules, from + 1, added[1..], db.(devices := Some(t)));
    }
  }

  lemma FillIsTwoSteps(t: Table)
    ensures PublishSeqAll(PublishedAtAll(t)) == FillPublished(t)
  {
    hide PublishSeq, PublishedAt;
    assert PublishSeqAll(PublishedAtAll(t)).rows == FillPublished(t).rows;
  }

  /** The three tables of the first statement, one after another. */
  lemma StepsToTables<P>(rules: Rules<P>, db: Db)
    ensures RunFrom(rules, 0, db) == RunFrom(rules, 3, CreateTables(db))
  {
    hide RunFrom;
    var d1 := if db.devices.None? then db.(devices := Some(FRESH_DEVICES)) else db;
    var d2 := if d1.jobs.None? then d1.(jobs := Some(FRESH_JOBS)) else d1;
    OneStep(rules, 0, CreateDevices, db, d1);
    OneStep(rules, 1, CreateJobs, d1, d2);
    OneStep(rules, 2, CreateArtifacts, d2, CreateTables(db));
  }

  lemma StepsToFilled<P>(rules: Rules<P>, db: Db)
    requires db.artifacts.Some? && db.devices.Some?
    ensures RunFrom(rules, 19, db) ==
      RunFrom(rules, 22, db.(artifacts := Some(FillPublished(db.artifacts.value)), devices := Some(RenameNickname(db.devices.value))))
  {
    hide RunFrom, PublishSeqAll, PublishedAtAll, FillPublished, RenameNickname;
    var a := PublishedAtAll(db.artifacts.value);
    var d1 := db.(artifacts := Some(a));
    var d2 := db.(artifacts := Some(PublishSeqAll(a)));
    FillIsTwoSteps(db.artifacts.value);
    OneStep(rules, 19, FillPublishedAt, db, d1);
    OneStep(rules, 20, FillPublishSeq, d1, d2);
    OneStep(rules, 21, RenameToName, d2, d2.(devices := Some(RenameNickname(db.devices.value))));
  }

  lemma ColumnSegments()
    ensures forall i :: 0 <= i < |LEASE_COLUMNS| ==> StepAt(3 + i) == JobColumn(LEASE_COLUMNS[i].0, LEASE_COLUMNS[i].1)
    ensures forall i :: 0 <= i < |ARTIFACT_COLUMNS| ==> StepAt(11 + i) == ArtifactColumn(ARTIFACT_COLUMNS[i].0, ARTIFACT_COLUMNS[i].1)
    ensures forall i :: 0 <= i < |DEVICE_COLUMNS| ==> StepAt(22 + i) == DeviceColumn(DEVICE_COLUMNS[i].0, DEVICE_COLUMNS[i].1)
    ensures forall i :: 0 <= i < |PROVENANCE_COLUMNS| ==> StepAt(33 + i) == JobColumn(PROVENANCE_COLUMNS[i].0, PROVENANCE_COLUMNS[i].1)
  {
  }

  lemma StepsToColumns<P>(rules: Rules<P>, db: Db)
    ensures RunFrom(rules, 0, db) == RunFrom(rules, 28, Columns(db))
  {
    hide AddColumns, FillPublished, RenameNickname, RunFrom, CreateTables, StepAt;
    StepsToTables(rules, db);
    ColumnSegments();
    TablesAreThere(db);
    var d2 := CreateTables(db);
    JobSegment(rules, 3, LEASE_COLUMNS, d2);
    var d3 := d2.(jobs := Some(d2.jobs.value.(table := AddColumns(d2.jobs.value.table, LEASE_COLUMNS))));
    ArtifactSegment(rules, 11, ARTIFACT_COLUMNS, d3);
    var a := AddColumns(d3.artifacts.value, ARTIFACT_COLUMNS);
    var d4 := d3.(artifacts := Some(a));
    StepsToFilled(rules, d4);
    var d5 := d4.(artifacts := Some(FillPublished(a)), devices := Some(RenameNickname(d4.devices.value)));
    DeviceSegment(rules, 22, DEVICE_COLUMNS, d5);
  }

  lemma TablesAreThere(db: Db)
    ensures CreateTables(db).jobs.Some? && CreateTables(db).artifacts.Some? && CreateTables(db).devices.Some?
  {
  }

  lemma StepsToProvenance<P>(rules: Rules<P>, db: Db)
    requires db.jobs.Some? && db.findings.Some? && db.artifacts.Some?
    ensures RunFrom(rules, 32, db) == RunFrom(rules, 36, Provenance(db))
  {
    hide AddColumns, AddColumn, HistoryLines, RunFrom;
    ColumnSegments();
    var d1 := db.(verdicts := db.verdicts + HistoryLines(db.verdicts, db.findings.value.table.rows));
    OneStep(rules, 32, WriteHistory, db, d1);
    JobSegment(rules, 33, PROVENANCE_COLUMNS, d1);
    var d2 := d1.(jobs := Some(d1.jobs.value.(table := AddColumns(d1.jobs.value.table, PROVENANCE_COLUMNS))));
    OneStep(rules, 35, ArtifactColumn("media_type", Null), d2, Provenance(db));
  }

  lemma AfterTheLast<P>(rules: Rules<P>, db: Db)
    ensures RunFrom(rules, STEPS, db) == Migrated(db, true)
  {
  }

  lemma StepsToFinish<P>(rules: Rules<P>, db: Db)
    requires db.jobs.Some? && db.findings.Some? && db.artifacts.Some?
    ensures RunFrom(rules, 32, db) == Finish(rules, db)
  {
    hide Provenance, WidenJobs, Leases, RunFrom;
    StepsToProvenance(rules, db);
    var d := Provenance(db);
    var wide := WidenJobs(rules, d.results, d.jobs.value);
    if wide.None? {
      OneThrow(rules, 36, WidenStatuses, d);
    } else {
      var d1 := d.(jobs := wide);
      OneStep(rules, 36, WidenStatuses, d, d1);
      var d2 := d1.(jobs := Some(wide.value.(table := Leases(rules, wide.value.table))));
      OneStep(rules, 37, GrantLeases, d1, d2);
      AfterTheLast(rules, d2);
    }
  }

  lemma StepsToFindings<P>(rules: Rules<P>, db: Db)
    requires db.jobs.Some?
    ensures RunFrom(rules, 29, db) == RunFrom(rules, 31, Findings(db))
  {
    hide AddColumn, RunFrom;
    var d := db.(jobs := Some(db.jobs.value.(table := AddColumn(db.jobs.value.table, "depends_on", Null))));
    OneStep(rules, 29, JobColumn("depends_on", Null), db, d);
    OneStep(rules, 30, CreateFindings, d, Findings(db));
  }

  /** Run one after another, the steps are migrate. */
  lemma StepsAreMigrate<P>(rules: Rules<P>, db: Db)
    ensures RunFrom(rules, 0, db) == Migrate(rules, db)
  {
    hide AddColumns, AddColumn, Rebuild, Columns, Finish, Widen, RunFrom;
    StepsToColumns(rules, db);
    var d := Columns(db);
    var rebuilt := Rebuild(d.jobs.value);
    if rebuilt.None? {
      OneThrow(rules, 28, RebuildJobs, d);
    } else {
      OneStep(rules, 28, RebuildJobs, d, d.(jobs := rebuilt));
      StepsToFindings(rules, d.(jobs := rebuilt));
      FromVerdicts(rules, Findings(d.(jobs := rebuilt)));
    }
  }

  lemma FromVerdicts<P>(rules: Rules<P>, db: Db)
    requires db.jobs.Some? && db.findings.Some? && db.artifacts.Some?
    ensures var wide := Widen(db.findings.value, "verdict", "fixed");
      RunFrom(rules, 31, db) == if wide.None? then Migrated(db, false) else Finish(rules, db.(findings := wide))
  {
    hide Finish, Widen, RunFrom;
    var wide := Widen(db.findings.value, "verdict", "fixed");
    if wide.None? {
      OneThrow(rules, 31, WidenVerdicts, db);
    } else {
      OneStep(rules, 31, WidenVerdicts, db, db.(findings := wide));
      StepsToFinish(rules, db.(findings := wide));
    }
  }

  /**
   * migrate can be killed between any two of its steps, at any database: the
   * next migrate, at whatever time, ends as it would have ended on the database
   * the first one was given, whether that is migrated or at the same throw.
   */
  lemma KilledMigrateIsCompleted<P>(rules: Rules<P>, later: Rules<P>, k: nat, db: Db)
    requires k < STEPS && later == rules.(deadline := later.deadline) && Ran(rules, k, db).Some?
    ensures Migrate(later, Ran(rules, k, db).value) == Migrate(later, db)
  {
    hide Migrate, IsDone, Take, StepAt;
    ClockIsForTheLast(rules, later, k, db);
    var half := Ran(rules, k, db).value;
    RanIsDone(rules, k, db);
    DoneIsSkipped(later, k, half);
    RunIsPrefixAndRest(later, k, db);
    StepsAreMigrate(later, half);
    StepsAreMigrate(later, db);
  }

  /** Where the run from step k stops with an error, the steps before it ran. */
  lemma {:induction false} ThrowsAt<P>(rules: Rules<P>, k: nat, db: Db) returns (at: nat)
    requires k < STEPS && Ran(rules, k, db).Some? && !RunFrom(rules, k, Ran(rules, k, db).value).ok
    ensures k <= at < STEPS && Ran(rules, at, db) == Some(RunFrom(rules, k, Ran(rules, k, db).value).db)
    ensures Take(rules, StepAt(at), Ran(rules, at, db).value).None?
    decreases STEPS - k
  {
    hide Take, StepAt;
    if Take(rules, StepAt(k), Ran(rules, k, db).value).None? { at := k; } else { at := ThrowsAt(rules, k + 1, db); }
  }

  lemma LastNeverThrows<P>(rules: Rules<P>, db: Db)
    requires Ran(rules, STEPS - 1, db).Some?
    ensures Take(rules, StepAt(STEPS - 1), Ran(rules, STEPS - 1, db).value).Some?
  {
    hide Ran, Leases;
    RanIsDone(rules, STEPS - 1, db);
    assert IsDone(StepAt(1), Ran(rules, STEPS - 1, db).value);
  }

  /** A migrate that throws leaves a database on which the next one throws at the same place, with nothing further done. */
  lemma ThrowingMigrateThrowsAgain<P>(rules: Rules<P>, later: Rules<P>, db: Db)
    requires later == rules.(deadline := later.deadline) && !Migrate(rules, db).ok
    ensures Migrate(later, Migrate(rules, db).db) == Migrate(later, db) == Migrate(rules, db)
  {
    hide Migrate, IsDone, Take, StepAt;
    StepsAreMigrate(rules, db);
    var at := ThrowsAt(rules, 0, db);
    KilledMigrateIsCompleted(rules, later, at, db);
    var half := Ran(rules, at, db).value;
    ClockIsForTheLast(rules, later, at, db);
    RunIsPrefixAndRest(later, at, db);
    StepsAreMigrate(later, db);
    LastGrants(at);
    if at == STEPS - 1 { LastNeverThrows(rules, db); }
    SameWithoutLeases(rules, later, StepAt(at), half);
  }

  // ---- any number of attempts ------------------------------------------------

  /** What a migrate leaves that is killed after k steps, unless it throws before that. */
  function LeftBy<P>(rules: Rules<P>, k: nat, db: Db): Db
    requires k < STEPS
  {
    if Ran(rules, k, db).Some? then Ran(rules, k, db).value else Migrate(rules, db).db
  }

  lemma {:induction false} ThrownIsThrown<P>(rules: Rules<P>, k: nat, db: Db)
    requires k <= STEPS && Ran(rules, k, db).None?
    ensures !RunFrom(rules, 0, db).ok
  {
    hide Take, StepAt;
    if Ran(rules, k - 1, db).None? {
      ThrownIsThrown(rules, k - 1, db);
    } else {
      RunIsPrefixAndRest(rules, k - 1, db);
    }
  }

  /** Attempts one after another, each at its own time and killed after its own number of steps. */
  function AfterAttempts<P>(attempts: seq<(Rules<P>, nat)>, db: Db): Db
    requires forall i :: 0 <= i < |attempts| ==> attempts[i].1 < STEPS
  {
    if attempts == [] then db
    else
      var last := attempts[|attempts| - 1];
      LeftBy(last.0, last.1, AfterAttempts(attempts[..|attempts| - 1], db))
  }

  /** However often migrate is killed or throws, the next one ends as one on the first database would have. */
  lemma {:induction false} AttemptsAreCompleted<P>(attempts: seq<(Rules<P>, nat)>, later: Rules<P>, db: Db)
    requires forall i :: 0 <= i < |attempts| ==>
      attempts[i].1 < STEPS && later == attempts[i].0.(deadline := later.deadline)
    ensures Migrate(later, AfterAttempts(attempts, db)) == Migrate(later, db)
  {
    hide Migrate, Ran;
    if attempts != [] {
      var front, last := attempts[..|attempts| - 1], attempts[|attempts| - 1];
      AttemptsAreCompleted(front, later, db);
      var before := AfterAttempts(front, db);
      if Ran(last.0, last.1, before).Some? {
        KilledMigrateIsCompleted(last.0, later, last.1, before);
      } else {
        ThrownIsThrown(last.0, last.1, before);
        StepsAreMigrate(last.0, before);
        ThrowingMigrateThrowsAgain(last.0, later, before);
      }
    }
  }
}
