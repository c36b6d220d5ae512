// Migration: migrate() of collector/src/db.ts over tables as values: what each
// conditional step does to the columns, the CHECK lists and the rows.

module Migration {
  import opened Text

  // ---- tables ----------------------------------------------------------------

  datatype Cell = Null | Str(text: string) | Num(n: int)

  /** A row: its cells by column, and its rowid under the name "rowid". */
  type Row = map<string, Cell>

  function Get(r: Row, c: string): Cell {
    if c in r then r[c] else Null
  }

  datatype Table = Table(columns: seq<string>, rows: seq<Row>)

  /**
   * A table with a CHECK (... IN (...)) clause: the words the clause admits,
   * None if the DDL has no clause of the shape the migration knows, and the
   * words that stand quoted anywhere in the DDL, comments included.
   */
  datatype Checked = Checked(table: Table, allowed: Option<seq<string>>, mentions: set<string>)

  /** ALTER TABLE ADD COLUMN, unless table_info lists it already. */
  function AddColumn(t: Table, c: string, default: Cell): Table {
    if c in t.columns then t
    else Table(t.columns + [c], seq(|t.rows|, i requires 0 <= i < |t.rows| => t.rows[i][c := default]))
  }

  function AddColumns(t: Table, added: seq<(string, Cell)>): Table
    decreases |added|
  {
    if added == [] then t else AddColumns(AddColumn(t, added[0].0, added[0].1), added[1..])
  }

  /** Does the CHECK let this cell in?  NULL passes a CHECK, as it does in SQL. */
  predicate Admits(allowed: seq<string>, v: Cell) {
    v.Null? || (v.Str? && v.text in allowed)
  }

  predicate AllAdmitted(t: Table, column: string, allowed: seq<string>) {
    forall i :: 0 <= i < |t.rows| ==> Admits(allowed, Get(t.rows[i], column))
  }

  // ---- the schema ------------------------------------------------------------

  const BASE_COLUMNS: seq<string> := [
    "job_id", "executor", "workload", "spec", "status", "created_at", "claimed_by", "claimed_at", "finished_at"]

  const LEASE_COLUMNS: seq<(string, Cell)> := [
    ("lease_ttl_s", Num(600)), ("max_attempts", Num(3)), ("attempts", Num(0)), ("lease_deadline", Null),
    ("last_error", Null), ("priority", Num(0)), ("parent_job_id", Null), ("template_id", Null)]

  /** The fixed list the first rebuild copies. */
  const JOB_COLUMNS: seq<string> := BASE_COLUMNS + Names(LEASE_COLUMNS)

  function Names(added: seq<(string, Cell)>): seq<string> {
    seq(|added|, i requires 0 <= i < |added| => added[i].0)
  }

  const ARTIFACT_COLUMNS: seq<(string, Cell)> := [
    ("app", Null), ("build", Null), ("platform", Null), ("published_at", Null), ("publish_seq", Null),
    ("channel", Null), ("pinned", Num(0)), ("pin_reason", Null)]

  const DEVICE_COLUMNS: seq<(string, Cell)> := [
    ("pools_override", Null), ("name", Null), ("notes", Null), ("capabilities", Null), ("last_net", Null), ("ttl_s", Null)]

  const PROVENANCE_COLUMNS: seq<(string, Cell)> := [("requested_by", Null), ("source", Null)]

  /** The statuses the first rebuild writes, and all of them. */
  const REBUILT_STATUSES: seq<string> := ["waiting", "queued", "claimed", "done", "failed", "cancelled"]

  const STATUSES: seq<string> := REBUILT_STATUSES + ["skipped"]

  const FINDING_VERDICTS: seq<string> := ["real", "duplicate", "not_a_bug", "agent_mistake", "fixed"]

  const FRESH_FINDINGS: seq<string> := [
    "id", "fingerprint", "app", "build", "platform", "device_id", "job_id", "last_job_id", "mission_id",
    "check_name", "subclass", "severity", "title", "detail", "screen", "screen_name", "steps", "replay",
    "artifacts", "first_seen", "last_seen", "seen_count", "builds_seen", "verdict", "verdict_note",
    "verdict_at", "duplicate_of", "issue", "issue_state", "issue_at"]

  function Words(s: seq<string>): set<string> {
    set w | w in s
  }

  const FRESH_JOBS := Checked(Table(JOB_COLUMNS + ["depends_on"], []), Some(STATUSES), Words(STATUSES))
  const FRESH_ARTIFACTS := Table(["sha256", "name", "size", "created_at"], [])
  const FRESH_DEVICES := Table(
    ["device_id", "descriptor", "pools", "last_seen", "last_beacon", "pools_override", "capabilities", "last_net", "name", "notes"], [])

  /** One result row, in the order (iter, rowid) the backfill reads them in. */
  datatype Result = Result(jobId: string, deviceId: string, payload: string)

  /** One line of a finding's verdict history. */
  datatype Verdict = Verdict(findingId: Cell, at: Cell, event: string, verdict: Cell, note: Cell)

  datatype Db = Db(
    jobs: Option<Checked>, artifacts: Option<Table>, devices: Option<Table>, findings: Option<Checked>,
    verdicts: seq<Verdict>, results: seq<Result>)

  /** The rules the code takes from elsewhere: JSON, closingStatus, and the clock. */
  datatype Rules<!P> = Rules(
    parse: string -> P,
    isFinal: P -> bool,
    mentionsSkip: string -> bool,
    skipReason: (seq<(string, P)>, P) -> Option<string>,
    deadline: Cell -> string)

  // ---- steps that cannot fail ------------------------------------------------

  function CreateTables(db: Db): Db {
    db.(jobs := Some(if db.jobs.Some? then db.jobs.value else FRESH_JOBS),
        artifacts := Some(if db.artifacts.Some? then db.artifacts.value else FRESH_ARTIFACTS),
        devices := Some(if db.devices.Some? then db.devices.value else FRESH_DEVICES))
  }

  function PublishedAt(r: Row): Row {
    if Get(r, "published_at").Null? then r["published_at" := Get(r, "created_at")] else r
  }

  function PublishSeq(r: Row): Row {
    if Get(r, "publish_seq").Null? then r["publish_seq" := Get(r, "rowid")] else r
  }

  function FillPublished(t: Table): Table {
    t.(rows := seq(|t.rows|, i requires 0 <= i < |t.rows| => PublishSeq(PublishedAt(t.rows[i]))))
  }

  function RenameCell(r: Row): Row {
    (r - {"nickname"})["name" := Get(r, "nickname")]
  }

  function RenameColumn(columns: seq<string>): seq<string> {
    seq(|columns|, i requires 0 <= i < |columns| => if columns[i] == "nickname" then "name" else columns[i])
  }

  /** nickname becomes name, in place, if that has not happened. */
  function RenameNickname(t: Table): Table {
    if "nickname" in t.columns && "name" !in t.columns
    then Table(RenameColumn(t.columns), seq(|t.rows|, i requires 0 <= i < |t.rows| => RenameCell(t.rows[i])))
    else t
  }

  // ---- the two rebuilds ------------------------------------------------------

  predicate NeedsRebuild(c: Checked) {
    "cancelled" !in c.mentions || "waiting" !in c.mentions
  }

  function Project(r: Row): Row {
    map c | c in r && (c in JOB_COLUMNS || c == "rowid") :: r[c]
  }

  /** The fixed-column rebuild; None is a constraint error, with the table as it was. */
  function Rebuild(c: Checked): Option<Checked> {
    if !NeedsRebuild(c) then Some(c)
    else if !(forall x :: x in JOB_COLUMNS ==> x in c.table.columns) then None
    else if !AllAdmitted(c.table, "status", REBUILT_STATUSES) then None
    else
      var rows := c.table.rows;
      Some(Checked(Table(JOB_COLUMNS, seq(|rows|, i requires 0 <= i < |rows| => Project(rows[i]))),
                   Some(REBUILT_STATUSES), Words(REBUILT_STATUSES)))
  }

  /** Widen a CHECK by one word, copying every column by name; None is the migration's own error. */
  function Widen(c: Checked, column: string, word: string): Option<Checked> {
    if word in c.mentions then Some(c)
    else if c.allowed.None? || !AllAdmitted(c.table, column, c.allowed.value + [word]) then None
    else Some(Checked(c.table, Some(c.allowed.value + [word]), c.mentions + {word}))
  }

  // ---- the backfill ----------------------------------------------------------

  function RowsOf<P>(rules: Rules<P>, results: seq<Result>, jobId: string): seq<(string, P)> {
    if results == [] then []
    else
      (if results[0].jobId == jobId then [(results[0].deviceId, rules.parse(results[0].payload))] else [])
      + RowsOf(rules, results[1..], jobId)
  }

  /** The newest final payload, searching from the end. */
  function LastFinal<P>(rules: Rules<P>, rows: seq<(string, P)>): Option<P> {
    if rows == [] then None
    else
      var last := rows[|rows| - 1].1;
      if rules.isFinal(last) then Some(last) else LastFinal(rules, rows[..|rows| - 1])
  }

  predicate HasSkipRow<P>(rules: Rules<P>, results: seq<Result>, jobId: string) {
    exists i :: 0 <= i < |results| && results[i].jobId == jobId && rules.mentionsSkip(results[i].payload)
  }

  /** Why the job would have closed as skipped, if it would. */
  function SkipReason<P>(rules: Rules<P>, results: seq<Result>, jobId: string): Option<string> {
    if !HasSkipRow(rules, results, jobId) then None
    else
      var rows := RowsOf(rules, results, jobId);
      var last := LastFinal(rules, rows);
      if last.None? then None else rules.skipReason(rows, last.value)
  }

  function Relabel<P>(rules: Rules<P>, results: seq<Result>, r: Row): Row {
    if Get(r, "status") == Str("done") && Get(r, "job_id").Str? then
      var reason := SkipReason(rules, results, Get(r, "job_id").text);
      if reason.Some? then r["status" := Str("skipped")]["last_error" := Str(reason.value)] else r
    else r
  }

  function Backfill<P>(rules: Rules<P>, results: seq<Result>, t: Table): Table {
    t.(rows := seq(|t.rows|, i requires 0 <= i < |t.rows| => Relabel(rules, results, t.rows[i])))
  }

  // ---- verdict history and leases --------------------------------------------

  predicate HasHistory(verdicts: seq<Verdict>, id: Cell) {
    exists i :: 0 <= i < |verdicts| && verdicts[i].findingId == id
  }

  /** One history line for each judged finding that has none; the test is against the table as it stood. */
  function HistoryLines(before: seq<Verdict>, rows: seq<Row>): seq<Verdict> {
    if rows == [] then []
    else
      var f := rows[0];
      (if !Get(f, "verdict").Null? && !HasHistory(before, Get(f, "id"))
       then [Verdict(Get(f, "id"),
                     if Get(f, "verdict_at").Null? then Get(f, "last_seen") else Get(f, "verdict_at"), "verdict",
                     Get(f, "verdict"), Get(f, "verdict_note"))]
       else [])
      + HistoryLines(before, rows[1..])
  }

  function AtLeastOne(v: Cell): Cell {
    if v.Num? then Num(if v.n < 1 then 1 else v.n) else Null
  }

  /** A job claimed before leases existed gets one lease window and one attempt. */
  function Lease<P>(rules: Rules<P>, r: Row): Row {
    if Get(r, "status") == Str("claimed") && Get(r, "lease_deadline").Null?
    then r["lease_deadline" := Str(rules.deadline(Get(r, "lease_ttl_s")))]["attempts" := AtLeastOne(Get(r, "attempts"))]
    else r
  }

  function Leases<P>(rules: Rules<P>, t: Table): Table {
    t.(rows := seq(|t.rows|, i requires 0 <= i < |t.rows| => Lease(rules, t.rows[i])))
  }

  // ---- the whole chain -------------------------------------------------------

  /** Where migrate stops and whether it threw; what ran before a throw stays. */
  datatype Migrated = Migrated(db: Db, ok: bool)

  /** Everything up to the jobs rebuild. */
  function Columns(db: Db): (r: Db)
    ensures r.jobs.Some? && r.artifacts.Some? && r.devices.Some?
    ensures r.findings == db.findings && r.verdicts == db.verdicts && r.results == db.results
  {
    var db := CreateTables(db);
    db.(jobs := Some(db.jobs.value.(table := AddColumns(db.jobs.value.table, LEASE_COLUMNS))),
        artifacts := Some(FillPublished(AddColumns(db.artifacts.value, ARTIFACT_COLUMNS))),
        devices := Some(AddColumns(RenameNickname(db.devices.value), DEVICE_COLUMNS)))
  }

  /** depends_on, and the findings tables. */
  function Findings(db: Db): (r: Db)
    requires db.jobs.Some?
    ensures r.jobs.Some? && r.findings.Some?
  {
    var created := Checked(Table(FRESH_FINDINGS, []), Some(FINDING_VERDICTS), Words(FINDING_VERDICTS));
    db.(jobs := Some(db.jobs.value.(table := AddColumn(db.jobs.value.table, "depends_on", Null))),
        findings := Some(if db.findings.Some? then db.findings.value else created))
  }

  /** Verdict history, and who asked for a job. */
  function Provenance(db: Db): (r: Db)
    requires db.jobs.Some? && db.findings.Some? && db.artifacts.Some?
    ensures r.jobs.Some? && r.findings == db.findings
  {
    db.(verdicts := db.verdicts + HistoryLines(db.verdicts, db.findings.value.table.rows),
        jobs := Some(db.jobs.value.(table := AddColumns(db.jobs.value.table, PROVENANCE_COLUMNS))),
        artifacts := Some(AddColumn(db.artifacts.value, "media_type", Null)))
  }

  function WidenJobs<P>(rules: Rules<P>, results: seq<Result>, jobs: Checked): Option<Checked> {
    var wide := Widen(jobs, "status", "skipped");
    if wide.None? || "skipped" in jobs.mentions then wide
    else Some(wide.value.(table := Backfill(rules, results, wide.value.table)))
  }

  function Finish<P>(rules: Rules<P>, db: Db): Migrated
    requires db.jobs.Some? && db.findings.Some? && db.artifacts.Some?
  {
    var db := Provenance(db);
    var wide := WidenJobs(rules, db.results, db.jobs.value);
    if wide.None? then Migrated(db, false)
    else Migrated(db.(jobs := Some(wide.value.(table := Leases(rules, wide.value.table)))), true)
  }

  function Migrate<P>(rules: Rules<P>, db: Db): Migrated {
    var db := Columns(db);
    var rebuilt := Rebuild(db.jobs.value);
    if rebuilt.None? then Migrated(db, false)
    else
      var db := Findings(db.(jobs := rebuilt));
      var wide := Widen(db.findings.value, "verdict", "fixed");
      if wide.None? then Migrated(db, false) else Finish(rules, db.(findings := wide))
  }
}
