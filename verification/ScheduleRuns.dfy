// ScheduleRuns: scheduleRuns of collector/src/alerts.ts - which jobs a schedule
// fired, which of them make one run, and which runs skipped - and the
// schedule-skipping rule that reads it.

module ScheduleRuns {
  import opened Text
  import opened Numerals
  import opened Calendar
  import opened CronSearch
  import opened CronDates

  datatype Job = Job(jobId: string, status: string, lastError: Option<string>)

  // ---- the jobs of a schedule ------------------------------------------------

  /** The primary-key range the query scans. */
  predicate InRange(id: string, schedule: string) {
    !Less(id, schedule + "-") && Less(id, schedule + ".")
  }

  /** The range holds exactly the ids that begin with the schedule's id and a hyphen. */
  lemma {:induction false} RangeIsPrefix(id: string, schedule: string)
    ensures InRange(id, schedule) <==> schedule + "-" <= id
  {
    if schedule == "" {
      assert "" + "-" == "-" && "" + "." == ".";
      if id != "" {
        assert !Less(id[1..], "-"[1..]) && !Less(id[1..], "."[1..]);
        assert id[0] < '.' && id[0] >= '-' <==> id[0] == '-';
        assert "-" <= id <==> id[0] == '-';
      }
    } else {
      var s := schedule[1..];
      assert (schedule + "-")[0] == schedule[0] && (schedule + ".")[0] == schedule[0];
      assert (schedule + "-")[1..] == s + "-" && (schedule + ".")[1..] == s + ".";
      if id != "" && id[0] == schedule[0] {
        RangeIsPrefix(id[1..], s);
        PrefixTail(schedule + "-", id);
      }
    }
  }

  lemma PrefixTail(p: string, id: string)
    requires p != "" && id != "" && p[0] == id[0]
    ensures p <= id <==> p[1..] <= id[1..]
  {
    if p <= id { assert forall i :: 0 <= i < |p[1..]| ==> p[1..][i] == id[1..][i]; }
    if p[1..] <= id[1..] {
      assert forall i :: 0 < i < |p| ==> p[i] == p[1..][i - 1] && id[i] == id[1..][i - 1];
    }
  }

  predicate IsLineEnd(c: char) {
    c == '\n' || c == '\r' || c as int == 0x2028 || c as int == 0x2029
  }

  /** ^<schedule>-\d{12}(--.*)?$ */
  predicate Own(id: string, schedule: string) {
    var n := |schedule| + 1;
    schedule + "-" <= id && n + 12 <= |id| && AllDigits(id[n..n + 12]) &&
    (|id| == n + 12 ||
      ("--" <= id[n + 12..] && forall i :: n + 14 <= i < |id| ==> !IsLineEnd(id[i])))
  }

  /** The schedule's id, a hyphen and twelve digits, alone or followed by two hyphens and anything that fits on a line. */
  predicate IsFired(id: string, schedule: string, stamp: string, child: string) {
    |stamp| == 12 && AllDigits(stamp) &&
    (forall i :: 0 <= i < |child| ==> child[i] !in ['\n', '\r', '\U{2028}', '\U{2029}']) &&
    (id == schedule + "-" + stamp || id == schedule + "-" + stamp + "--" + child)
  }

  /** A schedule's own ids are exactly these. */
  lemma OwnExactlyWhen(id: string, schedule: string)
    ensures Own(id, schedule) <==> exists stamp, child :: IsFired(id, schedule, stamp, child)
  {
    if Own(id, schedule) {
      var n := |schedule| + 1;
      OwnParts(id, schedule);
      assert IsFired(id, schedule, id[n..n + 12], if |id| == n + 12 then "" else id[n + 14..]);
    }
    if stamp, child :| IsFired(id, schedule, stamp, child) { OwnIs(id, schedule, stamp, child); }
  }

  lemma OwnIs(id: string, schedule: string, stamp: string, child: string)
    requires IsFired(id, schedule, stamp, child)
    ensures Own(id, schedule)
  {
    var n := |schedule| + 1;
    assert id[n..n + 12] == stamp;
    if id != schedule + "-" + stamp {
      assert id[n + 12..] == "--" + child;
      forall i | n + 14 <= i < |id| ensures !IsLineEnd(id[i]) { assert id[i] == child[i - n - 14]; }
    }
  }

  // ---- the run a job belongs to ----------------------------------------------

  predicate HasDouble(s: string) {
    exists i :: 0 < i < |s| && s[i - 1] == '-' && s[i] == '-'
  }

  /** s.split("--")[0]. */
  function BeforeDouble(s: string): string {
    if s == "" || (|s| >= 2 && s[0] == '-' && s[1] == '-') then "" else [s[0]] + BeforeDouble(s[1..])
  }

  function RunKey(id: string): string {
    BeforeDouble(id)
  }

  lemma DoubleFirstOrLater(s: string)
    requires s != ""
    ensures HasDouble(s) <==> (|s| >= 2 && s[0] == '-' && s[1] == '-') || HasDouble(s[1..])
  {
    if i :| 0 < i < |s| && s[i - 1] == '-' && s[i] == '-' {
      if i > 1 { assert s[1..][i - 2] == '-' && s[1..][i - 1] == '-'; }
    }
    if i :| 0 < i < |s[1..]| && s[1..][i - 1] == '-' && s[1..][i] == '-' {
      assert s[i] == '-' && s[i + 1] == '-';
    }
    if |s| >= 2 && s[0] == '-' && s[1] == '-' { assert s[1 - 1] == '-'; }
  }

  lemma {:induction false} NoDoubleAtAll(u: string)
    requires !HasDouble(u)
    ensures BeforeDouble(u) == u
  {
    if u != "" {
      DoubleFirstOrLater(u);
      NoDoubleAtAll(u[1..]);
    }
  }

  lemma {:induction false} NoDoubleBefore(u: string, v: string)
    requires !HasDouble(u) && (u != "" ==> u[|u| - 1] != '-')
    ensures BeforeDouble(u + "--" + v) == u
  {
    if u == "" {
      assert u + "--" + v == "--" + v;
    } else {
      var w := u + "--" + v;
      DoubleFirstOrLater(u);
      assert w[1..] == u[1..] + "--" + v;
      assert |u| == 1 ==> w[0] == u[0];
      assert |u| > 1 ==> w[1] == u[1];
      NoDoubleBefore(u[1..], v);
    }
  }

  lemma {:induction false} DoubleDecides(u: string, v: string)
    requires HasDouble(u)
    ensures BeforeDouble(u + v) == BeforeDouble(u) && |BeforeDouble(u)| < |u|
  {
    DoubleFirstOrLater(u);
    assert (u + v)[0] == u[0] && |u| > 1 && (u + v)[1] == u[1];
    if !(u[0] == '-' && u[1] == '-') {
      assert (u + v)[1..] == u[1..] + v;
      DoubleDecides(u[1..], v);
    }
  }

  /** The id a schedule's run has: its own id, a hyphen and twelve digits. */
  function RunIdOf(id: string, schedule: string): string
    requires Own(id, schedule)
  {
    id[..|schedule| + 13]
  }

  lemma DigitsAddNoDouble(p: string, d: string)
    requires AllDigits(d) && d != ""
    ensures HasDouble(p + d) <==> HasDouble(p)
    ensures (p + d)[|p + d| - 1] != '-'
  {
    forall j | |p| <= j < |p + d| ensures IsDigit((p + d)[j]) { assert (p + d)[j] == d[j - |p|]; }
    if i :| 0 < i < |p + d| && (p + d)[i - 1] == '-' && (p + d)[i] == '-' {
      assert i < |p|;
      assert p[i - 1] == '-' && p[i] == '-';
    }
    if i :| 0 < i < |p| && p[i - 1] == '-' && p[i] == '-' {
      assert (p + d)[i - 1] == '-' && (p + d)[i] == '-';
    }
    assert (p + d)[|p + d| - 1] == d[|d| - 1];
  }

  lemma OwnParts(id: string, schedule: string)
    requires Own(id, schedule)
    ensures var n := |schedule| + 1;
      id[..n] == schedule + "-" && RunIdOf(id, schedule) == schedule + "-" + id[n..n + 12] &&
      (id == RunIdOf(id, schedule) || id == RunIdOf(id, schedule) + "--" + id[n + 14..])
  {
    var n := |schedule| + 1;
    assert id[..n] == schedule + "-";
    assert id[..n + 12] == id[..n] + id[n..n + 12];
    if |id| == n + 12 {
      assert id[..n + 12] == id;
    } else {
      assert id[n + 12..][..2] == "--";
      assert id[n + 12..] == "--" + id[n + 14..];
      assert id == id[..n + 12] + id[n + 12..];
    }
  }

  /**
   * A schedule's job is counted under its run's id exactly when the schedule's
   * id followed by a hyphen holds no double hyphen; when it does, every job the
   * schedule ever fired is counted under one and the same key.
   */
  lemma RunKeyIsTheRunExactlyWhen(id: string, schedule: string)
    requires Own(id, schedule)
    ensures RunKey(id) == RunIdOf(id, schedule) <==> !HasDouble(schedule + "-")
    ensures HasDouble(schedule + "-") ==> RunKey(id) == BeforeDouble(schedule + "-")
  {
    hide BeforeDouble, HasDouble;
    var n := |schedule| + 1;
    OwnParts(id, schedule);
    var p, d, u := schedule + "-", id[n..n + 12], RunIdOf(id, schedule);
    DigitsAddNoDouble(p, d);
    if HasDouble(p) {
      assert id == p + id[n..];
      DoubleDecides(p, id[n..]);
    } else if id == u {
      NoDoubleAtAll(u);
    } else {
      NoDoubleBefore(u, id[n + 14..]);
    }
  }

  /** Without double hyphens no run is shared by two schedules, and no job. */
  lemma RunsAreNotShared(id1: string, s1: string, id2: string, s2: string)
    requires Own(id1, s1) && Own(id2, s2) && !HasDouble(s1 + "-") && !HasDouble(s2 + "-")
    requires RunKey(id1) == RunKey(id2)
    ensures s1 == s2 && RunIdOf(id1, s1) == RunIdOf(id2, s2)
  {
    hide HasDouble, RunKey;
    RunKeyIsTheRunExactlyWhen(id1, s1);
    RunKeyIsTheRunExactlyWhen(id2, s2);
    assert s1 == RunIdOf(id1, s1)[..|s1|];
    assert s2 == RunIdOf(id2, s2)[..|s2|];
  }

  /** With one a job can be two schedules' own: the second schedule's id may be a fan-out child's id of the first. */
  lemma AJobOfTwoSchedules(s: string, d1: string, t: string, d2: string)
    requires |d1| == 12 && AllDigits(d1) && |d2| == 12 && AllDigits(d2)
    requires forall i :: 0 <= i < |t| ==> !IsLineEnd(t[i])
    ensures var other := s + "-" + d1 + "--" + t;
      Own(other + "-" + d2, s) && Own(other + "-" + d2, other) && other != s && HasDouble(other + "-")
  {
    var other := s + "-" + d1 + "--" + t;
    var id := other + "-" + d2;
    var n := |s| + 1;
    assert id == s + "-" + d1 + ("--" + t + "-" + d2);
    assert id[n..n + 12] == d1;
    assert id[n + 12..] == "--" + t + "-" + d2;
    assert id[|other| + 1..|other| + 13] == d2;
    forall i | n + 14 <= i < |id| ensures !IsLineEnd(id[i]) {
      var rest := t + "-" + d2;
      assert id == s + "-" + d1 + "--" + rest && id[i] == rest[i - n - 14];
      assert |t| < i - n - 14 ==> IsDigit(d2[i - n - 15 - |t|]);
    }
    assert (other + "-")[n + 12] == '-' && (other + "-")[n + 13] == '-';
  }

  // ---- gathering jobs into runs ----------------------------------------------

  datatype Gathered = Gathered(statuses: seq<string>, reasons: seq<string>)

  /** A JavaScript Map from run key to what was gathered of it. */
  datatype Groups = Groups(order: seq<string>, at: map<string, Gathered>)

  predicate GivesReason(j: Job) {
    j.status == "skipped" && j.lastError.Some? && j.lastError.value != ""
  }

  function Add(g: Gathered, j: Job): Gathered {
    Gathered(g.statuses + [j.status], if GivesReason(j) then g.reasons + [j.lastError.value] else g.reasons)
  }

  function Gather(g: Groups, j: Job): Groups {
    var k := RunKey(j.jobId);
    if k in g.at then Groups(g.order, g.at[k := Add(g.at[k], j)])
    else Groups(g.order + [k], g.at[k := Add(Gathered([], []), j)])
  }

  function GatherAll(jobs: seq<Job>): Groups {
    if jobs == [] then Groups([], map[]) else Gather(GatherAll(jobs[..|jobs| - 1]), jobs[|jobs| - 1])
  }

  /** The jobs of one run, in the order they came. */
  function Members(jobs: seq<Job>, k: string): seq<Job> {
    if jobs == [] then []
    else
      Members(jobs[..|jobs| - 1], k) + if RunKey(jobs[|jobs| - 1].jobId) == k then [jobs[|jobs| - 1]] else []
  }

  function Summed(members: seq<Job>): Gathered {
    if members == [] then Gathered([], []) else Add(Summed(members[..|members| - 1]), members[|members| - 1])
  }

  predicate Distinct(order: seq<string>) {
    forall i, j :: 0 <= i < j < |order| ==> order[i] != order[j]
  }

  lemma SummedOfOneMore(members: seq<Job>, j: Job)
    ensures Summed(members + [j]) == Add(Summed(members), j)
  {
    hide Add;
    assert (members + [j])[..|members|] == members;
  }

  /** An entry k as it should stand after these jobs. */
  predicate EntryIs(g: Groups, members: seq<Job>, k: string) {
    (k in g.at <==> members != []) && (k in g.order <==> k in g.at) && (k in g.at ==> g.at[k] == Summed(members))
  }

  lemma GatherOne(g: Groups, members: seq<Job>, k: string, j: Job)
    requires EntryIs(g, members, k)
    ensures EntryIs(Gather(g, j), if RunKey(j.jobId) == k then members + [j] else members, k)
  {
    hide RunKey, Add, Summed;
    SummedOfOneMore(members, j);
    SummedOfNone();
  }

  lemma SummedOfNone()
    ensures Summed([]) == Gathered([], [])
  {
  }

  /** Each run's entry sums its own jobs and no others; a key is there if a job has it, and once. */
  lemma {:induction false} GroupsAre(jobs: seq<Job>, k: string)
    ensures EntryIs(GatherAll(jobs), Members(jobs, k), k)
  {
    hide RunKey, Add, Summed, Gather;
    if jobs == [] {
      SummedOfNone();
    } else {
      var rest, j := jobs[..|jobs| - 1], jobs[|jobs| - 1];
      GroupsAre(rest, k);
      GatherOne(GatherAll(rest), Members(rest, k), k, j);
      assert Members(rest, k) + [] == Members(rest, k);
    }
  }

  lemma {:induction false} GroupKeysAreDistinct(jobs: seq<Job>)
    ensures Distinct(GatherAll(jobs).order)
  {
    hide RunKey, Add;
    if jobs != [] {
      GroupKeysAreDistinct(jobs[..|jobs| - 1]);
      GroupsAre(jobs[..|jobs| - 1], RunKey(jobs[|jobs| - 1].jobId));
    }
  }

  // ---- judging runs ----------------------------------------------------------

  predicate Finished(status: string) {
    status == "done" || status == "failed" || status == "cancelled" || status == "skipped"
  }

  lemma FinishedIs(status: string)
    ensures Finished(status) <==> status in ["done", "failed", "cancelled", "skipped"]
  {
  }

  predicate AllFinished(g: Gathered) {
    forall i :: 0 <= i < |g.statuses| ==> Finished(g.statuses[i])
  }

  /** Nothing in it ran. */
  predicate Skipped(g: Gathered) {
    "done" !in g.statuses && "failed" !in g.statuses && "skipped" in g.statuses
  }

  lemma {:induction false} StatusesAreTheMembers(members: seq<Job>)
    ensures |Summed(members).statuses| == |members|
    ensures forall i :: 0 <= i < |members| ==> Summed(members).statuses[i] == members[i].status
  {
    hide GivesReason;
    if members != [] { StatusesAreTheMembers(members[..|members| - 1]); }
  }

  function FinishedKeys(order: seq<string>, at: map<string, Gathered>): seq<string> {
    if order == [] then []
    else
      (if order[0] in at && AllFinished(at[order[0]]) then [order[0]] else []) + FinishedKeys(order[1..], at)
  }

  lemma {:induction false} FinishedKeysAre(order: seq<string>, at: map<string, Gathered>, k: string)
    ensures k in FinishedKeys(order, at) <==> k in order && k in at && AllFinished(at[k])
  {
    hide AllFinished;
    if order != [] { FinishedKeysAre(order[1..], at, k); }
  }

  lemma {:induction false} FinishedKeysAreDistinct(order: seq<string>, at: map<string, Gathered>)
    requires Distinct(order)
    ensures Distinct(FinishedKeys(order, at))
  {
    hide AllFinished;
    if order != [] {
      FinishedKeysAreDistinct(order[1..], at);
      FinishedKeysAre(order[1..], at, order[0]);
    }
  }

  // ---- newest first ----------------------------------------------------------

  predicate Descending(s: seq<string>) {
    forall i, j :: 0 <= i < j < |s| ==> Less(s[j], s[i])
  }

  function Insert(k: string, s: seq<string>): seq<string> {
    if s == [] || Less(s[0], k) then [k] + s else [s[0]] + Insert(k, s[1..])
  }

  /** sort((a, b) => a < b ? 1 : a > b ? -1 : 0). */
  function SortDown(s: seq<string>): seq<string> {
    if s == [] then [] else Insert(s[0], SortDown(s[1..]))
  }

  lemma {:induction false} LessIsTransitive(a: string, b: string, c: string)
    requires Less(a, b) && Less(b, c)
    ensures Less(a, c)
  {
    if a != "" && a[0] == b[0] && b[0] == c[0] { LessIsTransitive(a[1..], b[1..], c[1..]); }
  }

  lemma {:induction false} LessIsTotal(a: string, b: string)
    ensures Less(a, b) || a == b || Less(b, a)
  {
    if a != "" && b != "" && a[0] == b[0] {
      LessIsTotal(a[1..], b[1..]);
      assert a[1..] == b[1..] ==> a == [a[0]] + a[1..] == b;
    }
  }

  lemma {:induction false} InsertHas(k: string, s: seq<string>, x: string)
    ensures x in Insert(k, s) <==> x == k || x in s
  {
    if s != [] && !Less(s[0], k) { InsertHas(k, s[1..], x); }
  }

  lemma {:induction false} InsertKeepsDescending(k: string, s: seq<string>)
    requires Descending(s) && k !in s
    ensures Descending(Insert(k, s))
  {
    hide Less;
    if s == [] {
    } else if Less(s[0], k) {
      forall i | 0 < i < |s| ensures Less(s[i], k) { LessIsTransitive(s[i], s[0], k); }
    } else {
      LessIsTotal(k, s[0]);
      InsertKeepsDescending(k, s[1..]);
      var r := Insert(k, s[1..]);
      forall i | 0 <= i < |r| ensures Less(r[i], s[0]) {
        InsertHas(k, s[1..], r[i]);
      }
    }
  }

  lemma {:induction false} SortDownHas(s: seq<string>, x: string)
    ensures x in SortDown(s) <==> x in s
  {
    if s != [] {
      SortDownHas(s[1..], x);
      InsertHas(s[0], SortDown(s[1..]), x);
    }
  }

  lemma {:induction false} SortDownSorts(s: seq<string>)
    requires Distinct(s)
    ensures Descending(SortDown(s))
  {
    if s != [] {
      SortDownSorts(s[1..]);
      SortDownHas(s[1..], s[0]);
      InsertKeepsDescending(s[0], SortDown(s[1..]));
    }
  }

  // ---- scheduleRuns ----------------------------------------------------------

  datatype Run = Run(run: string, skipped: bool, reasons: seq<string>)

  function OwnJobs(jobs: seq<Job>, schedule: string): seq<Job> {
    if jobs == [] then []
    else
      var j := jobs[|jobs| - 1];
      OwnJobs(jobs[..|jobs| - 1], schedule) + if InRange(j.jobId, schedule) && Own(j.jobId, schedule) then [j] else []
  }

  lemma {:induction false} OwnJobsAre(jobs: seq<Job>, schedule: string, j: Job)
    ensures j in OwnJobs(jobs, schedule) <==> j in jobs && Own(j.jobId, schedule)
  {
    hide InRange, Own;
    if jobs != [] {
      OwnJobsAre(jobs[..|jobs| - 1], schedule, j);
      OwnIsInRange(jobs[|jobs| - 1].jobId, schedule);
      assert jobs == jobs[..|jobs| - 1] + [jobs[|jobs| - 1]];
    }
  }

  lemma OwnIsInRange(id: string, schedule: string)
    ensures Own(id, schedule) ==> InRange(id, schedule)
  {
    hide InRange;
    RangeIsPrefix(id, schedule);
  }

  function Judged(keys: seq<string>, at: map<string, Gathered>): (r: seq<Run>)
    requires forall i :: 0 <= i < |keys| ==> keys[i] in at
    ensures |r| == |keys|
    ensures forall i :: 0 <= i < |keys| ==> r[i] == Run(keys[i], Skipped(at[keys[i]]), at[keys[i]].reasons)
  {
    if keys == [] then [] else [Run(keys[0], Skipped(at[keys[0]]), at[keys[0]].reasons)] + Judged(keys[1..], at)
  }

  /** The keys judged, newest first. */
  function RunKeys(own: seq<Job>): seq<string> {
    var g := GatherAll(own);
    SortDown(FinishedKeys(g.order, g.at))
  }

  lemma RunKeysAre(own: seq<Job>, k: string)
    ensures k in RunKeys(own) <==> k in GatherAll(own).at && AllFinished(GatherAll(own).at[k])
  {
    hide SortDown, FinishedKeys, AllFinished, GatherAll, Members, Summed;
    var g := GatherAll(own);
    SortDownHas(FinishedKeys(g.order, g.at), k);
    FinishedKeysAre(g.order, g.at, k);
    GroupsAre(own, k);
  }

  function RunsOf(jobs: seq<Job>, schedule: string): seq<Run> {
    var own := OwnJobs(jobs, schedule);
    forall i | 0 <= i < |RunKeys(own)| ensures RunKeys(own)[i] in GatherAll(own).at { RunKeysAre(own, RunKeys(own)[i]); }
    Judged(RunKeys(own), GatherAll(own).at)
  }

  /** A job of the schedule counted under this key. */
  predicate Counts(jobs: seq<Job>, schedule: string, k: string, j: Job) {
    j in jobs && Own(j.jobId, schedule) && RunKey(j.jobId) == k
  }

  lemma {:induction false} MembersAre(jobs: seq<Job>, k: string, j: Job)
    ensures j in Members(jobs, k) <==> j in jobs && RunKey(j.jobId) == k
  {
    hide RunKey;
    if jobs != [] {
      MembersAre(jobs[..|jobs| - 1], k, j);
      assert jobs == jobs[..|jobs| - 1] + [jobs[|jobs| - 1]];
    }
  }

  lemma CountedAre(jobs: seq<Job>, schedule: string, k: string, j: Job)
    ensures j in Members(OwnJobs(jobs, schedule), k) <==> Counts(jobs, schedule, k, j)
  {
    hide Own, OwnJobs, Members, RunKey;
    MembersAre(OwnJobs(jobs, schedule), k, j);
    OwnJobsAre(jobs, schedule, j);
  }

  /** A run is ready to be judged: it has a job, and all its jobs have finished. */
  ghost predicate Settled(jobs: seq<Job>, schedule: string, k: string) {
    (exists j :: Counts(jobs, schedule, k, j)) &&
    forall j :: Counts(jobs, schedule, k, j) ==> j.status in ["done", "failed", "cancelled", "skipped"]
  }

  /** Nothing of the run ran and something of it skipped. */
  ghost predicate NothingRan(jobs: seq<Job>, schedule: string, k: string) {
    (forall j :: Counts(jobs, schedule, k, j) ==> j.status != "done" && j.status != "failed") &&
    exists j :: Counts(jobs, schedule, k, j) && j.status == "skipped"
  }

  lemma HasStatus(members: seq<Job>, status: string)
    ensures status in Summed(members).statuses <==> exists j :: j in members && j.status == status
  {
    hide Summed;
    StatusesAreTheMembers(members);
    if j :| j in members && j.status == status {
      var i :| 0 <= i < |members| && members[i] == j;
      assert Summed(members).statuses[i] == status;
    }
  }

  lemma SettledIs(jobs: seq<Job>, schedule: string, k: string)
    ensures var g := GatherAll(OwnJobs(jobs, schedule));
      k in g.at && AllFinished(g.at[k]) <==> Settled(jobs, schedule, k)
  {
    hide Counts, OwnJobs, Members, GatherAll, Summed, Finished;
    var m := Members(OwnJobs(jobs, schedule), k);
    GroupsAre(OwnJobs(jobs, schedule), k);
    StatusesAreTheMembers(m);
    forall j ensures j in m <==> Counts(jobs, schedule, k, j) { CountedAre(jobs, schedule, k, j); }
    if m != [] { assert m[0] in m; }
    forall i | 0 <= i < |m| ensures Finished(m[i].status) <==> m[i].status in ["done", "failed", "cancelled", "skipped"] {
      FinishedIs(m[i].status);
    }
    if Settled(jobs, schedule, k) {
      forall i | 0 <= i < |m| ensures Finished(m[i].status) { assert m[i] in m; }
    }
  }

  lemma SkippedIs(jobs: seq<Job>, schedule: string, k: string)
    requires k in GatherAll(OwnJobs(jobs, schedule)).at
    ensures Skipped(GatherAll(OwnJobs(jobs, schedule)).at[k]) <==> NothingRan(jobs, schedule, k)
  {
    hide Counts, OwnJobs, Members, GatherAll, Summed;
    var m := Members(OwnJobs(jobs, schedule), k);
    GroupsAre(OwnJobs(jobs, schedule), k);
    forall j ensures j in m <==> Counts(jobs, schedule, k, j) { CountedAre(jobs, schedule, k, j); }
    HasStatus(m, "done");
    HasStatus(m, "failed");
    HasStatus(m, "skipped");
  }

  predicate NewestFirst(runs: seq<Run>) {
    forall i, j :: 0 <= i < j < |runs| ==> Less(runs[j].run, runs[i].run)
  }

  /**
   * scheduleRuns gives one entry for each run of the schedule whose jobs have
   * all finished, and no other, the greatest id first; an entry is marked
   * skipped exactly when none of its jobs is done or failed and some skipped,
   * and carries the reasons of its members, which MembersInOrder and
   * ReasonsAreTheSkips describe.
   */
  lemma ScheduleRunsAre(jobs: seq<Job>, schedule: string, k: string)
    ensures NewestFirst(RunsOf(jobs, schedule))
    ensures Settled(jobs, schedule, k) <==> exists i :: 0 <= i < |RunsOf(jobs, schedule)| && RunsOf(jobs, schedule)[i].run == k
    ensures forall i :: 0 <= i < |RunsOf(jobs, schedule)| && RunsOf(jobs, schedule)[i].run == k ==>
      (RunsOf(jobs, schedule)[i].skipped <==> NothingRan(jobs, schedule, k)) &&
      RunsOf(jobs, schedule)[i].reasons == Summed(Members(OwnJobs(jobs, schedule), k)).reasons
  {
    hide GatherAll, OwnJobs, RunKeys, Settled, NothingRan, AllFinished, Skipped, Less, Members, Summed;
    GroupsAre(OwnJobs(jobs, schedule), k);
    var own := OwnJobs(jobs, schedule);
    var keys := RunKeys(own);
    RunKeysDescend(own);
    RunKeysAre(own, k);
    SettledIs(jobs, schedule, k);
    var runs := RunsOf(jobs, schedule);
    assert forall i :: 0 <= i < |keys| ==> runs[i].run == keys[i];
    if k in GatherAll(own).at { SkippedIs(jobs, schedule, k); }
    if k in keys {
      var i :| 0 <= i < |keys| && keys[i] == k;
      assert runs[i].run == k;
    }
  }

  lemma RunKeysDescend(own: seq<Job>)
    ensures Descending(RunKeys(own))
  {
    hide SortDown, FinishedKeys, GatherAll, Less;
    var g := GatherAll(own);
    GroupKeysAreDistinct(own);
    FinishedKeysAreDistinct(g.order, g.at);
    SortDownSorts(FinishedKeys(g.order, g.at));
  }

  // ---- the reasons -----------------------------------------------------------

  /** The positions of the jobs that give a reason. */
  predicate ReasonsAt(members: seq<Job>, idx: seq<nat>) {
    Rising(idx, |members|) && forall i :: 0 <= i < |members| ==>
      (i in idx <==> members[i].status == "skipped" && members[i].lastError.Some? && members[i].lastError.value != "")
  }

  predicate AreReasons(reasons: seq<string>, members: seq<Job>, idx: seq<nat>) {
    |reasons| == |idx| && forall k :: 0 <= k < |idx| ==> idx[k] < |members| && Some(reasons[k]) == members[idx[k]].lastError
  }

  lemma ReasonsNext(front: seq<Job>, j: Job, idx: seq<nat>)
    requires ReasonsAt(front, idx)
    ensures ReasonsAt(front + [j], if GivesReason(j) then idx + [|front|] else idx)
  {
    var more := idx + [|front|];
    assert more[|idx|] == |front|;
    forall i | 0 <= i < |front| ensures i in more <==> i in idx {
      if i in idx {
        var k :| 0 <= k < |idx| && idx[k] == i;
        assert more[k] == i;
      }
    }
  }

  lemma ReasonsGrow(reasons: seq<string>, front: seq<Job>, j: Job, idx: seq<nat>)
    requires AreReasons(reasons, front, idx)
    ensures AreReasons(reasons, front + [j], idx)
    ensures GivesReason(j) ==> AreReasons(reasons + [j.lastError.value], front + [j], idx + [|front|])
  {
  }

  /** A run's reasons are the last errors of its skipped jobs that left one, in the jobs' order; idx says whose. */
  lemma {:induction false} ReasonsAreTheSkips(members: seq<Job>) returns (idx: seq<nat>)
    ensures ReasonsAt(members, idx) && AreReasons(Summed(members).reasons, members, idx)
  {
    hide ReasonsAt, AreReasons, GivesReason;
    if members == [] {
      idx := [];
      NoReasons();
    } else {
      var front, j := members[..|members| - 1], members[|members| - 1];
      idx := ReasonsAreTheSkips(front);
      assert members == front + [j];
      ReasonsNext(front, j, idx);
      ReasonsGrow(Summed(front).reasons, front, j, idx);
      if GivesReason(j) { idx := idx + [|front|]; }
    }
  }

  lemma NoReasons()
    ensures ReasonsAt([], []) && AreReasons([], [], []) && Summed([]).reasons == []
  {
  }

  /** The members of a run are its jobs among the scanned rows, in the rows' order. */
  predicate AreMembers(members: seq<Job>, jobs: seq<Job>, schedule: string, k: string, idx: seq<nat>) {
    Rising(idx, |jobs|) && |members| == |idx| &&
    (forall i :: 0 <= i < |jobs| ==> (i in idx <==> Own(jobs[i].jobId, schedule) && RunKey(jobs[i].jobId) == k)) &&
    forall n :: 0 <= n < |idx| ==> members[n] == jobs[idx[n]]
  }

  lemma {:induction false} MembersInOrder(jobs: seq<Job>, schedule: string, k: string) returns (idx: seq<nat>)
    ensures AreMembers(Members(OwnJobs(jobs, schedule), k), jobs, schedule, k, idx)
  {
    hide Own, RunKey, AreMembers, Members, OwnJobs;
    if jobs == [] {
      idx := [];
      NoMembers(schedule, k);
    } else {
      var front, j := jobs[..|jobs| - 1], jobs[|jobs| - 1];
      idx := MembersInOrder(front, schedule, k);
      assert jobs == front + [j];
      var own := OwnJobs(front, schedule);
      OwnOfOneMore(jobs, schedule);
      MembersNext(Members(own, k), front, j, schedule, k, idx);
      MembersOfOneMore(own, j, k);
      if Own(j.jobId, schedule) && RunKey(j.jobId) == k { idx := idx + [|front|]; }
    }
  }

  lemma OwnOfOneMore(jobs: seq<Job>, schedule: string)
    requires jobs != []
    ensures var front, j := jobs[..|jobs| - 1], jobs[|jobs| - 1];
      OwnJobs(jobs, schedule) == if Own(j.jobId, schedule) then OwnJobs(front, schedule) + [j] else OwnJobs(front, schedule)
  {
    hide InRange, Own;
    OwnIsInRange(jobs[|jobs| - 1].jobId, schedule);
    var own := OwnJobs(jobs[..|jobs| - 1], schedule);
    assert own + [] == own;
  }

  lemma MembersOfOneMore(own: seq<Job>, j: Job, k: string)
    ensures Members(own + [j], k) == if RunKey(j.jobId) == k then Members(own, k) + [j] else Members(own, k)
  {
    hide RunKey;
    assert (own + [j])[..|own|] == own;
    assert Members(own, k) + [] == Members(own, k);
  }

  lemma MembersNext(members: seq<Job>, front: seq<Job>, j: Job, schedule: string, k: string, idx: seq<nat>)
    requires AreMembers(members, front, schedule, k, idx)
    ensures if Own(j.jobId, schedule) && RunKey(j.jobId) == k
      then AreMembers(members + [j], front + [j], schedule, k, idx + [|front|])
      else AreMembers(members, front + [j], schedule, k, idx)
  {
    hide Own, RunKey;
    var jobs, more := front + [j], idx + [|front|];
    assert more[|idx|] == |front|;
    forall i | 0 <= i < |front| ensures (i in more <==> i in idx) && jobs[i] == front[i] {
      if i in idx {
        var n :| 0 <= n < |idx| && idx[n] == i;
        assert more[n] == i;
      }
    }
  }

  lemma NoMembers(schedule: string, k: string)
    ensures AreMembers(Members(OwnJobs([], schedule), k), [], schedule, k, [])
  {
  }

  // ---- the loop --------------------------------------------------------------

  method GatherRuns(rows: seq<Job>) returns (g: Groups)
    ensures g == GatherAll(rows)
  {
    g := Groups([], map[]);
    for i := 0 to |rows|
      invariant g == GatherAll(rows[..i])
    {
      assert rows[..i + 1][..i] == rows[..i];
      var k := RunKey(rows[i].jobId);
      var run := if k in g.at then g.at[k] else Gathered([], []);
      run := run.(statuses := run.statuses + [rows[i].status]);
      if GivesReason(rows[i]) { run := run.(reasons := run.reasons + [rows[i].lastError.value]); }
      g := Groups(if k in g.at then g.order else g.order + [k], g.at[k := run]);
    }
    assert rows[..|rows|] == rows;
  }

  method ScheduleRunsOf(jobs: seq<Job>, schedule: string) returns (runs: seq<Run>)
    ensures runs == RunsOf(jobs, schedule)
  {
    var own := OwnJobs(jobs, schedule);
    var g := GatherRuns(own);
    var keys := SortDown(FinishedKeys(g.order, g.at));
    assert keys == RunKeys(own);
    forall i | 0 <= i < |keys| ensures keys[i] in g.at { RunKeysAre(own, keys[i]); }
    runs := Judged(keys, g.at);
  }

  // ---- the minute a run fired ------------------------------------------------

  function OnlyDigits(s: string): string {
    if s == "" then "" else if IsDigit(s[0]) then [s[0]] + OnlyDigits(s[1..]) else OnlyDigits(s[1..])
  }

  /** The id the scheduler gives the run it fires: key.replace(/[^0-9]/g, ""). */
  function FiredId(schedule: string, minute: int): string
    requires DateOf(DayOf(minute)).year >= 0
  {
    schedule + "-" + OnlyDigits(MinuteKey(minute))
  }

  lemma {:induction false} OnlyDigitsJoin(a: string, b: string)
    ensures OnlyDigits(a + b) == OnlyDigits(a) + OnlyDigits(b)
  {
    hide IsDigit;
    if a == "" {
      assert a + b == b;
    } else {
      assert (a + b)[1..] == a[1..] + b && (a + b)[0] == a[0];
      OnlyDigitsJoin(a[1..], b);
    }
  }

  lemma {:induction false} DigitsStay(s: string)
    requires AllDigits(s)
    ensures OnlyDigits(s) == s
  {
    if s != "" { DigitsStay(s[1..]); }
  }

  /** A field of digits, a separator, and the rest. */
  lemma FieldStays(d: string, c: char, rest: string)
    requires AllDigits(d) && !IsDigit(c)
    ensures OnlyDigits(d + ([c] + rest)) == d + OnlyDigits(rest)
  {
    OnlyDigitsJoin(d, [c] + rest);
    DigitsStay(d);
    assert ([c] + rest)[1..] == rest;
  }

  function Stamp(r: (nat, nat, nat, nat, nat)): string {
    Fixed(r.0, 4) + (Fixed(r.1, 2) + (Fixed(r.2, 2) + (Fixed(r.3, 2) + Fixed(r.4, 2))))
  }

  lemma StampIsTheKeysDigits(r: (nat, nat, nat, nat, nat))
    ensures OnlyDigits(ShowReading(r)) == Stamp(r) && |Stamp(r)| == 12 && AllDigits(Stamp(r))
  {
    hide Fixed, OnlyDigits;
    var d4 := Fixed(r.4, 2);
    var d3 := Fixed(r.3, 2) + (":" + d4);
    var d2 := Fixed(r.2, 2) + ("T" + d3);
    var d1 := Fixed(r.1, 2) + ("-" + d2);
    DigitsStay(d4);
    FieldStays(Fixed(r.3, 2), ':', d4);
    FieldStays(Fixed(r.2, 2), 'T', d3);
    FieldStays(Fixed(r.1, 2), '-', d2);
    FieldStays(Fixed(r.0, 4), '-', d1);
  }

  lemma FixedFirst(a: nat, b: nat, w: nat, u: string, v: string)
    requires a < Pow10(w) && b < Pow10(w)
    ensures Less(Fixed(a, w) + u, Fixed(b, w) + v) <==> a < b || (a == b && Less(u, v))
  {
    FixedInOrder(a, b, w);
    LessInParts(Fixed(a, w), u, Fixed(b, w), v);
  }

  lemma StampsInOrder(a: (nat, nat, nat, nat, nat), b: (nat, nat, nat, nat, nat))
    requires InWidth(a) && InWidth(b)
    ensures Less(Stamp(a), Stamp(b)) <==> ReadingLess(a, b)
  {
    hide Fixed, Less, Pow10;
    Powers();
    var a4, b4 := Fixed(a.4, 2), Fixed(b.4, 2);
    var a3, b3 := Fixed(a.3, 2) + a4, Fixed(b.3, 2) + b4;
    var a2, b2 := Fixed(a.2, 2) + a3, Fixed(b.2, 2) + b3;
    var a1, b1 := Fixed(a.1, 2) + a2, Fixed(b.1, 2) + b2;
    FixedInOrder(a.4, b.4, 2);
    FixedFirst(a.3, b.3, 2, a4, b4);
    FixedFirst(a.2, b.2, 2, a3, b3);
    FixedFirst(a.1, b.1, 2, a2, b2);
    FixedFirst(a.0, b.0, 4, a1, b1);
  }

  lemma {:induction false} SameHead(p: string, u: string, v: string)
    ensures Less(p + u, p + v) <==> Less(u, v)
  {
    LessInParts(p, u, p, v);
    LessIsIrreflexive(p);
  }

  /** A fired run's id, with or without a fan-out child's suffix, is the schedule's own and names its run. */
  lemma FiredRunsAreFound(schedule: string, minute: int, child: string)
    requires FourDigitYear(minute) && !HasDouble(schedule + "-")
    requires forall i :: 0 <= i < |child| ==> !IsLineEnd(child[i])
    ensures var run := FiredId(schedule, minute);
      Own(run, schedule) && RunKey(run) == run &&
      Own(run + "--" + child, schedule) && RunKey(run + "--" + child) == run
  {
    hide MinuteKey, ShowReading, Stamp, OnlyDigits, HasDouble, RunKey, Reading, DateOf;
    KeyIsReading(minute);
    var stamp := Stamp(Reading(minute));
    StampIsTheKeysDigits(Reading(minute));
    var run := FiredId(schedule, minute);
    var id := run + "--" + child;
    var n := |schedule| + 1;
    assert run == schedule + "-" + stamp && |run| == n + 12;
    assert run[n..n + 12] == stamp && id[n..n + 12] == stamp;
    assert id[n + 12..] == "--" + child;
    assert forall i :: n + 14 <= i < |id| ==> id[i] == child[i - n - 14];
    assert run[..|run|] == run && id[..n + 12] == run;
    RunKeyIsTheRunExactlyWhen(run, schedule);
    RunKeyIsTheRunExactlyWhen(id, schedule);
  }

  /** A fired run's id ends in the digits of its minute's key: the year, month, day, hour and minute it fired. */
  lemma FiredIdIs(schedule: string, d: Date, hour: int, minute: int)
    requires OnTheClock(d, hour, minute) && 1000 <= d.year <= 9999
    ensures FourDigitYear(At(d, hour, minute))
    ensures var key, id := MinuteKey(At(d, hour, minute)), FiredId(schedule, At(d, hour, minute));
      |key| == 16 && id == schedule + "-" + (key[..4] + (key[5..7] + (key[8..10] + (key[11..13] + key[14..]))))
  {
    hide MinuteKey, ShowReading, OnlyDigits, Reading, DateOf, Fixed, At, DayNumber;
    AtReads(d, hour, minute);
    KeyIsReading(At(d, hour, minute));
    KeyParts(Reading(At(d, hour, minute)));
    StampIsTheKeysDigits(Reading(At(d, hour, minute)));
  }

  /** So the greatest id first is the last fired first. */
  lemma GreatestIdIsLastFired(schedule: string, a: int, b: int)
    requires FourDigitYear(a) && FourDigitYear(b)
    ensures Less(FiredId(schedule, a), FiredId(schedule, b)) <==> a < b
  {
    hide MinuteKey, ShowReading, Stamp, OnlyDigits, Reading, DateOf, Less, ReadingLess;
    KeyIsReading(a);
    KeyIsReading(b);
    StampIsTheKeysDigits(Reading(a));
    StampIsTheKeysDigits(Reading(b));
    SameHead(schedule + "-", Stamp(Reading(a)), Stamp(Reading(b)));
    StampsInOrder(Reading(a), Reading(b));
    ReadingsInOrder(a, b);
  }

  // ---- the schedule-skipping rule --------------------------------------------

  function Streak(skipStreak: int): nat {
    if skipStreak > 1 then skipStreak else 1
  }

  /** recent = runs.slice(0, streak); recent.length >= streak && recent.every(skipped). */
  predicate ScheduleSkipping(runs: seq<Run>, skipStreak: int) {
    |runs| >= Streak(skipStreak) && forall i :: 0 <= i < Streak(skipStreak) ==> runs[i].skipped
  }

  /** Every finished run newer than this one skipped. */
  ghost predicate OnlySkipsSince(jobs: seq<Job>, schedule: string, k: string) {
    forall k' :: Settled(jobs, schedule, k') && !Less(k', k) ==> NothingRan(jobs, schedule, k')
  }

  /**
   * The rule fires exactly when the streak-th newest finished run and every
   * finished run since have skipped; a finished run that did not skip silences
   * it until a whole streak of newer ones has.
   */
  lemma SkippingExactlyWhen(jobs: seq<Job>, schedule: string, skipStreak: int)
    ensures var runs, n := RunsOf(jobs, schedule), Streak(skipStreak);
      n == (if skipStreak > 1 then skipStreak else 1) &&
      (ScheduleSkipping(runs, skipStreak) <==> |runs| >= n && OnlySkipsSince(jobs, schedule, runs[n - 1].run))
  {
    hide RunsOf, Settled, NothingRan, Less;
    var runs, n := RunsOf(jobs, schedule), Streak(skipStreak);
    if |runs| >= n {
      var k := runs[n - 1].run;
      if ScheduleSkipping(runs, skipStreak) {
        forall k' | Settled(jobs, schedule, k') && !Less(k', k) ensures NothingRan(jobs, schedule, k') {
          ScheduleRunsAre(jobs, schedule, k');
          var i :| 0 <= i < |runs| && runs[i].run == k';
        }
      }
      if OnlySkipsSince(jobs, schedule, k) {
        forall i | 0 <= i < n ensures runs[i].skipped {
          ScheduleRunsAre(jobs, schedule, runs[i].run);
          NotBelow(runs, i, n - 1);
        }
      }
    }
  }

  lemma NotBelow(runs: seq<Run>, i: nat, j: nat)
    requires NewestFirst(runs) && i <= j < |runs|
    ensures !Less(runs[i].run, runs[j].run)
  {
    hide Less;
    LessIsIrreflexive(runs[i].run);
    if i < j && Less(runs[i].run, runs[j].run) { LessIsTransitive(runs[i].run, runs[j].run, runs[i].run); }
  }
}
