// AlertRuns: what the alert table says of the past - the rows of a condition are
// its maximal runs of passes, one by one.

module AlertRuns {
  import opened Text
  import opened Alerts
  import opened AlertHistory

  // ---- runs of passes --------------------------------------------------------

  /** The passes from first to last. */
  datatype Span = Span(first: nat, last: nat)

  /** The runs of passes at which k holds, in order. */
  function Spans(passes: seq<Pass>, k: string): seq<Span> {
    if passes == [] then []
    else NextSpans(Spans(passes[..|passes| - 1], k), |passes| - 1, Found(passes[|passes| - 1].findings, k))
  }

  /** The runs after pass n, at which k holds or does not. */
  function NextSpans(before: seq<Span>, n: nat, holds: bool): seq<Span> {
    if !holds then before
    else if EndsAt(before, n - 1) then before[..|before| - 1] + [Span(before[|before| - 1].first, n)]
    else before + [Span(n, n)]
  }

  /** The last run ends at pass n. */
  predicate EndsAt(spans: seq<Span>, n: int) {
    spans != [] && spans[|spans| - 1].last == n
  }

  /** k holds throughout the span, and neither just before nor just after it. */
  ghost predicate IsMaximal(passes: seq<Pass>, k: string, s: Span) {
    s.first <= s.last && (forall i :: s.first <= i <= s.last ==> HoldsAt(passes, k, i)) &&
    !HoldsAt(passes, k, s.first - 1) && !HoldsAt(passes, k, s.last + 1)
  }

  predicate Within(s: Span, i: int) {
    s.first <= i <= s.last
  }

  /** Exactly the maximal runs: each is one, they are apart and in order, and every pass at which k holds is in one. */
  ghost predicate AreTheRuns(passes: seq<Pass>, k: string, spans: seq<Span>) {
    (forall j :: 0 <= j < |spans| ==> spans[j].last < |passes| && IsMaximal(passes, k, spans[j])) &&
    (forall a, b :: 0 <= a < b < |spans| ==> spans[a].last + 1 < spans[b].first) &&
    forall i :: HoldsAt(passes, k, i) ==> exists j :: 0 <= j < |spans| && Within(spans[j], i)
  }

  lemma MaximalGrows(passes: seq<Pass>, pass: Pass, k: string, s: Span)
    requires IsMaximal(passes, k, s) && s.last < |passes|
    requires s.last == |passes| - 1 ==> !Found(pass.findings, k)
    ensures IsMaximal(passes + [pass], k, s)
  {
    hide Found, HoldsAt;
    forall i | s.first - 1 <= i <= s.last + 1
      ensures HoldsAt(passes + [pass], k, i) <==> HoldsAt(passes, k, i) || (i == |passes| && Found(pass.findings, k))
    {
      HoldsAsBefore(passes, pass, k, i);
      if i >= |passes| { NotBeyond(passes, k, i); }
    }
  }

  lemma NotBeyond(passes: seq<Pass>, k: string, i: int)
    requires i >= |passes|
    ensures !HoldsAt(passes, k, i)
  {
  }

  lemma LastGrows(passes: seq<Pass>, pass: Pass, k: string, s: Span)
    requires IsMaximal(passes, k, s) && s.last == |passes| - 1 && Found(pass.findings, k)
    ensures IsMaximal(passes + [pass], k, Span(s.first, |passes|))
  {
    hide Found, HoldsAt;
    forall i | s.first - 1 <= i <= s.last + 1
      ensures HoldsAt(passes + [pass], k, i) <==> HoldsAt(passes, k, i) || i == |passes|
    {
      HoldsAsBefore(passes, pass, k, i);
      NotBeyond(passes, k, |passes|);
    }
    NotBeyond(passes + [pass], k, |passes| + 1);
  }

  lemma StartsNew(passes: seq<Pass>, pass: Pass, k: string)
    requires Found(pass.findings, k) && !HoldsAt(passes, k, |passes| - 1)
    ensures IsMaximal(passes + [pass], k, Span(|passes|, |passes|))
  {
    hide Found, HoldsAt;
    HoldsAsBefore(passes, pass, k, |passes| - 1);
    HoldsAsBefore(passes, pass, k, |passes|);
    NotBeyond(passes + [pass], k, |passes| + 1);
  }

  lemma LastIsGreatest(passes: seq<Pass>, k: string, spans: seq<Span>, j: nat)
    requires AreTheRuns(passes, k, spans) && j < |spans|
    ensures spans[j].last < spans[|spans| - 1].last < |passes| || j == |spans| - 1
  {
    hide HoldsAt;
    assert IsMaximal(passes, k, spans[|spans| - 1]);
    assert j == |spans| - 1 || spans[j].last + 1 < spans[|spans| - 1].first;
  }

  /** The last run reaches the last pass exactly when k holds at it. */
  lemma EndsExactlyWhenHolding(passes: seq<Pass>, k: string, spans: seq<Span>)
    requires AreTheRuns(passes, k, spans)
    ensures EndsAt(spans, |passes| - 1) <==> passes != [] && HoldsAt(passes, k, |passes| - 1)
    ensures forall j :: 0 <= j < |spans| && spans[j].last == |passes| - 1 ==> j == |spans| - 1
  {
    hide HoldsAt;
    if passes != [] && HoldsAt(passes, k, |passes| - 1) {
      var j :| 0 <= j < |spans| && Within(spans[j], |passes| - 1);
      assert spans[j].last == |passes| - 1;
      LastIsGreatest(passes, k, spans, j);
    }
    if EndsAt(spans, |passes| - 1) { assert IsMaximal(passes, k, spans[|spans| - 1]); }
    forall j | 0 <= j < |spans| && spans[j].last == |passes| - 1 ensures j == |spans| - 1 {
      LastIsGreatest(passes, k, spans, j);
    }
  }

  lemma CoverGrows(passes: seq<Pass>, pass: Pass, k: string, before: seq<Span>)
    requires AreTheRuns(passes, k, before)
    ensures var after := NextSpans(before, |passes|, Found(pass.findings, k));
      forall i :: HoldsAt(passes + [pass], k, i) ==> exists j :: 0 <= j < |after| && Within(after[j], i)
  {
    hide HoldsAt, Found;
    var after := NextSpans(before, |passes|, Found(pass.findings, k));
    forall i | HoldsAt(passes + [pass], k, i) ensures exists j :: 0 <= j < |after| && Within(after[j], i) {
      HoldsAsBefore(passes, pass, k, i);
      if i < |passes| {
        var j :| 0 <= j < |before| && Within(before[j], i);
        assert Within(after[j], i);
      } else if i == |passes| {
        assert Within(after[|after| - 1], i);
      } else {
        NotBeyond(passes + [pass], k, i);
      }
    }
  }

  lemma RunsGrow(passes: seq<Pass>, pass: Pass, k: string, before: seq<Span>)
    requires AreTheRuns(passes, k, before)
    ensures AreTheRuns(passes + [pass], k, NextSpans(before, |passes|, Found(pass.findings, k)))
  {
    hide HoldsAt, Found, IsMaximal;
    var n := |passes|;
    var after := NextSpans(before, n, Found(pass.findings, k));
    EndsExactlyWhenHolding(passes, k, before);
    CoverGrows(passes, pass, k, before);
    if !EndsAt(before, n - 1) && Found(pass.findings, k) {
      if n == 0 { NotBelow(passes, k); }
      StartsNew(passes, pass, k);
    }
    forall j | 0 <= j < |after| ensures after[j].last < n + 1 && IsMaximal(passes + [pass], k, after[j]) {
      if j < |before| {
        if before[j].last == n - 1 && Found(pass.findings, k) {
          LastGrows(passes, pass, k, before[j]);
        } else {
          MaximalGrows(passes, pass, k, before[j]);
        }
      }
    }
  }

  lemma NotBelow(passes: seq<Pass>, k: string)
    ensures !HoldsAt(passes, k, -1)
  {
  }

  /** Spans are exactly the maximal runs. */
  lemma {:induction false} SpansAreTheRuns(passes: seq<Pass>, k: string)
    ensures AreTheRuns(passes, k, Spans(passes, k))
  {
    hide AreTheRuns, NextSpans, Found;
    if passes == [] {
      NoRuns(k);
    } else {
      var front := passes[..|passes| - 1];
      SpansAreTheRuns(front, k);
      RunsGrow(front, passes[|passes| - 1], k, Spans(front, k));
      assert passes == front + [passes[|passes| - 1]];
    }
  }

  lemma NoRuns(k: string)
    ensures AreTheRuns([], k, Spans([], k))
  {
  }

  // ---- rows of a condition ---------------------------------------------------

  /** The positions of the rows of the key, in the order they were opened. */
  predicate ArePositions(rows: seq<Row>, k: string, idx: seq<nat>) {
    Rising(idx, |rows|) && forall i :: 0 <= i < |rows| ==> (i in idx <==> KeyOfRow(rows[i]) == k)
  }

  /** The words of the last finding of the key. */
  predicate Worded(r: Row, findings: seq<Finding>, k: string) {
    exists i :: 0 <= i < |findings| && IsLatest(findings, findings[i], k) &&
      r.message == findings[i].message && r.severity == findings[i].severity
  }

  /**
   * The row tells of the run: since when, until when, over how many passes, in
   * the words of the last of them; and it is live while the run lasts, or else
   * was resolved at the pass after it.
   */
  predicate TellsOf(r: Row, passes: seq<Pass>, k: string, s: Span) {
    KeyOfRow(r) == k && s.first <= s.last < |passes| && r.seenCount == s.last - s.first + 1 &&
    r.firstSeen == passes[s.first].now && r.lastSeen == passes[s.last].now && Worded(r, passes[s.last].findings, k) &&
    if s.last == |passes| - 1 then Live(r) && r.resolvedAt.None? else r.state == Resolved && r.resolvedAt == Some(passes[s.last + 1].now)
  }

  /** The rows of the key, one by one, tell of these runs. */
  predicate AllTell(rows: seq<Row>, passes: seq<Pass>, k: string, spans: seq<Span>, idx: seq<nat>) {
    |idx| == |spans| &&
    forall j :: 0 <= j < |idx| ==> idx[j] < |rows| && TellsOf(rows[idx[j]], passes, k, spans[j])
  }

  lemma MoveKeepsTelling(r: Row, e: Event, passes: seq<Pass>, k: string, s: Span)
    requires TellsOf(r, passes, k, s)
    ensures TellsOf(Moved(r, e), passes, k, s)
  {
    hide Key, IsLatest;
  }

  lemma MovesKeepTelling(rows: seq<Row>, e: Event, passes: seq<Pass>, k: string, spans: seq<Span>, idx: seq<nat>)
    requires ArePositions(rows, k, idx) && AllTell(rows, passes, k, spans, idx)
    ensures ArePositions(MovedAll(rows, e), k, idx) && AllTell(MovedAll(rows, e), passes, k, spans, idx)
  {
    hide TellsOf, Moved, KeyOfRow, MovedAll;
    forall i | 0 <= i < |rows| ensures KeyOfRow(MovedAll(rows, e)[i]) == KeyOfRow(rows[i]) {
      MoveKeepsShowing(rows[i], e, passes, k, 0);
    }
    forall j | 0 <= j < |idx| ensures TellsOf(MovedAll(rows, e)[idx[j]], passes, k, spans[j]) {
      MoveKeepsTelling(rows[idx[j]], e, passes, k, spans[j]);
    }
  }

  lemma LatestIsAt(findings: seq<Finding>, f: Finding, k: string)
    requires IsLatest(findings, f, k)
    ensures exists i :: 0 <= i < |findings| && findings[i] == f && IsLatest(findings, findings[i], k)
  {
  }

  /** A row of a run that is over stays as it is. */
  lemma OverStays(r: Row, r': Row, passes: seq<Pass>, pass: Pass, k: string, s: Span)
    requires TellsOf(r, passes, k, s) && s.last < |passes| - 1 && Carried(r, r', pass.findings, pass.now)
    ensures TellsOf(r', passes + [pass], k, s)
  {
    hide Key, IsLatest, Found, Worded;
    assert r' == r;
    assert (passes + [pass])[s.last + 1] == passes[s.last + 1];
  }

  /** A run that the pass ends: its row is resolved at that pass, and keeps what it told. */
  lemma EndedResolves(r: Row, r': Row, passes: seq<Pass>, pass: Pass, k: string, s: Span)
    requires TellsOf(r, passes, k, s) && s.last == |passes| - 1
    requires Carried(r, r', pass.findings, pass.now) && !Found(pass.findings, k)
    ensures TellsOf(r', passes + [pass], k, s)
  {
    hide Key, IsLatest, Found;
    assert r' == Resolve(r, pass.now);
  }

  /** A run that goes on: its row, if still live, tells of one pass more. */
  lemma GoesOn(r: Row, r': Row, passes: seq<Pass>, pass: Pass, k: string, s: Span)
    requires TellsOf(r, passes, k, s) && s.last == |passes| - 1
    requires Carried(r, r', pass.findings, pass.now) && Live(r')
    ensures TellsOf(r', passes + [pass], k, Span(s.first, |passes|))
  {
    hide Key, IsLatest, Found;
    var f :| IsLatest(pass.findings, f, KeyOfRow(r)) && r' == Refresh(r, f, pass.now);
    LatestIsAt(pass.findings, f, k);
  }

  lemma NewRunTells(r: Row, id: nat, passes: seq<Pass>, pass: Pass)
    requires Newborn(r, pass.findings, id, pass.now)
    ensures TellsOf(r, passes + [pass], KeyOfRow(r), Span(|passes|, |passes|))
  {
    hide Key, IsLatest;
    var f :| IsLatest(pass.findings, f, KeyOfRow(r)) && r == NewRow(id, f, pass.now);
    LatestIsAt(pass.findings, f, KeyOfRow(r));
  }

  // ---- one pass --------------------------------------------------------------

  lemma {:induction false} OneIsAlone(rows: seq<Row>, k: string, a: nat, b: nat)
    requires LiveCount(rows, k) <= 1 && a < |rows| && b < |rows|
    requires Live(rows[a]) && KeyOfRow(rows[a]) == k && Live(rows[b]) && KeyOfRow(rows[b]) == k
    ensures a == b
  {
    hide Key, Live;
    if a == 0 && b > 0 {
      AliveIsCounted(rows[1..], k, b - 1);
    } else if b == 0 && a > 0 {
      AliveIsCounted(rows[1..], k, a - 1);
    } else if a > 0 {
      OneIsAlone(rows[1..], k, a - 1, b - 1);
    }
  }

  /** The opened rows of the key: none, or one. */
  lemma OpenedOfKey(t: Table, pass: Pass, k: string) returns (q: nat)
    ensures var added := OpenedBy(t, pass.findings, pass.now);
      if Found(pass.findings, k) && LiveCount(t.rows, k) == 0
      then q < |added| && Newborn(added[q], pass.findings, t.nextId + q, pass.now) &&
        forall i :: 0 <= i < |added| ==> (KeyOfRow(added[i]) == k <==> i == q)
      else forall i :: 0 <= i < |added| ==> KeyOfRow(added[i]) != k
  {
    hide LiveCount, Reconcile, OpenedBy, Found, Key, Newborn, KeyOfRow;
    var added := OpenedBy(t, pass.findings, pass.now);
    ReconcileKeepsHistory(t, pass.findings, pass.now);
    OneLiveRowPerFinding(t, pass.findings, pass.now, k);
    forall i | 0 <= i < |added| ensures Live(added[i]) { NewbornShows(added[i], t.nextId + i, [], pass); }
    q := 0;
    if Found(pass.findings, k) && LiveCount(t.rows, k) == 0 {
      LiveCountPositive(added, k);
      q :| 0 <= q < |added| && Live(added[q]) && KeyOfRow(added[q]) == k;
      forall i | 0 <= i < |added| && KeyOfRow(added[i]) == k ensures i == q { OneIsAlone(added, k, i, q); }
    } else {
      forall i | 0 <= i < |added| ensures KeyOfRow(added[i]) != k {
        if KeyOfRow(added[i]) == k { AliveIsCounted(added, k, i); }
      }
    }
  }

  lemma KeptPositions(rows: seq<Row>, rows': seq<Row>, k: string, idx: seq<nat>)
    requires ArePositions(rows, k, idx) && |rows| <= |rows'|
    requires forall i :: 0 <= i < |rows| ==> KeyOfRow(rows'[i]) == KeyOfRow(rows[i])
    requires forall i :: |rows| <= i < |rows'| ==> KeyOfRow(rows'[i]) != k
    ensures ArePositions(rows', k, idx)
  {
    hide KeyOfRow;
  }

  lemma OneMorePosition(rows: seq<Row>, rows': seq<Row>, k: string, idx: seq<nat>, p: nat)
    requires ArePositions(rows, k, idx) && |rows| <= p < |rows'|
    requires forall i :: 0 <= i < |rows| ==> KeyOfRow(rows'[i]) == KeyOfRow(rows[i])
    requires forall i :: |rows| <= i < |rows'| ==> (KeyOfRow(rows'[i]) == k <==> i == p)
    ensures ArePositions(rows', k, idx + [p])
  {
    hide KeyOfRow;
    var more := idx + [p];
    assert more[|idx|] == p;
    forall i | 0 <= i < |rows| ensures i in more <==> i in idx {
      if i in idx {
        var j :| 0 <= j < |idx| && idx[j] == i;
        assert more[j] == i;
      }
    }
  }

  /** A row of the key is live exactly when its run reaches the last pass, which only the last run can. */
  lemma LiveIsLast(rows: seq<Row>, passes: seq<Pass>, k: string, spans: seq<Span>, idx: seq<nat>, i: nat)
    requires ArePositions(rows, k, idx) && AllTell(rows, passes, k, spans, idx) && AreTheRuns(passes, k, spans)
    requires i < |rows| && KeyOfRow(rows[i]) == k && Live(rows[i])
    ensures EndsAt(spans, |passes| - 1) && idx[|idx| - 1] == i
  {
    hide KeyOfRow, AreTheRuns, Worded;
    var j :| 0 <= j < |idx| && idx[j] == i;
    assert TellsOf(rows[idx[j]], passes, k, spans[j]);
    EndsExactlyWhenHolding(passes, k, spans);
  }

  lemma LiveExactlyWhenLasting(rows: seq<Row>, passes: seq<Pass>, k: string, spans: seq<Span>, idx: seq<nat>)
    requires ArePositions(rows, k, idx) && AllTell(rows, passes, k, spans, idx) && AreTheRuns(passes, k, spans)
    ensures LiveCount(rows, k) > 0 <==> EndsAt(spans, |passes| - 1)
  {
    hide KeyOfRow, AreTheRuns, Worded, LiveCount;
    LiveCountPositive(rows, k);
    if i :| 0 <= i < |rows| && Live(rows[i]) && KeyOfRow(rows[i]) == k { LiveIsLast(rows, passes, k, spans, idx, i); }
    if EndsAt(spans, |passes| - 1) {
      var j := |idx| - 1;
      assert TellsOf(rows[idx[j]], passes, k, spans[j]);
    }
  }

  /** The j-th row of the key after a pass, if its run is over or ends now. */
  lemma CarriedTells(r: Row, r': Row, passes: seq<Pass>, pass: Pass, k: string, s: Span)
    requires TellsOf(r, passes, k, s) && Carried(r, r', pass.findings, pass.now)
    requires s.last < |passes| - 1 || !Found(pass.findings, k)
    ensures TellsOf(r', passes + [pass], k, s)
  {
    hide TellsOf, Carried, Found;
    SpanInside(r, passes, k, s);
    if s.last < |passes| - 1 { OverStays(r, r', passes, pass, k, s); } else { EndedResolves(r, r', passes, pass, k, s); }
  }

  lemma SpanInside(r: Row, passes: seq<Pass>, k: string, s: Span)
    requires TellsOf(r, passes, k, s)
    ensures s.last <= |passes| - 1
  {
  }

  /** What one pass does to the rows of a key, and to its runs. */
  lemma PassTells(t: Table, pass: Pass, passes: seq<Pass>, k: string, spans: seq<Span>, idx: seq<nat>) returns (idx': seq<nat>)
    requires ArePositions(t.rows, k, idx) && AllTell(t.rows, passes, k, spans, idx) && AreTheRuns(passes, k, spans)
    ensures var rows := Reconcile(t, pass.findings, pass.now).rows;
      ArePositions(rows, k, idx') &&
      AllTell(rows, passes + [pass], k, NextSpans(spans, |passes|, Found(pass.findings, k)), idx')
  {
    hide Reconcile, OpenedBy, LiveCount, Carried, Newborn, TellsOf, KeyOfRow, AreTheRuns, Found, IsLatest;
    var t' := Reconcile(t, pass.findings, pass.now);
    var added := OpenedBy(t, pass.findings, pass.now);
    ReconcileKeepsHistory(t, pass.findings, pass.now);
    forall i | 0 <= i < |t.rows| ensures KeyOfRow(t'.rows[i]) == KeyOfRow(t.rows[i]) {
      CarriedRow(t.rows[i], t'.rows[i], pass);
    }
    forall i | |t.rows| <= i < |t'.rows| ensures t'.rows[i] == added[i - |t.rows|] {}
    LiveExactlyWhenLasting(t.rows, passes, k, spans, idx);
    EndsExactlyWhenHolding(passes, k, spans);
    var q := OpenedOfKey(t, pass, k);
    var after := NextSpans(spans, |passes|, Found(pass.findings, k));
    forall j | 0 <= j < |idx| && (j < |idx| - 1 || !EndsAt(spans, |passes| - 1) || !Found(pass.findings, k))
      ensures TellsOf(t'.rows[idx[j]], passes + [pass], k, spans[j])
    {
      SpanInside(t.rows[idx[j]], passes, k, spans[j]);
      CarriedTells(t.rows[idx[j]], t'.rows[idx[j]], passes, pass, k, spans[j]);
    }
    if Found(pass.findings, k) && !EndsAt(spans, |passes| - 1) {
      idx' := idx + [|t.rows| + q];
      OneMorePosition(t.rows, t'.rows, k, idx, |t.rows| + q);
      NewRunTells(added[q], t.nextId + q, passes, pass);
    } else {
      idx' := idx;
      KeptPositions(t.rows, t'.rows, k, idx);
      if Found(pass.findings, k) { LastGoesOn(t, pass, passes, k, spans, idx); }
    }
  }

  lemma LastGoesOn(t: Table, pass: Pass, passes: seq<Pass>, k: string, spans: seq<Span>, idx: seq<nat>)
    requires ArePositions(t.rows, k, idx) && AllTell(t.rows, passes, k, spans, idx) && AreTheRuns(passes, k, spans)
    requires EndsAt(spans, |passes| - 1) && Found(pass.findings, k)
    ensures var rows := Reconcile(t, pass.findings, pass.now).rows;
      idx != [] && idx[|idx| - 1] < |rows| &&
      TellsOf(rows[idx[|idx| - 1]], passes + [pass], k, Span(spans[|spans| - 1].first, |passes|))
  {
    hide Reconcile, OpenedBy, LiveCount, Carried, Newborn, TellsOf, KeyOfRow, AreTheRuns, Found, IsLatest;
    var t' := Reconcile(t, pass.findings, pass.now);
    var added := OpenedBy(t, pass.findings, pass.now);
    ReconcileKeepsHistory(t, pass.findings, pass.now);
    OneLiveRowPerFinding(t, pass.findings, pass.now, k);
    LiveExactlyWhenLasting(t.rows, passes, k, spans, idx);
    var q := OpenedOfKey(t, pass, k);
    LiveCountPositive(t'.rows, k);
    var i :| 0 <= i < |t'.rows| && Live(t'.rows[i]) && KeyOfRow(t'.rows[i]) == k;
    assert forall p :: |t.rows| <= p < |t'.rows| ==> t'.rows[p] == added[p - |t.rows|];
    CarriedRow(t.rows[i], t'.rows[i], pass);
    LiveIsLast(t.rows, passes, k, spans, idx, i);
    GoesOn(t.rows[i], t'.rows[i], passes, pass, k, spans[|spans| - 1]);
  }

  // ---- whole histories -------------------------------------------------------

  /**
   * The table is the condition's history.  However passes, expiries,
   * acknowledgements and snoozes are interleaved, the rows of a condition are, in
   * order, exactly its maximal runs of passes: each keeps its run's two ends, its
   * length and its last words, and is live or was resolved at the first pass
   * without the condition.
   */
  lemma {:induction false} RowsAreTheRuns(events: seq<Event>, k: string) returns (idx: seq<nat>)
    ensures ArePositions(After(events).rows, k, idx)
    ensures AllTell(After(events).rows, Passes(events), k, Spans(Passes(events), k), idx)
    ensures AreTheRuns(Passes(events), k, Spans(Passes(events), k))
  {
    hide Reconcile, MovedAll, AllTell, ArePositions, AreTheRuns, NextSpans, Spans;
    SpansAreTheRuns(Passes(events), k);
    if events == [] {
      idx := [];
      NothingHappened(k);
    } else {
      var front, e := Front(events), Final(events);
      var passes, t := Passes(front), After(front);
      idx := RowsAreTheRuns(front, k);
      if e.Reconciled? {
        var pass := Pass(e.findings, e.now);
        SpansOfOneMore(passes, pass, k);
        idx := PassTells(t, pass, passes, k, Spans(passes, k), idx);
      } else {
        assert Passes(events) == passes;
        MovesKeepTelling(t.rows, e, passes, k, Spans(passes, k), idx);
      }
    }
  }

  lemma SpansOfOneMore(passes: seq<Pass>, pass: Pass, k: string)
    ensures Spans(passes + [pass], k) == NextSpans(Spans(passes, k), |passes|, Found(pass.findings, k))
  {
    hide NextSpans, Found;
    assert (passes + [pass])[..|passes|] == passes;
  }

  lemma NothingHappened(k: string)
    ensures ArePositions(After([]).rows, k, []) && AllTell(After([]).rows, Passes([]), k, Spans(Passes([]), k), [])
  {
  }
}
