// DeviceRepair: the journal's promise from the first change to the last repair,
// and the one kind of entry that can stand in its way.

module DeviceRepair {
  import opened Text
  import opened DeviceState
  import opened DeviceSafety
  import opened DeviceOutcomes
  import opened DeviceSweep
  import opened DeviceRuns

  // ---- entries that can be put back ------------------------------------------

  /** No entry records an unset simctl ui value, to which there is no way back. */
  ghost predicate WaysBack(journal: map<string, Entry>) {
    forall k, n :: k in journal && n in journal[k].prior.at && IsSimctlUi(n) ==> journal[k].prior.at[n].Some?
  }

  lemma WithinWaysBack(j: map<string, Entry>, j': map<string, Entry>)
    requires WaysBack(j') && Within(j, j')
    ensures WaysBack(j)
  {
  }

  lemma OverwriteKeepsWaysBack(w: World, t: Target, d: Domain, wanted: Record<string>, e: Entry)
    requires WaysBack(w.journal) && IsEntryFor(e, w, t, d, wanted) && Journals(w, t, wanted)
    ensures WaysBack(Overwrite(w, t, d, e).journal)
  {
    forall n | n in e.prior.at && IsSimctlUi(n) ensures e.prior.at[n].Some? { assert n in wanted.order; }
  }

  /** applyState refuses what would break this, before it writes an entry. */
  lemma ApplyKeepsWaysBack(w: World, t: Target, d: Domain, wanted: Record<string>)
    requires WellFormed(wanted) && Readable(w.journal) && WaysBack(w.journal)
    ensures WaysBack(Apply(w, t, d, wanted).w.journal)
  {
    hide Apply, ApplyJournalled, Journals;
    var e, script := ApplyIs(w, t, d, wanted);
    var r := Apply(w, t, d, wanted);
    if !(r.w.device == w.device && r.w.journal == w.journal) {
      OverwriteKeepsWaysBack(w, t, d, wanted, e);
      OverwriteReadable(w, t, d, wanted, e);
      var w1 := Overwrite(w, t, d, e).(script := script);
      ApplyJournalledEnds(w1, t, d, wanted);
      assert Within(r.w.journal, w1.journal);
      WithinWaysBack(r.w.journal, w1.journal);
    }
  }

  lemma StepKeepsWaysBack(h: History, ev: Event)
    requires Readable(h.w.journal) && Legible(ev) && WaysBack(h.w.journal)
    ensures WaysBack(Happen(h, ev).w.journal)
  {
    hide Apply, Restore, WithState, Sweep, WaysBack;
    var w := h.w.(script := ev.script);
    match ev.op
    case ApplyOp(t, d, wanted) => ApplyKeepsWaysBack(w, t, d, wanted);
    case WithStateOp(t, d, wanted, fn) =>
      ApplyKeepsWaysBack(w, t, d, wanted);
      WithStateWithin(w, t, d, wanted, fn);
      WithinWaysBack(WithState(w, t, d, wanted, fn).w.journal, Apply(w, t, d, wanted).w.journal);
    case RestoreOp(t, d) =>
      RestoreWithin(w, t, d);
      WithinWaysBack(Restore(w, t, d).w.journal, w.journal);
    case SweepOp(targets) =>
      SweepKeepsWaysBack(w, targets);
    case OutsideOp(_, _) =>
  }

  lemma SweepKeepsWaysBack(w: World, targets: seq<Target>)
    requires Readable(w.journal) && WaysBack(w.journal)
    ensures WaysBack(Sweep(w, targets).w.journal)
  {
    hide SweepFrom, WaysBack;
    SweepWithin(w, targets, 0, []);
    WithinWaysBack(Sweep(w, targets).w.journal, w.journal);
  }

  /** Over every run whatever, disciplined or not, no entry is written that simctl could never satisfy. */
  lemma {:induction false} NoRunWritesAnImpossibleEntry(h: History, events: seq<Event>)
    requires Readable(h.w.journal) && AllLegible(events) && WaysBack(h.w.journal)
    ensures WaysBack(After(h, events).w.journal)
    decreases |events|
  {
    hide Happen, WaysBack;
    if events != [] {
      StepKeepsWaysBack(h, events[0]);
      NoRunWritesAnImpossibleEntry(Happen(h, events[0]), events[1..]);
    }
  }

  /** The device's display entry records night mode as unset, and it does not read as unset. */
  predicate NightIsStuck(w: World, id: string) {
    var s := Slot(id, UiModeNight);
    Holds(w.journal, Display, s) && Prior(w.journal, Display, s).None? && !Same(Get(w.device, s), None)
  }

  lemma NightAlone(w: World, d: Domain, id: string, n: SettingName)
    requires WaysBack(w.journal) && Owned(w.journal) && KeyOf(d, id) in w.journal
    requires n in w.journal[KeyOf(d, id)].prior.at
    ensures Restorable(w.device, id, n, w.journal[KeyOf(d, id)].prior.at[n]) <==>
      !(d == Display && n == UiModeNight && NightIsStuck(w, id))
  {
    hide Same;
    assert Holds(w.journal, d, Slot(id, n));
    if n == UiModeNight { assert OwnerOf(n) == Display; }
  }

  /** That is the only thing that can keep an entry from being put back. */
  lemma UnclearableExactlyWhenNightIsStuck(w: World, d: Domain, id: string)
    requires WaysBack(w.journal) && Owned(w.journal) && KeyOf(d, id) in w.journal
    ensures Clearable(w, d, id) <==> !(d == Display && NightIsStuck(w, id))
  {
    hide Restorable, Same, WaysBack, Owned;
    forall n | n in w.journal[KeyOf(d, id)].prior.at
      ensures Restorable(w.device, id, n, w.journal[KeyOf(d, id)].prior.at[n]) <==>
        !(d == Display && n == UiModeNight && NightIsStuck(w, id))
    {
      NightAlone(w, d, id, n);
    }
  }

  // ---- one sweep -------------------------------------------------------------

  lemma HappenKeepsOwned(h: History, events: seq<Event>)
    requires Readable(h.w.journal) && Owned(h.w.journal) && AllLegible(events) && DisciplinedRun(h, events)
    ensures Owned(After(h, events).w.journal)
    decreases |events|
  {
    hide Happen, Careful, Disciplined, Owned;
    if events != [] {
      DisciplinedStep(h, events[0]);
      HappenKeepsOwned(Happen(h, events[0]), events[1..]);
    }
  }

  lemma OwnedIsDisjoint(journal: map<string, Entry>, d: Domain, id: string)
    requires Owned(journal)
    ensures Disjoint(journal, d, id)
  {
    KeysApart(d, id, Other(d), id);
  }

  /** Any sweep that lets go of a device's entries leaves each of its settings at its original. */
  lemma SweptSettingIsOriginal(orig: map<Slot, string>, w: World, targets: seq<Target>, s: Slot)
    requires Safe(orig, w) && Owned(w.journal)
    requires forall d :: KeyOf(d, s.id) !in Sweep(w, targets).w.journal
    ensures Same(Get(Sweep(w, targets).w.device, s), Get(orig, s))
  {
    hide Same, SweepFrom;
    assert Kept(orig, w.device, w.journal, s);
    if d :| Holds(w.journal, d, s) {
      OwnedIsDisjoint(w.journal, d, s.id);
      assert s == Slot(s.id, s.name);
      SweepDropsOnlyVerified(w, targets, 0, [], d, s.id, s.name);
      HeldIsOriginal(orig, w, d, s);
      SameThrough(Get(Sweep(w, targets).w.device, s), Prior(w.journal, d, s), Get(orig, s));
    } else {
      SweepLeavesUnheld(w, targets, 0, [], s);
      UnheldIsOriginal(orig, w, s);
    }
  }

  lemma HeldIsOriginal(orig: map<Slot, string>, w: World, d: Domain, s: Slot)
    requires Safe(orig, w) && Holds(w.journal, d, s)
    ensures Same(Prior(w.journal, d, s), Get(orig, s))
  {
    assert Kept(orig, w.device, w.journal, s);
  }

  lemma UnheldIsOriginal(orig: map<Slot, string>, w: World, s: Slot)
    requires Safe(orig, w) && forall d :: !Holds(w.journal, d, s)
    ensures Same(Get(w.device, s), Get(orig, s))
  {
    assert Kept(orig, w.device, w.journal, s);
  }

  /** One sweep with working tools, for one device: which of its entries it leaves. */
  lemma SweptEntry(w: World, targets: seq<Target>, m: nat, t: Target, d: Domain)
    requires WaysBack(w.journal) && Owned(w.journal) && Ready(w, targets, 0, m)
    requires t in targets && Reachable(targets, t.id)
    ensures Sweep(w, targets).out.Returned?
    ensures KeyOf(d, t.id) in Sweep(w, targets).w.journal <==> d == Display && NightIsStuck(w, t.id)
  {
    hide SweepFrom, Clearable, Owned, WaysBack, Same, Ready, Visits;
    OwnedIsDisjoint(w.journal, d, t.id);
    SweepVisitsAttached(targets, d, t.id);
    SweepClearsExactlyWhen(w, targets, 0, [], m, d, t.id);
    ReadyIsReadable(w, targets, 0, m);
    if KeyOf(d, t.id) in w.journal { UnclearableExactlyWhenNightIsStuck(w, d, t.id); }
  }

  lemma ReadyIsReadable(w: World, targets: seq<Target>, i: nat, m: nat)
    requires i <= 2 * |targets| && Ready(w, targets, i, m)
    ensures Readable(w.journal)
  {
  }

  /**
   * The promise of the journal, end to end.  After any disciplined run from an
   * empty journal - tools that lie or fail, crashes anywhere - one sweep with
   * working tools leaves an attached, manageable device without an entry exactly
   * when no null night mode is stuck; and then every setting of it is at its last
   * unmanaged value.
   */
  lemma OneSweepRepairsTheDevice(device: map<Slot, string>, events: seq<Event>, script: seq<Io>,
                                 targets: seq<Target>, m: nat, t: Target, s: Slot)
    requires AllLegible(events) && DisciplinedRun(History(World(device, map[], []), device), events)
    requires Ready(After(History(World(device, map[], []), device), events).w.(script := script), targets, 0, m)
    requires t in targets && Reachable(targets, t.id) && s.id == t.id
    ensures var h := After(History(World(device, map[], []), device), events);
      var w := h.w.(script := script);
      var swept := Sweep(w, targets);
      swept.out.Returned? &&
      ((forall d :: KeyOf(d, t.id) !in swept.w.journal) <==> !NightIsStuck(w, t.id)) &&
      (!NightIsStuck(w, t.id) ==> Same(Get(swept.w.device, s), Get(h.orig, s)))
  {
    hide SweepFrom, After, Owned, WaysBack, Safe, CarefulRun, DisciplinedRun, Same, NightIsStuck, Ready, AllLegible;
    var h0 := History(World(device, map[], []), device);
    var h := After(h0, events);
    var w := h.w.(script := script);
    EmptyIsSafe(device);
    DisciplinedRunIsCareful(h0, events);
    NoRunLosesAnOriginal(h0, events, s);
    HappenKeepsOwned(h0, events);
    NoRunWritesAnImpossibleEntry(h0, events);
    ScriptKeepsSafe(h.orig, h.w, w);
    SweptEntry(w, targets, m, t, Locale);
    SweptEntry(w, targets, m, t, Display);
    if !NightIsStuck(w, t.id) {
      forall d ensures KeyOf(d, t.id) !in Sweep(w, targets).w.journal { assert d == Locale || d == Display; }
      SweptSettingIsOriginal(h.orig, w, targets, s);
    }
  }

  lemma EmptyIsSafe(device: map<Slot, string>)
    ensures Safe(device, World(device, map[], [])) && Owned(map[]) && WaysBack(map[])
  {
  }
}
