// DeviceOutcomes: what applyState, withState and the startup sweep leave behind, case by case.

module DeviceOutcomes {
  import opened Text
  import opened DeviceState
  import opened DeviceSafety

  // ---- apply is all-or-journalled --------------------------------------------

  /** Domain d's entry for the target is gone, and everything it named reads as it recorded. */
  predicate PutBack(w: World, w': World, t: Target, d: Domain) {
    KeyOf(d, t.id) in w.journal && w'.journal == w.journal - {KeyOf(d, t.id)} &&
    forall n :: n in w.journal[KeyOf(d, t.id)].prior.at ==>
      Same(Get(w'.device, Slot(t.id, n)), w.journal[KeyOf(d, t.id)].prior.at[n])
  }

  /** Settings the target's entry for d does not name are as they were. */
  ghost predicate OnlyHeldChanged(w: World, w': World, t: Target, d: Domain) {
    forall s: Slot :: !(s.id == t.id && Holds(w.journal, d, s)) ==> Get(w'.device, s) == Get(w.device, s)
  }

  lemma TouchedOnlyHeld(w: World, w': World, t: Target, d: Domain)
    requires KeyOf(d, t.id) in w.journal && WellFormed(w.journal[KeyOf(d, t.id)].prior)
    requires Touched(w, w', t.id, w.journal[KeyOf(d, t.id)].prior.order, 0)
    ensures OnlyHeldChanged(w, w', t, d)
  {
    var names := w.journal[KeyOf(d, t.id)].prior.order;
    forall s: Slot | !(s.id == t.id && Holds(w.journal, d, s)) ensures Get(w'.device, s) == Get(w.device, s) {
      assert s.id != t.id || s.name !in names[0..];
    }
  }

  /** restoreState: nothing but the entry's settings moves, and the entry goes only with all of them back. */
  lemma RestoreEnds(w: World, t: Target, d: Domain)
    requires Readable(w.journal)
    ensures var r := Restore(w, t, d);
      OnlyHeldChanged(w, r.w, t, d) &&
      (r.w.journal == w.journal || PutBack(w, r.w, t, d)) &&
      (r.out.Crashed? ==> r.w.journal == w.journal) &&
      (r.out.Threw? ==> r.w.journal == w.journal) &&
      (r.out.Returned? ==> KeyOf(d, t.id) !in r.w.journal)
  {
    hide RestoreFrom;
    var k := KeyOf(d, t.id);
    if k in w.journal && Manageable(t) {
      var prior := w.journal[k].prior;
      var r := RestoreFrom(w, t.id, prior, 0, Tally(false, []));
      RestoreFromTouches(w, t.id, prior, 0, Tally(false, []));
      TouchedOnlyHeld(w, r.w, t, d);
      if r.out.Returned? && r.out.value.problems == [] {
        forall n | n in prior.at ensures Same(Get(r.w.device, Slot(t.id, n)), prior.at[n]) {
          assert n in prior.order;
        }
      }
    }
  }

  /** How the part of applyState after the journal write may end. */
  ghost predicate Ended(w: World, r: Step<()>, t: Target, d: Domain) {
    OnlyHeldChanged(w, r.w, t, d) &&
    (if r.out.Threw? then r.w.journal == w.journal || PutBack(w, r.w, t, d) else r.w.journal == w.journal)
  }

  /** A step that moved only held settings, followed by an ending, is an ending. */
  lemma EndedAfter(w: World, w1: World, r: Step<()>, t: Target, d: Domain)
    requires w1.journal == w.journal && OnlyHeldChanged(w, w1, t, d) && Ended(w1, r, t, d)
    ensures Ended(w, r, t, d)
  {
    forall s: Slot | !(s.id == t.id && Holds(w.journal, d, s)) ensures Get(r.w.device, s) == Get(w.device, s) {
      assert Get(w1.device, s) == Get(w.device, s);
    }
  }

  lemma WriteOnlyHeld(w: World, t: Target, d: Domain, n: SettingName, v: Value)
    requires Holds(w.journal, d, Slot(t.id, n))
    ensures OnlyHeldChanged(w, Write(w, t.id, n, v).w, t, d)
  {
    WriteTouches(w, t.id, n, v);
  }

  lemma {:induction false} WriteAllEnds(w: World, t: Target, d: Domain, wanted: Record<string>, i: nat)
    requires i <= |wanted.order| && WellFormed(wanted) && Readable(w.journal)
    requires AllHeld(w.journal, d, t.id, wanted.order)
    ensures Ended(w, WriteAll(w, t, d, wanted, i), t, d)
    decreases |wanted.order| - i
  {
    hide Restore, Write;
    if i < |wanted.order| {
      var n := wanted.order[i];
      var v := Some(wanted.at[n]);
      var r := Write(w, t.id, n, v);
      WriteTouches(w, t.id, n, v);
      WriteOnlyHeld(w, t, d, n, v);
      match r.out
      case Crashed =>
      case Threw(_) =>
        RestoreEnds(r.w, t, d);
        EndedAfter(w, r.w, Undo(r.w, t, d, CouldNotSet(n)), t, d);
      case Returned(_) =>
        WriteAllEnds(r.w, t, d, wanted, i + 1);
        EndedAfter(w, r.w, WriteAll(r.w, t, d, wanted, i + 1), t, d);
    }
  }

  lemma {:induction false} VerifyAllEnds(w: World, t: Target, d: Domain, wanted: Record<string>, i: nat)
    requires i <= |wanted.order| && WellFormed(wanted) && Readable(w.journal)
    ensures Ended(w, VerifyAll(w, t, d, wanted, i), t, d)
    decreases |wanted.order| - i
  {
    hide Restore;
    if i < |wanted.order| {
      var n := wanted.order[i];
      var r := Read(w, t.id, n);
      if r.out.Threw? {
        RestoreEnds(r.w, t, d);
        EndedAfter(w, r.w, Undo(r.w, t, d, CouldNotVerify(n)), t, d);
      } else if r.out.Returned? && !Same(r.out.value, Some(wanted.at[n])) {
        RestoreEnds(r.w, t, d);
        EndedAfter(w, r.w, Undo(r.w, t, d, DidNotTake(n, r.out.value)), t, d);
      } else if r.out.Returned? {
        VerifyAllEnds(r.w, t, d, wanted, i + 1);
        EndedAfter(w, r.w, VerifyAll(r.w, t, d, wanted, i + 1), t, d);
      }
    }
  }

  /** A read-back pass that returns found every setting as asked for, and changed none. */
  lemma {:induction false} VerifyAllChecks(w: World, t: Target, d: Domain, wanted: Record<string>, i: nat)
    requires i <= |wanted.order| && WellFormed(wanted) && Readable(w.journal)
    requires VerifyAll(w, t, d, wanted, i).out.Returned?
    ensures VerifyAll(w, t, d, wanted, i).w.device == w.device
    ensures forall n :: n in wanted.order[i..] ==> Same(Get(w.device, Slot(t.id, n)), Some(wanted.at[n]))
    decreases |wanted.order| - i
  {
    hide Same;
    hide Undo;
    if i < |wanted.order| {
      var r := Read(w, t.id, wanted.order[i]);
      VerifyAllChecks(r.w, t, d, wanted, i + 1);
      assert wanted.order[i..] == [wanted.order[i]] + wanted.order[i + 1..];
    }
  }

  lemma ApplyJournalledEnds(w: World, t: Target, d: Domain, wanted: Record<string>)
    requires WellFormed(wanted) && Readable(w.journal) && AllHeld(w.journal, d, t.id, wanted.order)
    ensures var r := ApplyJournalled(w, t, d, wanted);
      Ended(w, r, t, d) &&
      (r.out.Returned? ==> forall n :: n in wanted.at ==> Same(Get(r.w.device, Slot(t.id, n)), Some(wanted.at[n])))
  {
    WriteAllEnds(w, t, d, wanted, 0);
    var wrote := WriteAll(w, t, d, wanted, 0);
    if wrote.out.Returned? {
      var verified := VerifyAll(wrote.w, t, d, wanted, 0);
      VerifyAllEnds(wrote.w, t, d, wanted, 0);
      EndedAfter(w, wrote.w, verified, t, d);
      if verified.out.Returned? { VerifyAllChecks(wrote.w, t, d, wanted, 0); }
    }
  }

  ghost predicate Untouched(w: World, w': World) {
    w'.device == w.device && w'.journal == w.journal
  }

  /** The journal is the old one with the target's entry set to the values the device had. */
  ghost predicate Journalled(w: World, w': World, t: Target, d: Domain, wanted: Record<string>) {
    KeyOf(d, t.id) in w'.journal &&
    IsEntryFor(w'.journal[KeyOf(d, t.id)], w, t, d, wanted) &&
    w'.journal == w.journal[KeyOf(d, t.id) := w'.journal[KeyOf(d, t.id)]]
  }

  /** Journalled, and every setting asked for reads back as asked. */
  ghost predicate Applied(w: World, w': World, t: Target, d: Domain, wanted: Record<string>) {
    Journalled(w, w', t, d, wanted) &&
    forall n :: n in wanted.at ==> Same(Get(w'.device, Slot(t.id, n)), Some(wanted.at[n]))
  }

  /** No entry is left, and every setting asked for reads as it did before the call. */
  ghost predicate Undone(w: World, w': World, t: Target, d: Domain, wanted: Record<string>) {
    w'.journal == w.journal - {KeyOf(d, t.id)} &&
    forall n :: n in wanted.order ==> Same(Get(w'.device, Slot(t.id, n)), Get(w.device, Slot(t.id, n)))
  }

  /**
   * applyState is all or journalled: a return means every wanted setting read
   * back and the entry holds every prior; an exception leaves everything
   * untouched, or the device put back with no entry, or the entry in place; a
   * crash never leaves a changed device without its entry.
   */
  lemma ApplyIsAllOrJournalled(w: World, t: Target, d: Domain, wanted: Record<string>)
    requires WellFormed(wanted) && Readable(w.journal)
    ensures var r := Apply(w, t, d, wanted);
      (forall s: Slot :: s.id != t.id || s.name !in wanted.order ==> Get(r.w.device, s) == Get(w.device, s)) &&
      match r.out
      case Returned(_) =>
        if wanted.order == [] then Untouched(w, r.w)
        else Applied(w, r.w, t, d, wanted)
      case Threw(_) => Untouched(w, r.w) || Journalled(w, r.w, t, d, wanted) || Undone(w, r.w, t, d, wanted)
      case Crashed => Untouched(w, r.w) || Journalled(w, r.w, t, d, wanted)
  {
    hide Apply, ApplyJournalled;
    var r := Apply(w, t, d, wanted);
    var e, script := ApplyIs(w, t, d, wanted);
    if !Untouched(w, r.w) || (r.out.Returned? && wanted.order != []) {
      var w1 := Overwrite(w, t, d, e).(script := script);
      OverwriteReadable(w, t, d, wanted, e);
      ApplyJournalledEnds(w1, t, d, wanted);
      forall s: Slot | s.id != t.id || s.name !in wanted.order ensures Get(r.w.device, s) == Get(w.device, s) {
        OverwriteHolds(w, t, d, e, s);
      }
      if r.w.journal == w1.journal {
        assert Journalled(w, r.w, t, d, wanted);
      } else {
        assert w1.journal[KeyOf(d, t.id)] == e;
        assert r.w.journal == w.journal - {KeyOf(d, t.id)};
      }
    }
  }

  // ---- restore against tools that work ---------------------------------------

  /** Some write puts this value back: only night mode and simctl ui cannot be unset. */
  predicate CanReturn(n: SettingName, v: Value) {
    v.Some? || !(IsSimctlUi(n) || n.UiModeNight?)
  }

  /** The setting reads as its prior already, or can be made to. */
  predicate Restorable(device: map<Slot, string>, id: string, n: SettingName, prior: Value) {
    Same(Get(device, Slot(id, n)), prior) || CanReturn(n, prior)
  }

  predicate EntryRestorable(device: map<Slot, string>, id: string, e: Entry) {
    forall n :: n in e.prior.at ==> Restorable(device, id, n, e.prior.at[n])
  }

  lemma NightNoIsNotUnset()
    ensures !Same(Some("no"), None)
  {
    assert Trim("no") == "no";
    assert |Normalise(Some("no"))| == 2 && |Normalise(None)| == 0;
  }

  /** At least k calls are left to make, and all of them work. */
  ghost predicate Working(script: seq<Io>, k: nat) {
    AllWork(script) && k <= |script|
  }

  lemma WorkingTail(script: seq<Io>, k: nat)
    requires Working(script, k + 1)
    ensures script[0] == Works && Working(script[1..], k)
  {
  }

  lemma RestoreOneWorks(w: World, id: string, n: SettingName, want: Value, k: nat)
    requires Working(w.script, k + 3)
    ensures var r := RestoreOne(w, id, n, want);
      Working(r.w.script, k) && r.out.Returned? && r.w.journal == w.journal &&
      (forall s :: s != Slot(id, n) ==> Get(r.w.device, s) == Get(w.device, s)) &&
      (r.out.value.problems == [] <==> Restorable(w.device, id, n, want)) &&
      (Same(Get(r.w.device, Slot(id, n)), want) <==> Restorable(w.device, id, n, want))
  {
    NightNoIsNotUnset();
    RestoreOneTouches(w, id, n, want);
    WorkingTail(w.script, k + 2);
    WorkingTail(w.script[1..], k + 1);
    WorkingTail(w.script[1..][1..], k);
  }

  lemma {:induction false} RestoreFromReturns(w: World, id: string, prior: Record<Value>, i: nat, tally: Tally, k: nat)
    requires i <= |prior.order| && WellFormed(prior)
    requires Working(w.script, k + 3 * (|prior.order| - i))
    ensures var r := RestoreFrom(w, id, prior, i, tally);
      Working(r.w.script, k) && r.out.Returned?
    decreases |prior.order| - i
  {
    if i < |prior.order| {
      var n := prior.order[i];
      var one := RestoreOne(w, id, n, prior.at[n]);
      RestoreOneWorks(w, id, n, prior.at[n], k + 3 * (|prior.order| - i - 1));
      RestoreFromReturns(one.w, id, prior, i + 1,
        Tally(tally.changed || one.out.value.changed, tally.problems + one.out.value.problems), k);
    }
  }

  /** Every setting of the entry from position i on is restorable. */
  predicate RestRestorable(device: map<Slot, string>, id: string, prior: Record<Value>, i: nat)
    requires i <= |prior.order| && forall n :: n in prior.order ==> n in prior.at
    decreases |prior.order| - i
  {
    i == |prior.order| ||
    (Restorable(device, id, prior.order[i], prior.at[prior.order[i]]) && RestRestorable(device, id, prior, i + 1))
  }

  lemma {:induction false} RestRestorableFrame(device: map<Slot, string>, device': map<Slot, string>, id: string, prior: Record<Value>, i: nat)
    requires i <= |prior.order| && WellFormed(prior)
    requires forall n :: n in prior.order[i..] ==> Get(device', Slot(id, n)) == Get(device, Slot(id, n))
    ensures RestRestorable(device', id, prior, i) <==> RestRestorable(device, id, prior, i)
    decreases |prior.order| - i
  {
    if i < |prior.order| {
      assert prior.order[i..] == [prior.order[i]] + prior.order[i + 1..];
      RestRestorableFrame(device, device', id, prior, i + 1);
    }
  }

  lemma {:induction false} RestRestorableIs(device: map<Slot, string>, id: string, prior: Record<Value>, i: nat)
    requires i <= |prior.order| && WellFormed(prior)
    ensures RestRestorable(device, id, prior, i) <==>
      forall n :: n in prior.order[i..] ==> Restorable(device, id, n, prior.at[n])
    decreases |prior.order| - i
  {
    if i < |prior.order| {
      assert prior.order[i..] == [prior.order[i]] + prior.order[i + 1..];
      RestRestorableIs(device, id, prior, i + 1);
    }
  }

  lemma {:induction false} RestoreFromWorks(w: World, id: string, prior: Record<Value>, i: nat, tally: Tally)
    requires i <= |prior.order| && WellFormed(prior)
    requires Working(w.script, 3 * (|prior.order| - i))
    ensures var r := RestoreFrom(w, id, prior, i, tally);
      r.out.Returned? &&
      (r.out.value.problems == [] <==> tally.problems == [] && RestRestorable(w.device, id, prior, i))
    decreases |prior.order| - i
  {
    hide RestoreOne;
    if i < |prior.order| {
      var n := prior.order[i];
      var one := RestoreOne(w, id, n, prior.at[n]);
      RestoreOneWorks(w, id, n, prior.at[n], 3 * (|prior.order| - i - 1));
      RestoreFromWorks(one.w, id, prior, i + 1,
        Tally(tally.changed || one.out.value.changed, tally.problems + one.out.value.problems));
      assert n !in prior.order[i + 1..];
      RestRestorableFrame(w.device, one.w.device, id, prior, i + 1);
    }
  }

  lemma {:induction false} RestoreFromSettles(w: World, id: string, prior: Record<Value>, i: nat, tally: Tally, n: SettingName)
    requires i <= |prior.order| && WellFormed(prior) && n in prior.order[i..]
    requires Working(w.script, 3 * (|prior.order| - i))
    ensures var r := RestoreFrom(w, id, prior, i, tally);
      Same(Get(r.w.device, Slot(id, n)), prior.at[n]) <==> Restorable(w.device, id, n, prior.at[n])
    decreases |prior.order| - i
  {
    hide RestoreOne;
    var m := prior.order[i];
    var one := RestoreOne(w, id, m, prior.at[m]);
    RestoreOneWorks(w, id, m, prior.at[m], 3 * (|prior.order| - i - 1));
    var tally' := Tally(tally.changed || one.out.value.changed, tally.problems + one.out.value.problems);
    assert m !in prior.order[i + 1..];
    if n == m {
      RestoreFromTouches(one.w, id, prior, i + 1, tally');
    } else {
      assert n in prior.order[i + 1..];
      RestoreFromSettles(one.w, id, prior, i + 1, tally', n);
    }
  }

  /** Calls one restore of this entry can make. */
  function Cost(e: Entry): nat {
    3 * |e.prior.order| + 1
  }

  /**
   * With working tools a restore clears the entry exactly when every setting
   * in it already reads as recorded or can be made to, and trying and failing
   * does not change which of the two it is.
   */
  lemma RestoreClearsExactlyWhen(w: World, t: Target, d: Domain, k: nat)
    requires Readable(w.journal) && KeyOf(d, t.id) in w.journal && Manageable(t)
    requires Working(w.script, k + Cost(w.journal[KeyOf(d, t.id)]))
    ensures var e := w.journal[KeyOf(d, t.id)]; var r := Restore(w, t, d);
      !r.out.Crashed? && Working(r.w.script, k) &&
      (r.out.Returned? <==> EntryRestorable(w.device, t.id, e)) &&
      r.w.journal == (if EntryRestorable(w.device, t.id, e) then w.journal - {KeyOf(d, t.id)} else w.journal) &&
      (!EntryRestorable(w.device, t.id, e) ==> !EntryRestorable(r.w.device, t.id, e)) &&
      (EntryRestorable(w.device, t.id, e) ==>
        forall n :: n in e.prior.at ==> Same(Get(r.w.device, Slot(t.id, n)), e.prior.at[n]))
  {
    var prior := w.journal[KeyOf(d, t.id)].prior;
    RestoreFromReturns(w, t.id, prior, 0, Tally(false, []), k + 1);
    RestoreFromWorks(w, t.id, prior, 0, Tally(false, []));
    RestRestorableIs(w.device, t.id, prior, 0);
    assert prior.order[0..] == prior.order;
    var r := RestoreFrom(w, t.id, prior, 0, Tally(false, []));
    forall n | n in prior.at
      ensures Restorable(r.w.device, t.id, n, prior.at[n]) <==> Restorable(w.device, t.id, n, prior.at[n])
      ensures Restorable(w.device, t.id, n, prior.at[n]) ==> Same(Get(r.w.device, Slot(t.id, n)), prior.at[n])
    {
      assert n in prior.order;
      RestoreFromSettles(w, t.id, prior, 0, Tally(false, []), n);
    }
  }

  // ---- what restore reports --------------------------------------------------

  /** The target's entry for d names a setting that does not read as recorded. */
  predicate Displaced(w: World, d: Domain, id: string) {
    KeyOf(d, id) in w.journal &&
    exists n :: n in w.journal[KeyOf(d, id)].prior.at &&
      !Same(Get(w.device, Slot(id, n)), w.journal[KeyOf(d, id)].prior.at[n])
  }

  predicate OneOff(device: map<Slot, string>, id: string, prior: Record<Value>, i: nat)
    requires i <= |prior.order| && forall n :: n in prior.order ==> n in prior.at
  {
    exists j :: i <= j < |prior.order| && !Same(Get(device, Slot(id, prior.order[j])), prior.at[prior.order[j]])
  }

  lemma RestoreOneReports(w: World, id: string, n: SettingName, want: Value)
    ensures var r := RestoreOne(w, id, n, want);
      r.out.Returned? && r.out.value.problems == [] ==>
        (r.out.value.changed <==> !Same(Get(w.device, Slot(id, n)), want))
  {
    hide Fix, Same;
  }

  lemma OneOffFrom(device: map<Slot, string>, device': map<Slot, string>, id: string, prior: Record<Value>, i: nat)
    requires i < |prior.order| && WellFormed(prior)
    requires forall s :: s != Slot(id, prior.order[i]) ==> Get(device', s) == Get(device, s)
    ensures OneOff(device, id, prior, i) <==>
      !Same(Get(device, Slot(id, prior.order[i])), prior.at[prior.order[i]]) || OneOff(device', id, prior, i + 1)
  {
    hide Same, Get;
    forall j | i < j < |prior.order| ensures Get(device', Slot(id, prior.order[j])) == Get(device, Slot(id, prior.order[j])) {
    }
  }

  lemma {:induction false} RestoreFromReports(w: World, id: string, prior: Record<Value>, i: nat, tally: Tally)
    requires i <= |prior.order| && WellFormed(prior)
    ensures var r := RestoreFrom(w, id, prior, i, tally);
      r.out.Returned? && r.out.value.problems == [] ==>
        (r.out.value.changed <==> tally.changed || OneOff(w.device, id, prior, i))
    decreases |prior.order| - i
  {
    hide RestoreOne, OneOff, Same;
    if i < |prior.order| {
      var n := prior.order[i];
      var one := RestoreOne(w, id, n, prior.at[n]);
      RestoreOneReports(w, id, n, prior.at[n]);
      RestoreOneTouches(w, id, n, prior.at[n]);
      if one.out.Returned? {
        var tally' := Tally(tally.changed || one.out.value.changed, tally.problems + one.out.value.problems);
        RestoreFromReports(one.w, id, prior, i + 1, tally');
        RestoreFromTouches(one.w, id, prior, i + 1, tally');
        OneOffFrom(w.device, one.w.device, id, prior, i);
      }
    } else {
      NoneOff(w.device, id, prior);
    }
  }

  lemma NoneOff(device: map<Slot, string>, id: string, prior: Record<Value>)
    requires forall n :: n in prior.order ==> n in prior.at
    ensures !OneOff(device, id, prior, |prior.order|)
  {
  }

  /** Whatever the environment, a restore that returns says true exactly when the device needed repair. */
  lemma RestoreReportsRepair(w: World, t: Target, d: Domain)
    requires Readable(w.journal)
    ensures Restore(w, t, d).out.Returned? ==> (Restore(w, t, d).out.value <==> Displaced(w, d, t.id))
  {
    hide RestoreFrom, Same;
    var k := KeyOf(d, t.id);
    if k in w.journal && Manageable(t) {
      var prior := w.journal[k].prior;
      RestoreFromReports(w, t.id, prior, 0, Tally(false, []));
      assert Displaced(w, d, t.id) <==> OneOff(w.device, t.id, prior, 0) by {
        forall n | n in prior.at ensures exists j :: 0 <= j < |prior.order| && prior.order[j] == n { assert n in prior.order; }
      }
    }
  }
}
