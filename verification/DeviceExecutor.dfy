// DeviceExecutor: the module as it runs, changing the device and the journal
// step by step, each method proved to be the function of DeviceState.

module DeviceExecutor {
  import opened Text
  import opened DeviceState

  /** The sweep's flat numbering is its two nested loops. */
  lemma SweepStep(w: World, targets: seq<Target>, i: nat, k: nat, repaired: seq<string>)
    requires i < |targets| && k < |DOMAINS| && Readable(w.journal)
    ensures var one := Repair(w, targets[i], DOMAINS[k], repaired);
      SweepFrom(w, targets, 2 * i + k, repaired) ==
      if one.out.Returned? then SweepFrom(one.w, targets, 2 * i + k + 1, one.out.value) else one
  {
    hide Repair;
    assert (2 * i + k) / 2 == i && (2 * i + k) % 2 == k;
  }

  lemma SweepEnds(w: World, targets: seq<Target>, repaired: seq<string>)
    requires Readable(w.journal)
    ensures SweepFrom(w, targets, 2 * |targets|, repaired) == Step(w, Returned(repaired))
  {
  }

  class Executor {
    var device: map<Slot, string>
    var journal: map<string, Entry>
    var script: seq<Io>

    constructor (device: map<Slot, string>, journal: map<string, Entry>, script: seq<Io>)
      ensures W() == World(device, journal, script)
    {
      this.device, this.journal, this.script := device, journal, script;
    }

    function W(): World
      reads this
    {
      World(device, journal, script)
    }

    /** The next call to a tool or the journal file: whether the process is still there, and how the call goes. */
    method NextCall() returns (alive: bool, io: Io)
      modifies this`script
      ensures alive == (old(script) != [])
      ensures alive ==> io == old(script)[0] && script == old(script)[1..]
      ensures !alive ==> script == old(script)
    {
      alive, io := script != [], Works;
      if alive { io, script := script[0], script[1..]; }
    }

    method ReadSetting(id: string, n: SettingName) returns (out: Outcome<Value>)
      modifies this`script
      ensures Step(W(), out) == Read(old(W()), id, n)
    {
      var alive, io := NextCall();
      if !alive { return Crashed; }
      if io.throws { return Threw(CallFailed); }
      return Returned(Get(device, Slot(id, n)));
    }

    method WriteSetting(id: string, n: SettingName, v: Value) returns (out: Outcome<()>)
      modifies this`script, this`device
      ensures Step(W(), out) == Write(old(W()), id, n, v)
    {
      if IsSimctlUi(n) && v.None? { return Returned(()); }
      var alive, io := NextCall();
      if !alive { return Crashed; }
      match io.effect {
        case Takes => device := Set(device, Slot(id, n), AskedFor(n, v));
        case Ignored =>
        case Garbles(left) => device := Set(device, Slot(id, n), left);
      }
      return if io.throws then Threw(CallFailed) else Returned(());
    }

    method PutEntry(d: Domain, id: string, e: Entry) returns (out: Outcome<()>)
      modifies this`script, this`journal
      ensures Step(W(), out) == JournalPut(old(W()), d, id, e)
    {
      var alive, io := NextCall();
      if !alive { return Crashed; }
      if io.throws { return Threw(CallFailed); }
      journal := journal[KeyOf(d, id) := e];
      return Returned(());
    }

    method DropEntry(d: Domain, id: string) returns (out: Outcome<()>)
      modifies this`script, this`journal
      ensures Step(W(), out) == JournalDrop(old(W()), d, id)
    {
      if KeyOf(d, id) !in journal { return Returned(()); }
      var alive, io := NextCall();
      if !alive { return Crashed; }
      if io.throws { return Threw(CallFailed); }
      journal := journal - {KeyOf(d, id)};
      return Returned(());
    }

    /** Put one setting back and read it again, collecting what went wrong. */
    method FixSetting(id: string, n: SettingName, want: Value) returns (out: Outcome<seq<Problem>>)
      modifies this`script, this`device
      ensures Step(W(), out) == Fix(old(W()), id, n, want)
    {
      var wrote := WriteSetting(id, n, want);
      if wrote.Crashed? { return Crashed; }
      if wrote.Threw? { return Returned([Unwritable(n)]); }
      var after := ReadSetting(id, n);
      if after.Crashed? { return Crashed; }
      if after.Threw? { return Returned([Unwritable(n)]); }
      return Returned(if Same(after.value, want) then [] else [StillWrong(n, after.value)]);
    }

    /** The loop of restoreState over an entry's settings. */
    method RestoreSettings(id: string, prior: Record<Value>) returns (out: Outcome<Tally>)
      requires WellFormed(prior)
      modifies this`script, this`device
      ensures Step(W(), out) == RestoreFrom(old(W()), id, prior, 0, Tally(false, []))
    {
      var changed, problems, i := false, [], 0;
      while i < |prior.order|
        invariant i <= |prior.order|
        invariant RestoreFrom(W(), id, prior, i, Tally(changed, problems)) ==
                  RestoreFrom(old(W()), id, prior, 0, Tally(false, []))
      {
        var n := prior.order[i];
        var want := prior.at[n];
        ghost var tally := Tally(changed, problems);
        ghost var one := RestoreOne(W(), id, n, want);
        var now := ReadSetting(id, n);
        if now.Crashed? { return Crashed; }
        if now.Threw? {
          problems := problems + [Unreadable(n)];
        } else if !Same(now.value, want) {
          changed := true;
          var fixed := FixSetting(id, n, want);
          if !fixed.Returned? { return Crashed; }
          problems := problems + fixed.value;
        }
        assert one.out.Returned? && one.w == W();
        assert Tally(changed, problems) ==
          Tally(tally.changed || one.out.value.changed, tally.problems + one.out.value.problems);
        i := i + 1;
      }
      return Returned(Tally(changed, problems));
    }

    method RestoreState(t: Target, d: Domain) returns (out: Outcome<bool>)
      requires Readable(journal)
      modifies this
      ensures Step(W(), out) == Restore(old(W()), t, d)
    {
      var k := KeyOf(d, t.id);
      if k !in journal { return Returned(false); }
      if !Manageable(t) { return Threw(CannotBeWrittenTo); }
      var r := RestoreSettings(t.id, journal[k].prior);
      if !r.Returned? { return Crashed; }
      if r.value.problems != [] { return Threw(NotFullyRestored(r.value.problems)); }
      var dropped := DropEntry(d, t.id);
      match dropped {
        case Returned(_) => return Returned(r.value.changed);
        case Threw(e) => return Threw(e);
        case Crashed => return Crashed;
      }
    }

    /** restoreState with its exception thrown away, then the original error rethrown. */
    method UndoAndThrow(t: Target, d: Domain, e: Error) returns (out: Outcome<()>)
      requires Readable(journal)
      modifies this
      ensures Step(W(), out) == Undo(old(W()), t, d, e)
    {
      var r := RestoreState(t, d);
      return if r.Crashed? then Crashed else Threw(e);
    }

    method ReadAllPriors(id: string, names: seq<SettingName>) returns (out: Outcome<Record<Value>>)
      modifies this`script
      ensures Step(W(), out) == ReadPriors(old(W()), id, names, 0, map[])
    {
      var at: map<SettingName, Value> := map[];
      for i := 0 to |names|
        invariant ReadPriors(W(), id, names, i, at) == ReadPriors(old(W()), id, names, 0, map[])
      {
        var r := ReadSetting(id, names[i]);
        if r.Crashed? { return Crashed; }
        if r.Threw? { return Threw(CannotRead(names[i])); }
        if r.value.None? && IsSimctlUi(names[i]) { return Threw(NoWayBack(names[i])); }
        at := at[names[i] := r.value];
      }
      return Returned(Record(names, at));
    }

    method WriteAllWanted(t: Target, d: Domain, wanted: Record<string>) returns (out: Outcome<()>)
      requires WellFormed(wanted) && Readable(journal)
      modifies this
      ensures Step(W(), out) == WriteAll(old(W()), t, d, wanted, 0)
    {
      for i := 0 to |wanted.order|
        invariant Readable(journal)
        invariant WriteAll(W(), t, d, wanted, i) == WriteAll(old(W()), t, d, wanted, 0)
      {
        var n := wanted.order[i];
        var r := WriteSetting(t.id, n, Some(wanted.at[n]));
        if r.Crashed? { return Crashed; }
        if r.Threw? {
          out := UndoAndThrow(t, d, CouldNotSet(n));
          return;
        }
      }
      return Returned(());
    }

    method VerifyAllWanted(t: Target, d: Domain, wanted: Record<string>) returns (out: Outcome<()>)
      requires WellFormed(wanted) && Readable(journal)
      modifies this
      ensures Step(W(), out) == VerifyAll(old(W()), t, d, wanted, 0)
    {
      for i := 0 to |wanted.order|
        invariant Readable(journal)
        invariant VerifyAll(W(), t, d, wanted, i) == VerifyAll(old(W()), t, d, wanted, 0)
      {
        var n := wanted.order[i];
        var r := ReadSetting(t.id, n);
        if r.Crashed? { return Crashed; }
        if r.Threw? {
          out := UndoAndThrow(t, d, CouldNotVerify(n));
          return;
        }
        if !Same(r.value, Some(wanted.at[n])) {
          out := UndoAndThrow(t, d, DidNotTake(n, r.value));
          return;
        }
      }
      return Returned(());
    }

    /** From the priors on: the journal first, and only then the device. */
    method ApplyKnowing(t: Target, d: Domain, wanted: Record<string>, prior: Record<Value>) returns (out: Outcome<()>)
      requires WellFormed(wanted) && WellFormed(prior) && Readable(journal)
      modifies this
      ensures Step(W(), out) == ApplyWith(old(W()), t, d, wanted, prior)
    {
      out := PutEntry(d, t.id, Entry(d, prior, wanted));
      if !out.Returned? { return; }
      out := WriteAllWanted(t, d, wanted);
      if !out.Returned? { return; }
      out := VerifyAllWanted(t, d, wanted);
    }

    method ApplyState(t: Target, d: Domain, wanted: Record<string>) returns (out: Outcome<()>)
      requires WellFormed(wanted) && Readable(journal)
      modifies this
      ensures Step(W(), out) == Apply(old(W()), t, d, wanted)
    {
      var refusal := Refusal(t, wanted);
      if refusal.Some? { return Threw(refusal.value); }
      if wanted.order == [] { return Returned(()); }
      assert wanted.order[0..] == wanted.order;
      var priors := ReadAllPriors(t.id, wanted.order);
      if priors.Crashed? { return Crashed; }
      if priors.Threw? { return Threw(priors.error); }
      out := ApplyKnowing(t, d, wanted, priors.value);
    }

    method RunWithState(t: Target, d: Domain, wanted: Record<string>, fn: Outcome<int>) returns (out: Outcome<int>)
      requires WellFormed(wanted) && Readable(journal)
      modifies this
      ensures Step(W(), out) == WithState(old(W()), t, d, wanted, fn)
    {
      var applied := ApplyState(t, d, wanted);
      if applied.Crashed? { return Crashed; }
      if applied.Threw? { return Threw(applied.error); }
      if fn.Crashed? { return Crashed; }
      var restored := RestoreState(t, d);
      return if restored.Crashed? then Crashed else fn;
    }

    /** One restore of the sweep: a failure is logged and passed over. */
    method RepairOne(t: Target, d: Domain, repaired: seq<string>) returns (out: Outcome<seq<string>>)
      requires Readable(journal)
      modifies this
      ensures Step(W(), out) == Repair(old(W()), t, d, repaired)
    {
      var r := RestoreState(t, d);
      if r.Crashed? { return Crashed; }
      if r.Returned? && r.value && t.id !in repaired { return Returned(repaired + [t.id]); }
      return Returned(repaired);
    }

    method RepairDomain(targets: seq<Target>, i: nat, k: nat, repaired: seq<string>) returns (out: Outcome<seq<string>>)
      requires i < |targets| && k < |DOMAINS| && Readable(journal)
      modifies this
      ensures Readable(journal) && !out.Threw?
      ensures SweepFrom(old(W()), targets, 2 * i + k, repaired) ==
        if out.Returned? then SweepFrom(W(), targets, 2 * i + k + 1, out.value) else Step(W(), Crashed)
    {
      SweepStep(W(), targets, i, k, repaired);
      out := RepairOne(targets[i], DOMAINS[k], repaired);
    }

    /** Both domains of the i-th target. */
    method RepairTarget(targets: seq<Target>, i: nat, before: seq<string>) returns (out: Outcome<seq<string>>)
      requires i < |targets| && Readable(journal)
      modifies this
      ensures Readable(journal)
      ensures out.Returned? ==>
        SweepFrom(old(W()), targets, 2 * i, before) == SweepFrom(W(), targets, 2 * i + 2, out.value)
      ensures !out.Returned? ==> out.Crashed? && SweepFrom(old(W()), targets, 2 * i, before) == Step(W(), out)
    {
      hide SweepFrom, Repair;
      ghost var whole := SweepFrom(W(), targets, 2 * i, before);
      var repaired := before;
      for k := 0 to |DOMAINS|
        invariant Readable(journal)
        invariant SweepFrom(W(), targets, 2 * i + k, repaired) == whole
      {
        var r := RepairDomain(targets, i, k, repaired);
        if !r.Returned? { return Crashed; }
        repaired := r.value;
      }
      return Returned(repaired);
    }

    /** The startup sweep: every attached target. */
    method RestoreAttachedState(targets: seq<Target>) returns (out: Outcome<seq<string>>)
      requires Readable(journal)
      modifies this
      ensures Step(W(), out) == Sweep(old(W()), targets)
    {
      hide SweepFrom;
      ghost var whole := Sweep(W(), targets);
      var repaired: seq<string> := [];
      for i := 0 to |targets|
        invariant Readable(journal)
        invariant SweepFrom(W(), targets, 2 * i, repaired) == whole
      {
        var r := RepairTarget(targets, i, repaired);
        if !r.Returned? { return Crashed; }
        repaired := r.value;
      }
      SweepEnds(W(), targets, repaired);
      return Returned(repaired);
    }
  }
}
