// DeviceRuns: safety over whole runs, withState's round trip, and the inputs
// that break each hypothesis.

module DeviceRuns {
  import opened Text
  import opened DeviceState
  import opened DeviceSafety
  import opened DeviceOutcomes
  import opened DeviceSweep

  // ---- withState puts everything back ----------------------------------------

  /** The settings of t from position i on read as wanted; every other setting is unchanged. */
  ghost predicate SetTo(w: World, w': World, t: Target, wanted: Record<string>, i: nat)
    requires i <= |wanted.order| && WellFormed(wanted)
  {
    forall s: Slot ::
      Get(w'.device, s) == (if s.id == t.id && s.name in wanted.order[i..] then Some(wanted.at[s.name]) else Get(w.device, s))
  }

  lemma SetToFrom(w: World, w1: World, w2: World, t: Target, wanted: Record<string>, i: nat)
    requires i < |wanted.order| && WellFormed(wanted)
    requires w1.device == w.device[Slot(t.id, wanted.order[i]) := wanted.at[wanted.order[i]]]
    requires SetTo(w1, w2, t, wanted, i + 1)
    ensures SetTo(w, w2, t, wanted, i)
  {
    var n := wanted.order[i];
    assert wanted.order[i..] == [n] + wanted.order[i + 1..];
    assert forall s: Slot :: s.id == t.id && s.name == n ==> s == Slot(t.id, n);
  }

  lemma {:induction false} WriteAllWorks(w: World, t: Target, d: Domain, wanted: Record<string>, i: nat, k: nat)
    requires i <= |wanted.order| && WellFormed(wanted) && Readable(w.journal)
    requires Working(w.script, k + (|wanted.order| - i))
    ensures var r := WriteAll(w, t, d, wanted, i);
      r.out.Returned? && Working(r.w.script, k) && SetTo(w, r.w, t, wanted, i)
    decreases |wanted.order| - i
  {
    hide Undo;
    if i < |wanted.order| {
      var n := wanted.order[i];
      var r := Write(w, t.id, n, Some(wanted.at[n]));
      WorkingTail(w.script, k + (|wanted.order| - i - 1));
      WriteAllWorks(r.w, t, d, wanted, i + 1, k);
      SetToFrom(w, r.w, WriteAll(r.w, t, d, wanted, i + 1).w, t, wanted, i);
    }
  }

  lemma {:induction false} VerifyAllWorks(w: World, t: Target, d: Domain, wanted: Record<string>, i: nat, k: nat)
    requires i <= |wanted.order| && WellFormed(wanted) && Readable(w.journal)
    requires Working(w.script, k + (|wanted.order| - i))
    requires forall n :: n in wanted.order ==> Get(w.device, Slot(t.id, n)) == Some(wanted.at[n])
    ensures var r := VerifyAll(w, t, d, wanted, i);
      r.out.Returned? && Working(r.w.script, k) && r.w.device == w.device && r.w.journal == w.journal
    decreases |wanted.order| - i
  {
    if i < |wanted.order| {
      WorkingTail(w.script, k + (|wanted.order| - i - 1));
      VerifyAllWorks(Read(w, t.id, wanted.order[i]).w, t, d, wanted, i + 1, k);
    }
  }

  lemma {:induction false} ReadPriorsLeaves(w: World, id: string, names: seq<SettingName>, i: nat, at: map<SettingName, Value>, k: nat)
    requires i <= |names| && Working(w.script, k + (|names| - i))
    requires forall n :: n in names && IsSimctlUi(n) ==> Get(w.device, Slot(id, n)).Some?
    ensures var r := ReadPriors(w, id, names, i, at); r.out.Returned? && Working(r.w.script, k)
    decreases |names| - i
  {
    if i < |names| {
      WorkingTail(w.script, k + (|names| - i - 1));
      ReadPriorsLeaves(w.(script := w.script[1..]), id, names, i + 1, at[names[i] := Get(w.device, Slot(id, names[i]))], k);
    }
  }

  lemma ApplyWithWorks(w: World, t: Target, d: Domain, wanted: Record<string>, prior: Record<Value>, k: nat)
    requires WellFormed(wanted) && WellFormed(prior) && Readable(w.journal)
    requires Working(w.script, k + 1 + 2 * |wanted.order|)
    ensures var r := ApplyWith(w, t, d, wanted, prior);
      r.out.Returned? && Working(r.w.script, k) && r.w.journal == w.journal[KeyOf(d, t.id) := Entry(d, prior, wanted)] &&
      SetTo(w, r.w, t, wanted, 0)
  {
    WorkingTail(w.script, k + 2 * |wanted.order|);
    var put := JournalPut(w, d, t.id, Entry(d, prior, wanted));
    assert wanted.order[0..] == wanted.order;
    WriteAllWorks(put.w, t, d, wanted, 0, k + |wanted.order|);
    var wrote := WriteAll(put.w, t, d, wanted, 0);
    forall n | n in wanted.order ensures Get(wrote.w.device, Slot(t.id, n)) == Some(wanted.at[n]) {
      var s := Slot(t.id, n);
      assert s.name in wanted.order[0..];
    }
    VerifyAllWorks(wrote.w, t, d, wanted, 0, k);
  }

  /** With working tools applyState sets exactly what was asked for and journals exactly what was there. */
  lemma ApplyWorks(w: World, t: Target, d: Domain, wanted: Record<string>, k: nat) returns (e: Entry)
    requires WellFormed(wanted) && Readable(w.journal) && Journals(w, t, wanted)
    requires Working(w.script, k + 1 + 3 * |wanted.order|)
    ensures IsEntryFor(e, w, t, d, wanted)
    ensures var r := Apply(w, t, d, wanted);
      r.out.Returned? && Working(r.w.script, k) && r.w.journal == w.journal[KeyOf(d, t.id) := e] &&
      SetTo(w, r.w, t, wanted, 0)
  {
    UnknownRefused(w, t, wanted);
    ReadPriorsLeaves(w, t.id, wanted.order, 0, map[], k + 1 + 2 * |wanted.order|);
    ReadPriorsIsEntry(w, t, d, wanted);
    var r := ReadPriors(w, t.id, wanted.order, 0, map[]);
    e := Entry(d, r.out.value, wanted);
    ApplyWithWorks(r.w, t, d, wanted, r.out.value, k);
  }

  /** What was there can be put back over what is asked for. */
  predicate Reversible(w: World, t: Target, wanted: Record<string>)
    requires forall n :: n in wanted.order ==> n in wanted.at
  {
    forall n :: n in wanted.order ==>
      Same(Some(wanted.at[n]), Get(w.device, Slot(t.id, n))) || CanReturn(n, Get(w.device, Slot(t.id, n)))
  }

  lemma RestorableAfterApply(w: World, w1: World, t: Target, d: Domain, wanted: Record<string>, e: Entry)
    requires WellFormed(wanted) && IsEntryFor(e, w, t, d, wanted) && SetTo(w, w1, t, wanted, 0)
    ensures EntryRestorable(w1.device, t.id, e) <==> Reversible(w, t, wanted)
  {
    forall n | n in wanted.order ensures Get(w1.device, Slot(t.id, n)) == Some(wanted.at[n]) {
      assert Slot(t.id, n).name in wanted.order[0..];
    }
    if EntryRestorable(w1.device, t.id, e) {
      forall n | n in wanted.order
        ensures Same(Some(wanted.at[n]), Get(w.device, Slot(t.id, n))) || CanReturn(n, Get(w.device, Slot(t.id, n)))
      {
        assert Restorable(w1.device, t.id, n, e.prior.at[n]);
      }
    }
  }

  lemma RestoredSlot(w: World, w1: World, t: Target, d: Domain, wanted: Record<string>, e: Entry, s: Slot)
    requires WellFormed(wanted) && Readable(w1.journal) && IsEntryFor(e, w, t, d, wanted)
    requires KeyOf(d, t.id) in w1.journal && w1.journal[KeyOf(d, t.id)] == e && SetTo(w, w1, t, wanted, 0)
    requires forall n :: n in e.prior.at ==> Same(Get(Restore(w1, t, d).w.device, Slot(t.id, n)), e.prior.at[n])
    ensures Same(Get(Restore(w1, t, d).w.device, s), Get(w.device, s))
  {
    if s.id == t.id && s.name in wanted.order {
      assert s == Slot(t.id, s.name) && s.name in e.prior.at;
    } else {
      RestoreEnds(w1, t, d);
      assert s.id != t.id || s.name !in wanted.order[0..];
      assert !(s.id == t.id && Holds(w1.journal, d, s));
    }
  }

  lemma RestoreAfterApply(w: World, w1: World, t: Target, d: Domain, wanted: Record<string>, e: Entry)
    requires WellFormed(wanted) && Readable(w1.journal) && IsEntryFor(e, w, t, d, wanted) && Manageable(t)
    requires KeyOf(d, t.id) !in w.journal && w1.journal == w.journal[KeyOf(d, t.id) := e]
    requires Working(w1.script, Cost(e)) && SetTo(w, w1, t, wanted, 0)
    ensures !Restore(w1, t, d).out.Crashed?
    ensures Restore(w1, t, d).w.journal == (if Reversible(w, t, wanted) then w.journal else w1.journal)
    ensures Reversible(w, t, wanted) ==>
      forall n :: n in e.prior.at ==> Same(Get(Restore(w1, t, d).w.device, Slot(t.id, n)), e.prior.at[n])
  {
    RestorableAfterApply(w, w1, t, d, wanted, e);
    DropsWhatWasPut(w.journal, KeyOf(d, t.id), e);
    RestoreClearsExactlyWhen(w1, t, d, 0);
  }

  lemma DropsWhatWasPut(journal: map<string, Entry>, k: string, e: Entry)
    requires k !in journal
    ensures journal[k := e] - {k} == journal && journal[k := e] != journal
  {
    assert k in journal[k := e];
  }

  /**
   * withState is a round trip: with working tools and no earlier entry, however
   * the caller's function ends, the journal is as it was and every setting
   * reads as it did, exactly when each one's prior can be put back.
   */
  lemma WithStateRoundTrip(w: World, t: Target, d: Domain, wanted: Record<string>, fn: Outcome<int>)
    requires WellFormed(wanted) && Readable(w.journal) && Journals(w, t, wanted)
    requires KeyOf(d, t.id) !in w.journal && !fn.Crashed?
    requires Working(w.script, 2 + 6 * |wanted.order|)
    ensures var r := WithState(w, t, d, wanted, fn);
      r.out == fn &&
      (r.w.journal == w.journal <==> Reversible(w, t, wanted)) &&
      (Reversible(w, t, wanted) ==> forall s :: Same(Get(r.w.device, s), Get(w.device, s)))
  {
    var e := ApplyWorks(w, t, d, wanted, 1 + 3 * |wanted.order|);
    var applied := Apply(w, t, d, wanted);
    RestoreAfterApply(w, applied.w, t, d, wanted, e);
    DropsWhatWasPut(w.journal, KeyOf(d, t.id), e);
    if Reversible(w, t, wanted) {
      forall s ensures Same(Get(Restore(applied.w, t, d).w.device, s), Get(w.device, s)) {
        RestoredSlot(w, applied.w, t, d, wanted, e, s);
      }
    }
  }

  /** Whatever the environment does, a call of fn that ends decides how withState ends. */
  lemma WithStateKeepsOutcome(w: World, t: Target, d: Domain, wanted: Record<string>, fn: Outcome<int>)
    requires WellFormed(wanted) && Readable(w.journal)
    ensures var applied := Apply(w, t, d, wanted); var r := WithState(w, t, d, wanted, fn);
      match applied.out
      case Threw(e) => r.out == Threw(e) && r.w == applied.w
      case Crashed => r.out.Crashed? && r.w == applied.w
      case Returned(_) =>
        (r.out == fn || r.out.Crashed?) &&
        (r.w.journal == applied.w.journal || PutBack(applied.w, r.w, t, d))
  {
    var applied := Apply(w, t, d, wanted);
    RestoreEnds(applied.w, t, d);
  }

  // ---- runs ------------------------------------------------------------------

  /** One thing that happens: a call into the module, or somebody else setting something. */
  datatype Op =
    | ApplyOp(t: Target, d: Domain, wanted: Record<string>)
    | RestoreOp(t: Target, d: Domain)
    | WithStateOp(t: Target, d: Domain, wanted: Record<string>, fn: Outcome<int>)
    | SweepOp(targets: seq<Target>)
    | OutsideOp(s: Slot, v: Value)

  /** An operation and the environment it meets, which also says where the process dies. */
  datatype Event = Event(op: Op, script: seq<Io>)

  /** The device, the journal, and each setting's value when it was last nobody's. */
  datatype History = History(w: World, orig: map<Slot, string>)

  ghost predicate Legible(ev: Event) {
    match ev.op
    case ApplyOp(_, _, wanted) => WellFormed(wanted)
    case WithStateOp(_, _, wanted, _) => WellFormed(wanted)
    case _ => true
  }

  function Happen(h: History, ev: Event): (h': History)
    requires Readable(h.w.journal) && Legible(ev)
    ensures Readable(h'.w.journal)
  {
    var w := h.w.(script := ev.script);
    match ev.op
    case ApplyOp(t, d, wanted) => h.(w := Apply(w, t, d, wanted).w)
    case RestoreOp(t, d) => h.(w := Restore(w, t, d).w)
    case WithStateOp(t, d, wanted, fn) => h.(w := WithState(w, t, d, wanted, fn).w)
    case SweepOp(targets) => h.(w := Sweep(w, targets).w)
    case OutsideOp(s, v) =>
      History(w.(device := Set(w.device, s, v)),
        if Holds(w.journal, Locale, s) || Holds(w.journal, Display, s) then h.orig else Set(h.orig, s, v))
  }

  /** The check a caller of applyState owes, at the moment of the call. */
  ghost predicate Careful(h: History, ev: Event) {
    Legible(ev) &&
    match ev.op
    case ApplyOp(t, d, wanted) => Journals(h.w, t, wanted) ==> LosesNothing(h.w, t, d, wanted)
    case WithStateOp(t, d, wanted, _) => Journals(h.w, t, wanted) ==> LosesNothing(h.w, t, d, wanted)
    case _ => true
  }

  lemma LosesNothingFrame(w: World, w': World, t: Target, d: Domain, wanted: Record<string>)
    requires w'.device == w.device && w'.journal == w.journal && LosesNothing(w, t, d, wanted)
    ensures LosesNothing(w', t, d, wanted)
  {
  }

  lemma WithStateKeepsSafe(orig: map<Slot, string>, w: World, t: Target, d: Domain, wanted: Record<string>, fn: Outcome<int>)
    requires Safe(orig, w) && WellFormed(wanted)
    requires Journals(w, t, wanted) ==> LosesNothing(w, t, d, wanted)
    ensures Safe(orig, WithState(w, t, d, wanted, fn).w)
  {
    ApplyKeepsSafe(orig, w, t, d, wanted);
    RestoreKeepsSafe(orig, Apply(w, t, d, wanted).w, t, d);
  }

  lemma CarefulStepKeepsSafe(h: History, ev: Event)
    requires Safe(h.orig, h.w) && Careful(h, ev)
    ensures Safe(Happen(h, ev).orig, Happen(h, ev).w)
  {
    var w := h.w.(script := ev.script);
    ScriptKeepsSafe(h.orig, h.w, w);
    match ev.op
    case ApplyOp(t, d, wanted) =>
      if Journals(h.w, t, wanted) { LosesNothingFrame(h.w, w, t, d, wanted); }
      ApplyKeepsSafe(h.orig, w, t, d, wanted);
    case RestoreOp(t, d) => RestoreKeepsSafe(h.orig, w, t, d);
    case WithStateOp(t, d, wanted, fn) =>
      if Journals(h.w, t, wanted) { LosesNothingFrame(h.w, w, t, d, wanted); }
      WithStateKeepsSafe(h.orig, w, t, d, wanted, fn);
    case SweepOp(targets) => SweepKeepsSafe(h.orig, w, targets, 0, []);
    case OutsideOp(s, v) => OutsideKeepsSafe(h, ev);
  }

  lemma OutsideKeepsSafe(h: History, ev: Event)
    requires Safe(h.orig, h.w) && ev.op.OutsideOp?
    ensures Safe(Happen(h, ev).orig, Happen(h, ev).w)
  {
    var h' := Happen(h, ev);
    forall s ensures Kept(h'.orig, h'.w.device, h'.w.journal, s) {
      assert Kept(h.orig, h.w.device, h.w.journal, s);
    }
  }

  ghost predicate CarefulRun(h: History, events: seq<Event>)
    requires Readable(h.w.journal)
    decreases |events|
  {
    events == [] || (Careful(h, events[0]) && CarefulRun(Happen(h, events[0]), events[1..]))
  }

  ghost predicate AllLegible(events: seq<Event>) {
    forall i :: 0 <= i < |events| ==> Legible(events[i])
  }

  ghost function After(h: History, events: seq<Event>): (h': History)
    requires Readable(h.w.journal) && AllLegible(events)
    ensures Readable(h'.w.journal)
    decreases |events|
  {
    if events == [] then h else After(Happen(h, events[0]), events[1..])
  }

  /**
   * Over every run, with crashes anywhere and tools that lie or fail, a setting
   * that no longer reads as its last unmanaged value has a journal entry, and
   * every entry that names it holds that value.
   */
  lemma {:induction false} NoRunLosesAnOriginal(h: History, events: seq<Event>, s: Slot)
    requires Safe(h.orig, h.w) && AllLegible(events) && CarefulRun(h, events)
    ensures var h' := After(h, events);
      Safe(h'.orig, h'.w) &&
      (!Same(Get(h'.w.device, s), Get(h'.orig, s)) ==> exists d :: Holds(h'.w.journal, d, s)) &&
      (forall d :: Holds(h'.w.journal, d, s) ==> Same(Prior(h'.w.journal, d, s), Get(h'.orig, s)))
    decreases |events|
  {
    if events == [] {
      assert Kept(h.orig, h.w.device, h.w.journal, s);
      assert Holds(h.w.journal, Locale, s) || Holds(h.w.journal, Display, s) || Same(Get(h.w.device, s), Get(h.orig, s));
    } else {
      CarefulStepKeepsSafe(h, events[0]);
      NoRunLosesAnOriginal(Happen(h, events[0]), events[1..], s);
    }
  }

  // ---- the callers' discipline -----------------------------------------------

  /** Every entry names only settings of its own domain. */
  ghost predicate Owned(journal: map<string, Entry>) {
    forall d, s :: Holds(journal, d, s) ==> OwnerOf(s.name) == d
  }

  /** applyState is called with the domain's own settings and with no entry of its own on the target. */
  ghost predicate Disciplined(h: History, ev: Event) {
    Legible(ev) &&
    match ev.op
    case ApplyOp(t, d, wanted) => KeyOf(d, t.id) !in h.w.journal && forall n :: n in wanted.order ==> OwnerOf(n) == d
    case WithStateOp(t, d, wanted, _) => KeyOf(d, t.id) !in h.w.journal && forall n :: n in wanted.order ==> OwnerOf(n) == d
    case _ => true
  }

  ghost predicate DisciplinedRun(h: History, events: seq<Event>)
    requires Readable(h.w.journal)
    decreases |events|
  {
    events == [] || (Disciplined(h, events[0]) && DisciplinedRun(Happen(h, events[0]), events[1..]))
  }

  ghost predicate Within(j: map<string, Entry>, j': map<string, Entry>) {
    forall k :: k in j ==> k in j' && j[k] == j'[k]
  }

  lemma WithinOwned(j: map<string, Entry>, j': map<string, Entry>)
    requires Owned(j') && Within(j, j')
    ensures Owned(j)
  {
    forall d, s | Holds(j, d, s) ensures OwnerOf(s.name) == d {
      assert Holds(j', d, s);
    }
  }

  lemma RestoreWithin(w: World, t: Target, d: Domain)
    requires Readable(w.journal)
    ensures Within(Restore(w, t, d).w.journal, w.journal)
  {
    RestoreEnds(w, t, d);
  }

  lemma {:induction false} SweepWithin(w: World, targets: seq<Target>, i: nat, repaired: seq<string>)
    requires i <= 2 * |targets| && Readable(w.journal)
    ensures Within(SweepFrom(w, targets, i, repaired).w.journal, w.journal)
    decreases 2 * |targets| - i
  {
    hide Restore;
    if i < 2 * |targets| {
      var one := Repair(w, TargetAt(targets, i), DomainAt(i), repaired);
      RestoreWithin(w, TargetAt(targets, i), DomainAt(i));
      if one.out.Returned? { SweepWithin(one.w, targets, i + 1, one.out.value); }
    }
  }

  lemma ApplyKeepsOwned(w: World, t: Target, d: Domain, wanted: Record<string>)
    requires WellFormed(wanted) && Readable(w.journal) && Owned(w.journal)
    requires forall n :: n in wanted.order ==> OwnerOf(n) == d
    ensures Owned(Apply(w, t, d, wanted).w.journal)
  {
    ApplyIsAllOrJournalled(w, t, d, wanted);
    var w' := Apply(w, t, d, wanted).w;
    if Journalled(w, w', t, d, wanted) {
      forall d', s | Holds(w'.journal, d', s) ensures OwnerOf(s.name) == d' {
        KeysApart(d, t.id, d', s.id);
        assert !(d' == d && s.id == t.id) ==> Holds(w.journal, d', s);
      }
    } else {
      assert Within(w'.journal, w.journal);
      WithinOwned(w'.journal, w.journal);
    }
  }

  lemma DisciplinedApply(h: History, t: Target, d: Domain, wanted: Record<string>)
    requires Readable(h.w.journal) && Owned(h.w.journal) && WellFormed(wanted)
    requires KeyOf(d, t.id) !in h.w.journal && forall n :: n in wanted.order ==> OwnerOf(n) == d
    ensures LosesNothing(h.w, t, d, wanted)
  {
    FreshAndDisjointLosesNothing(h.w, t, d, wanted);
  }

  lemma DisciplinedStep(h: History, ev: Event)
    requires Readable(h.w.journal) && Owned(h.w.journal) && Disciplined(h, ev)
    ensures Careful(h, ev) && Owned(Happen(h, ev).w.journal)
  {
    var w := h.w.(script := ev.script);
    match ev.op
    case ApplyOp(t, d, wanted) =>
      DisciplinedApply(h, t, d, wanted);
      ApplyKeepsOwned(w, t, d, wanted);
    case WithStateOp(t, d, wanted, fn) =>
      DisciplinedApply(h, t, d, wanted);
      ApplyKeepsOwned(w, t, d, wanted);
      WithStateWithin(w, t, d, wanted, fn);
      WithinOwned(Happen(h, ev).w.journal, Apply(w, t, d, wanted).w.journal);
    case RestoreOp(t, d) =>
      RestoreWithin(w, t, d);
      WithinOwned(Happen(h, ev).w.journal, w.journal);
    case SweepOp(targets) =>
      SweepWithin(w, targets, 0, []);
      WithinOwned(Happen(h, ev).w.journal, w.journal);
    case OutsideOp(_, _) =>
  }

  lemma WithStateWithin(w: World, t: Target, d: Domain, wanted: Record<string>, fn: Outcome<int>)
    requires Readable(w.journal) && WellFormed(wanted)
    ensures Within(WithState(w, t, d, wanted, fn).w.journal, Apply(w, t, d, wanted).w.journal)
  {
    RestoreWithin(Apply(w, t, d, wanted).w, t, d);
  }

  lemma {:induction false} DisciplinedRunIsCareful(h: History, events: seq<Event>)
    requires Readable(h.w.journal) && Owned(h.w.journal) && DisciplinedRun(h, events)
    ensures CarefulRun(h, events)
    decreases |events|
  {
    if events != [] {
      DisciplinedStep(h, events[0]);
      DisciplinedRunIsCareful(Happen(h, events[0]), events[1..]);
    }
  }

  /** From any device and an empty journal, callers who keep the discipline never lose an original. */
  lemma DisciplineIsEnough(device: map<Slot, string>, events: seq<Event>, s: Slot)
    requires AllLegible(events) && DisciplinedRun(History(World(device, map[], []), device), events)
    ensures var h := History(World(device, map[], []), device);
      CarefulRun(h, events) &&
      var h' := After(h, events);
      Same(Get(h'.w.device, s), Get(h'.orig, s)) ||
      exists d :: Holds(h'.w.journal, d, s) && Same(Prior(h'.w.journal, d, s), Get(h'.orig, s))
  {
    var h := History(World(device, map[], []), device);
    DisciplinedRunIsCareful(h, events);
    NoRunLosesAnOriginal(h, events, s);
  }
}
