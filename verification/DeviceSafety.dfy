// DeviceSafety: no run loses what a setting was before the module touched it.

module DeviceSafety {
  import opened Text
  import opened DeviceState

  // ---- the invariant ---------------------------------------------------------

  /** Domain d has a journal entry for this device that names this setting. */
  predicate Holds(journal: map<string, Entry>, d: Domain, s: Slot) {
    KeyOf(d, s.id) in journal && s.name in journal[KeyOf(d, s.id)].prior.at
  }

  function Prior(journal: map<string, Entry>, d: Domain, s: Slot): Value
    requires Holds(journal, d, s)
  {
    journal[KeyOf(d, s.id)].prior.at[s.name]
  }

  predicate HeldTruly(orig: map<Slot, string>, journal: map<string, Entry>, d: Domain, s: Slot) {
    Holds(journal, d, s) ==> Same(Prior(journal, d, s), Get(orig, s))
  }

  /** Whatever the journal says of s is s's original, and s is unchanged if the journal is silent. */
  predicate Kept(orig: map<Slot, string>, device: map<Slot, string>, journal: map<string, Entry>, s: Slot) {
    HeldTruly(orig, journal, Locale, s) && HeldTruly(orig, journal, Display, s) &&
    (Holds(journal, Locale, s) || Holds(journal, Display, s) || Same(Get(device, s), Get(orig, s)))
  }

  ghost predicate Safe(orig: map<Slot, string>, w: World) {
    Readable(w.journal) && forall s :: Kept(orig, w.device, w.journal, s)
  }

  // ---- what a write and a restore may touch ----------------------------------

  /** Same journal, and no setting changed but those of device id at positions i.. of names. */
  ghost predicate Touched(w: World, w': World, id: string, names: seq<SettingName>, i: nat)
    requires i <= |names|
  {
    w'.journal == w.journal &&
    forall s: Slot :: s.id != id || s.name !in names[i..] ==> Get(w'.device, s) == Get(w.device, s)
  }

  lemma WriteTouches(w: World, id: string, n: SettingName, v: Value)
    ensures var r := Write(w, id, n, v);
      r.w.journal == w.journal &&
      forall s :: s != Slot(id, n) ==> Get(r.w.device, s) == Get(w.device, s)
  {
  }

  lemma FixTouches(w: World, id: string, n: SettingName, want: Value)
    ensures var r := Fix(w, id, n, want);
      r.w.journal == w.journal && !r.out.Threw? &&
      (forall s :: s != Slot(id, n) ==> Get(r.w.device, s) == Get(w.device, s)) &&
      (r.out == Returned([]) ==> Same(Get(r.w.device, Slot(id, n)), want))
  {
    WriteTouches(w, id, n, want);
  }

  lemma RestoreOneTouches(w: World, id: string, n: SettingName, want: Value)
    ensures var r := RestoreOne(w, id, n, want);
      r.w.journal == w.journal && !r.out.Threw? &&
      (forall s :: s != Slot(id, n) ==> Get(r.w.device, s) == Get(w.device, s)) &&
      (r.out.Returned? && r.out.value.problems == [] ==> Same(Get(r.w.device, Slot(id, n)), want))
  {
    FixTouches(Read(w, id, n).w, id, n, want);
  }

  /** A restore pass touches only the entry's settings, and one without problems left each at its prior. */
  lemma {:induction false} RestoreFromTouches(w: World, id: string, prior: Record<Value>, i: nat, tally: Tally)
    requires i <= |prior.order| && WellFormed(prior)
    ensures var r := RestoreFrom(w, id, prior, i, tally);
      Touched(w, r.w, id, prior.order, i) && !r.out.Threw? &&
      (r.out.Returned? ==> tally.problems <= r.out.value.problems) &&
      (r.out.Returned? && r.out.value.problems == [] ==>
        forall j :: i <= j < |prior.order| ==> Same(Get(r.w.device, Slot(id, prior.order[j])), prior.at[prior.order[j]]))
    decreases |prior.order| - i
  {
    hide RestoreOne, Same, Get;
    if i < |prior.order| {
      var n := prior.order[i];
      var one := RestoreOne(w, id, n, prior.at[n]);
      RestoreOneTouches(w, id, n, prior.at[n]);
      assert n !in prior.order[i + 1..];
      if one.out.Returned? {
        RestoreFromTouches(one.w, id, prior, i + 1,
          Tally(tally.changed || one.out.value.changed, tally.problems + one.out.value.problems));
      }
    }
  }

  /** Changing held settings of one device, and nothing else, loses nothing. */
  lemma TouchingKeepsSafe(orig: map<Slot, string>, w: World, w': World, d: Domain, id: string, names: seq<SettingName>)
    requires Safe(orig, w) && Touched(w, w', id, names, 0)
    requires forall n :: n in names ==> Holds(w.journal, d, Slot(id, n))
    ensures Safe(orig, w')
  {
    forall s ensures Kept(orig, w'.device, w'.journal, s) {
      assert Kept(orig, w.device, w.journal, s);
      if s.id == id && s.name in names {
        assert s == Slot(id, s.name);
        assert Holds(w.journal, d, s);
        match d { case Locale => case Display => }
      } else {
        assert s.name !in names[0..] || s.id != id;
      }
    }
  }

  lemma KeysApart(d: Domain, id: string, d': Domain, id': string)
    ensures KeyOf(d, id) == KeyOf(d', id') <==> d == d' && id == id'
  {
    if KeyOf(d, id) == KeyOf(d', id') {
      assert KeyOf(d, id)[0] == DomainName(d)[0] && KeyOf(d', id')[0] == DomainName(d')[0];
      assert d == d';
      assert id == KeyOf(d, id)[|DomainName(d)| + 1..];
      assert id' == KeyOf(d', id')[|DomainName(d')| + 1..];
    }
  }

  /** Dropping domain d's entry for a device leaves the other entries as they were. */
  lemma DropHolds(w: World, d: Domain, id: string, d': Domain, s: Slot)
    requires KeyOf(d, id) in w.journal
    ensures var j := w.journal - {KeyOf(d, id)};
      (Holds(j, d', s) <==> Holds(w.journal, d', s) && !(s.id == id && d' == d)) &&
      (Holds(j, d', s) ==> Prior(j, d', s) == Prior(w.journal, d', s))
  {
    KeysApart(d, id, d', s.id);
  }

  lemma DropKeepsSlot(orig: map<Slot, string>, w: World, d: Domain, id: string, s: Slot)
    requires KeyOf(d, id) in w.journal && Kept(orig, w.device, w.journal, s)
    requires s.id == id && Holds(w.journal, d, s) ==> Same(Get(w.device, s), Prior(w.journal, d, s))
    ensures Kept(orig, w.device, w.journal - {KeyOf(d, id)}, s)
  {
    hide Same, KeyOf, Get;
    DropHolds(w, d, id, Locale, s);
    DropHolds(w, d, id, Display, s);
    if s.id == id && Holds(w.journal, d, s) {
      assert HeldTruly(orig, w.journal, d, s);
      SameThrough(Get(w.device, s), Prior(w.journal, d, s), Get(orig, s));
    }
  }

  lemma SameThrough(a: Value, b: Value, c: Value)
    requires Same(a, b) && Same(b, c)
    ensures Same(a, c)
  {
  }

  /** Dropping an entry all of whose settings are back loses nothing. */
  lemma DropKeepsSafe(orig: map<Slot, string>, w: World, d: Domain, id: string)
    requires Safe(orig, w) && KeyOf(d, id) in w.journal
    requires forall n :: n in w.journal[KeyOf(d, id)].prior.at ==>
      Same(Get(w.device, Slot(id, n)), w.journal[KeyOf(d, id)].prior.at[n])
    ensures Safe(orig, JournalDrop(w, d, id).w)
  {
    hide Same, Kept;
    var w' := JournalDrop(w, d, id).w;
    forall s ensures Kept(orig, w'.device, w'.journal, s) {
      assert Kept(orig, w.device, w.journal, s);
      if s.id == id { assert s == Slot(id, s.name); }
      DropKeepsSlot(orig, w, d, id, s);
    }
  }

  /** restoreState loses nothing, whatever the environment does and wherever it dies. */
  lemma RestoreKeepsSafe(orig: map<Slot, string>, w: World, t: Target, d: Domain)
    requires Safe(orig, w)
    ensures Safe(orig, Restore(w, t, d).w)
  {
    hide RestoreFrom;
    var k := KeyOf(d, t.id);
    if k in w.journal && Manageable(t) {
      var prior := w.journal[k].prior;
      var r := RestoreFrom(w, t.id, prior, 0, Tally(false, []));
      RestoreFromTouches(w, t.id, prior, 0, Tally(false, []));
      TouchingKeepsSafe(orig, w, r.w, d, t.id, prior.order);
      if r.out.Returned? && r.out.value.problems == [] {
        forall n | n in prior.at ensures Same(Get(r.w.device, Slot(t.id, n)), prior.at[n]) {
          assert n in prior.order;
        }
        DropKeepsSafe(orig, r.w, d, t.id);
      }
    }
  }

  // ---- apply, once journalled ------------------------------------------------

  /** Every setting of the request is in this domain's entry for the target. */
  predicate AllHeld(journal: map<string, Entry>, d: Domain, id: string, names: seq<SettingName>) {
    forall n :: n in names ==> Holds(journal, d, Slot(id, n))
  }

  lemma WriteHeldKeepsSafe(orig: map<Slot, string>, w: World, d: Domain, id: string, n: SettingName, v: Value)
    requires Safe(orig, w) && Holds(w.journal, d, Slot(id, n))
    ensures Safe(orig, Write(w, id, n, v).w)
  {
    WriteTouches(w, id, n, v);
    assert [n][0..] == [n];
    TouchingKeepsSafe(orig, w, Write(w, id, n, v).w, d, id, [n]);
  }

  lemma {:induction false} WriteAllKeepsSafe(orig: map<Slot, string>, w: World, t: Target, d: Domain, wanted: Record<string>, i: nat)
    requires i <= |wanted.order| && WellFormed(wanted)
    requires Safe(orig, w) && AllHeld(w.journal, d, t.id, wanted.order)
    ensures Safe(orig, WriteAll(w, t, d, wanted, i).w)
    decreases |wanted.order| - i
  {
    if i < |wanted.order| {
      var n := wanted.order[i];
      var r := Write(w, t.id, n, Some(wanted.at[n]));
      WriteTouches(w, t.id, n, Some(wanted.at[n]));
      WriteHeldKeepsSafe(orig, w, d, t.id, n, Some(wanted.at[n]));
      match r.out
      case Crashed =>
      case Threw(_) => RestoreKeepsSafe(orig, r.w, t, d);
      case Returned(_) => WriteAllKeepsSafe(orig, r.w, t, d, wanted, i + 1);
    }
  }

  lemma ReadKeepsSafe(orig: map<Slot, string>, w: World, id: string, n: SettingName)
    requires Safe(orig, w)
    ensures Safe(orig, Read(w, id, n).w)
  {
    var r := Read(w, id, n);
    forall s ensures Kept(orig, r.w.device, r.w.journal, s) {
      assert Kept(orig, w.device, w.journal, s);
    }
  }

  lemma {:induction false} VerifyAllKeepsSafe(orig: map<Slot, string>, w: World, t: Target, d: Domain, wanted: Record<string>, i: nat)
    requires i <= |wanted.order| && WellFormed(wanted) && Safe(orig, w)
    ensures Safe(orig, VerifyAll(w, t, d, wanted, i).w)
    decreases |wanted.order| - i
  {
    hide Restore;
    if i < |wanted.order| {
      var n := wanted.order[i];
      var r := Read(w, t.id, n);
      ReadKeepsSafe(orig, w, t.id, n);
      if r.out.Threw? || (r.out.Returned? && !Same(r.out.value, Some(wanted.at[n]))) {
        RestoreKeepsSafe(orig, r.w, t, d);
      } else if r.out.Returned? {
        VerifyAllKeepsSafe(orig, r.w, t, d, wanted, i + 1);
      }
    }
  }

  // ---- when apply is safe ----------------------------------------------------

  function Other(d: Domain): Domain {
    if d == Locale then Display else Locale
  }

  /** The setting still reads as domain d's entry says it did, if that entry names it at all. */
  predicate Unmoved(w: World, d: Domain, s: Slot) {
    Holds(w.journal, d, s) ==> Same(Get(w.device, s), Prior(w.journal, d, s))
  }

  /**
   * What a caller can check before applyState: a setting it will re-journal is
   * where every entry says it was, and a setting its overwritten entry forgets
   * either is too or is in the other domain's entry.
   */
  ghost predicate LosesNothing(w: World, t: Target, d: Domain, wanted: Record<string>) {
    forall s: Slot :: s.id == t.id ==>
      if s.name in wanted.order then Unmoved(w, Locale, s) && Unmoved(w, Display, s)
      else Holds(w.journal, d, s) ==> Unmoved(w, d, s) || Holds(w.journal, Other(d), s)
  }

  /** No refusal ahead of the journal: applyState gets as far as overwriting the entry. */
  predicate Journals(w: World, t: Target, wanted: Record<string>) {
    Manageable(t) && wanted.order != [] &&
    (forall n :: n in wanted.order ==> !n.Unrecognised?) &&
    (forall n :: n in wanted.order && IsSimctlUi(n) ==> Get(w.device, Slot(t.id, n)).Some?)
  }

  /** The entry applyState writes: the device's own values, read before it was touched. */
  ghost predicate IsEntryFor(e: Entry, w: World, t: Target, d: Domain, wanted: Record<string>) {
    e.domain == d && e.wanted == wanted && e.prior.order == wanted.order && WellFormed(e.prior) &&
    forall n :: n in wanted.order ==> e.prior.at[n] == Get(w.device, Slot(t.id, n))
  }

  lemma {:induction false} FirstUnknownFinds(names: seq<SettingName>, i: nat)
    requires i <= |names|
    ensures FirstUnknown(names, i).None? <==> forall j :: i <= j < |names| ==> !names[j].Unrecognised?
    decreases |names| - i
  {
    if i < |names| { FirstUnknownFinds(names, i + 1); }
  }

  lemma UnknownRefused(w: World, t: Target, wanted: Record<string>)
    requires Journals(w, t, wanted)
    ensures FirstUnknown(wanted.order, 0).None?
  {
    FirstUnknownFinds(wanted.order, 0);
  }

  function Overwrite(w: World, t: Target, d: Domain, e: Entry): World {
    w.(journal := w.journal[KeyOf(d, t.id) := e])
  }

  lemma OverwriteHolds(w: World, t: Target, d: Domain, e: Entry, s: Slot)
    ensures Holds(Overwrite(w, t, d, e).journal, d, s) <==>
      if s.id == t.id then s.name in e.prior.at else Holds(w.journal, d, s)
    ensures Holds(Overwrite(w, t, d, e).journal, d, s) ==>
      Prior(Overwrite(w, t, d, e).journal, d, s) == if s.id == t.id then e.prior.at[s.name] else Prior(w.journal, d, s)
    ensures Holds(Overwrite(w, t, d, e).journal, Other(d), s) <==> Holds(w.journal, Other(d), s)
    ensures Holds(w.journal, Other(d), s) ==>
      Prior(Overwrite(w, t, d, e).journal, Other(d), s) == Prior(w.journal, Other(d), s)
  {
    KeysApart(d, t.id, d, s.id);
    KeysApart(d, t.id, Other(d), s.id);
  }

  lemma OverwriteKeepsSlot(orig: map<Slot, string>, w: World, t: Target, d: Domain, wanted: Record<string>, e: Entry, s: Slot)
    requires Kept(orig, w.device, w.journal, s) && IsEntryFor(e, w, t, d, wanted)
    requires s.id == t.id ==>
      if s.name in wanted.order then Unmoved(w, Locale, s) && Unmoved(w, Display, s)
      else Holds(w.journal, d, s) ==> Unmoved(w, d, s) || Holds(w.journal, Other(d), s)
    ensures Kept(orig, w.device, Overwrite(w, t, d, e).journal, s)
  {
    OverwriteHolds(w, t, d, e, s);
    if s.id == t.id { assert s == Slot(t.id, s.name); }
    match d { case Locale => case Display => }
  }

  /** Overwriting the journal entry keeps every original when LosesNothing says so. */
  lemma OverwriteKeepsSafe(orig: map<Slot, string>, w: World, t: Target, d: Domain, wanted: Record<string>, e: Entry)
    requires Safe(orig, w) && IsEntryFor(e, w, t, d, wanted) && LosesNothing(w, t, d, wanted)
    ensures Safe(orig, Overwrite(w, t, d, e))
  {
    forall s ensures Kept(orig, w.device, Overwrite(w, t, d, e).journal, s) {
      OverwriteKeepsSlot(orig, w, t, d, wanted, e, s);
    }
  }

  lemma ApplyJournalledKeepsSafe(orig: map<Slot, string>, w: World, t: Target, d: Domain, wanted: Record<string>)
    requires Safe(orig, w) && WellFormed(wanted) && AllHeld(w.journal, d, t.id, wanted.order)
    ensures Safe(orig, ApplyJournalled(w, t, d, wanted).w)
  {
    WriteAllKeepsSafe(orig, w, t, d, wanted, 0);
    var wrote := WriteAll(w, t, d, wanted, 0);
    if wrote.out.Returned? { VerifyAllKeepsSafe(orig, wrote.w, t, d, wanted, 0); }
  }

  lemma ScriptKeepsSafe(orig: map<Slot, string>, w: World, w': World)
    requires Safe(orig, w) && w'.device == w.device && w'.journal == w.journal
    ensures Safe(orig, w')
  {
    forall s ensures Kept(orig, w'.device, w'.journal, s) {
      assert Kept(orig, w.device, w.journal, s);
    }
  }

  /** The priors applyState reads, when it reads them all, and why it stops when it does. */
  lemma ReadPriorsIsEntry(w: World, t: Target, d: Domain, wanted: Record<string>)
    requires WellFormed(wanted)
    ensures var r := ReadPriors(w, t.id, wanted.order, 0, map[]);
      r.out.Returned? ==>
        IsEntryFor(Entry(d, r.out.value, wanted), w, t, d, wanted) &&
        forall n :: n in wanted.order && IsSimctlUi(n) ==> Get(w.device, Slot(t.id, n)).Some?
  {
    assert wanted.order[0..] == wanted.order;
  }

  lemma OverwriteReadable(w: World, t: Target, d: Domain, wanted: Record<string>, e: Entry)
    requires Readable(w.journal) && IsEntryFor(e, w, t, d, wanted)
    ensures Readable(Overwrite(w, t, d, e).journal)
    ensures AllHeld(Overwrite(w, t, d, e).journal, d, t.id, wanted.order)
  {
  }

  lemma ApplyWithIs(w: World, w': World, t: Target, d: Domain, wanted: Record<string>, prior: Record<Value>) returns (script: seq<Io>)
    requires WellFormed(wanted) && Readable(w.journal) && WellFormed(prior)
    requires w'.device == w.device && w'.journal == w.journal
    requires IsEntryFor(Entry(d, prior, wanted), w, t, d, wanted)
    ensures Readable(Overwrite(w, t, d, Entry(d, prior, wanted)).journal)
    ensures var r := ApplyWith(w', t, d, wanted, prior);
      (r.w.device == w.device && r.w.journal == w.journal && !r.out.Returned?) ||
      r == ApplyJournalled(Overwrite(w, t, d, Entry(d, prior, wanted)).(script := script), t, d, wanted)
  {
    var e := Entry(d, prior, wanted);
    OverwriteReadable(w, t, d, wanted, e);
    var put := JournalPut(w', d, t.id, e);
    script := put.w.script;
    assert put.out.Returned? ==> put.w == Overwrite(w, t, d, e).(script := script);
  }

  /** applyState either stops with nothing touched, or journals the right entry and goes on. */
  lemma ApplyIs(w: World, t: Target, d: Domain, wanted: Record<string>) returns (e: Entry, script: seq<Io>)
    requires WellFormed(wanted) && Readable(w.journal)
    ensures var r := Apply(w, t, d, wanted);
      (r.w.device == w.device && r.w.journal == w.journal && (r.out.Returned? ==> wanted.order == [])) ||
      (IsEntryFor(e, w, t, d, wanted) && Journals(w, t, wanted) && Readable(Overwrite(w, t, d, e).journal) &&
       r == ApplyJournalled(Overwrite(w, t, d, e).(script := script), t, d, wanted))
  {
    FirstUnknownFinds(wanted.order, 0);
    var r := ReadPriors(w, t.id, wanted.order, 0, map[]);
    e := Entry(d, Record([], map[]), wanted);
    script := [];
    if Refusal(t, wanted).None? && wanted.order != [] && r.out.Returned? {
      ReadPriorsIsEntry(w, t, d, wanted);
      e := Entry(d, r.out.value, wanted);
      script := ApplyWithIs(w, r.w, t, d, wanted, r.out.value);
    }
  }

  lemma ApplyKeepsSafe(orig: map<Slot, string>, w: World, t: Target, d: Domain, wanted: Record<string>)
    requires Safe(orig, w) && WellFormed(wanted)
    requires Journals(w, t, wanted) ==> LosesNothing(w, t, d, wanted)
    ensures Safe(orig, Apply(w, t, d, wanted).w)
  {
    var e, script := ApplyIs(w, t, d, wanted);
    var r := Apply(w, t, d, wanted);
    if r.w.device == w.device && r.w.journal == w.journal {
      ScriptKeepsSafe(orig, w, r.w);
    } else {
      OverwriteKeepsSafe(orig, w, t, d, wanted, e);
      OverwriteReadable(w, t, d, wanted, e);
      var w1 := Overwrite(w, t, d, e).(script := script);
      ScriptKeepsSafe(orig, Overwrite(w, t, d, e), w1);
      ApplyJournalledKeepsSafe(orig, w1, t, d, wanted);
    }
  }

  ghost predicate AllWork(script: seq<Io>) {
    forall i :: 0 <= i < |script| ==> script[i] == Works
  }

  lemma {:induction false} ReadPriorsWorks(w: World, id: string, names: seq<SettingName>, i: nat, at: map<SettingName, Value>)
    requires i <= |names| && AllWork(w.script) && |names| - i <= |w.script|
    requires forall n :: n in names && IsSimctlUi(n) ==> Get(w.device, Slot(id, n)).Some?
    ensures var r := ReadPriors(w, id, names, i, at); r.out.Returned? && r.w.script == w.script[|names| - i..]
    decreases |names| - i
  {
    if i < |names| {
      ReadPriorsWorks(w.(script := w.script[1..]), id, names, i + 1, at[names[i] := Get(w.device, Slot(id, names[i]))]);
    }
  }

  /** The process dying right after the journal is written leaves exactly the overwritten journal. */
  lemma ApplyDiesAfterPut(w: World, t: Target, d: Domain, wanted: Record<string>) returns (e: Entry)
    requires WellFormed(wanted) && Readable(w.journal) && Journals(w, t, wanted)
    ensures IsEntryFor(e, w, t, d, wanted)
    ensures Apply(w.(script := seq(|wanted.order| + 1, _ => Works)), t, d, wanted).w == Overwrite(w, t, d, e).(script := [])
  {
    hide ReadPriors, Undo;
    var script := seq(|wanted.order| + 1, _ => Works);
    var w0 := w.(script := script);
    UnknownRefused(w, t, wanted);
    ReadPriorsWorks(w0, t.id, wanted.order, 0, map[]);
    ReadPriorsIsEntry(w0, t, d, wanted);
    var r := ReadPriors(w0, t.id, wanted.order, 0, map[]);
    e := Entry(d, r.out.value, wanted);
    OverwriteReadable(w, t, d, wanted, e);
    var put := JournalPut(r.w, d, t.id, e);
    assert put.w == Overwrite(w, t, d, e).(script := []);
    assert WriteAll(put.w, t, d, wanted, 0) == Step(put.w, Crashed);
  }

  lemma OverwriteLoses(orig: map<Slot, string>, w: World, t: Target, d: Domain, wanted: Record<string>, e: Entry, s: Slot)
    requires Kept(orig, w.device, w.journal, s) && IsEntryFor(e, w, t, d, wanted) && s.id == t.id
    requires !(if s.name in wanted.order then Unmoved(w, Locale, s) && Unmoved(w, Display, s)
               else Holds(w.journal, d, s) ==> Unmoved(w, d, s) || Holds(w.journal, Other(d), s))
    ensures !Kept(orig, w.device, Overwrite(w, t, d, e).journal, s)
  {
    OverwriteHolds(w, t, d, e, s);
    assert s == Slot(t.id, s.name);
    match d { case Locale => case Display => }
  }

  /**
   * applyState keeps every original in every environment and at every crash
   * point exactly when it is refused before the journal or LosesNothing holds.
   */
  lemma ApplyIsSafeExactlyWhen(orig: map<Slot, string>, w: World, t: Target, d: Domain, wanted: Record<string>)
    requires Safe(orig, w) && WellFormed(wanted)
    ensures (forall script :: Safe(orig, Apply(w.(script := script), t, d, wanted).w)) <==>
            (Journals(w, t, wanted) ==> LosesNothing(w, t, d, wanted))
  {
    if Journals(w, t, wanted) && !LosesNothing(w, t, d, wanted) {
      var e := ApplyDiesAfterPut(w, t, d, wanted);
      var s: Slot :| s.id == t.id &&
        !(if s.name in wanted.order then Unmoved(w, Locale, s) && Unmoved(w, Display, s)
          else Holds(w.journal, d, s) ==> Unmoved(w, d, s) || Holds(w.journal, Other(d), s));
      OverwriteLoses(orig, w, t, d, wanted, e, s);
      assert !Safe(orig, Apply(w.(script := seq(|wanted.order| + 1, _ => Works)), t, d, wanted).w);
    } else {
      forall script ensures Safe(orig, Apply(w.(script := script), t, d, wanted).w) {
        ScriptKeepsSafe(orig, w, w.(script := script));
        ApplyKeepsSafe(orig, w.(script := script), t, d, wanted);
      }
    }
  }

  /** The callers' discipline is enough: no entry of one's own, and settings the other domain does not hold. */
  lemma FreshAndDisjointLosesNothing(w: World, t: Target, d: Domain, wanted: Record<string>)
    requires KeyOf(d, t.id) !in w.journal
    requires forall n :: n in wanted.order ==> OwnerOf(n) == d
    requires forall n, d' :: Holds(w.journal, d', Slot(t.id, n)) ==> OwnerOf(n) == d'
    ensures LosesNothing(w, t, d, wanted)
  {
    forall s: Slot | s.id == t.id && s.name in wanted.order
      ensures !Holds(w.journal, Locale, s) && !Holds(w.journal, Display, s)
    {
      assert s == Slot(t.id, s.name);
      assert Holds(w.journal, Other(d), s) ==> OwnerOf(s.name) == Other(d);
    }
  }
}
