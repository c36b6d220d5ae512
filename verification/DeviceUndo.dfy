// DeviceUndo: how applyState ends once it has begun to write - what makes it
// return, and what it puts back when it does not.

module DeviceUndo {
  import opened Text
  import opened DeviceState
  import opened DeviceSafety
  import opened DeviceOutcomes

  // ---- calls and writes one by one -------------------------------------------

  /** The first k calls are made and do not throw; a write among them may do anything to the device. */
  predicate Clean(script: seq<Io>, k: nat) {
    k <= |script| && forall i :: 0 <= i < k ==> !script[i].throws
  }

  lemma CleanTail(script: seq<Io>, k: nat)
    requires Clean(script, k) && k > 0
    ensures script != [] && !script[0].throws && Clean(script[1..], k - 1)
  {
  }

  /** What the device holds after a write of v to s that has this effect. */
  function Landed(device: map<Slot, string>, s: Slot, v: string, effect: Effect): map<Slot, string> {
    match effect
    case Takes => device[s := v]
    case Ignored => device
    case Garbles(left) => Set(device, s, left)
  }

  lemma WriteLands(w: World, id: string, n: SettingName, v: string)
    requires w.script != []
    ensures Write(w, id, n, Some(v)) ==
      Step(w.(device := Landed(w.device, Slot(id, n), v, w.script[0].effect), script := w.script[1..]),
           if w.script[0].throws then Threw(CallFailed) else Returned(()))
  {
  }

  /** Where the first k writes from the i-th leave the device. */
  function AfterWrites(device: map<Slot, string>, id: string, wanted: Record<string>, i: nat, script: seq<Io>, k: nat)
    : map<Slot, string>
    requires WellFormed(wanted) && i + k <= |wanted.order| && k <= |script|
    decreases k
  {
    if k == 0 then device
    else
      var n := wanted.order[i];
      AfterWrites(Landed(device, Slot(id, n), wanted.at[n], script[0].effect), id, wanted, i + 1, script[1..], k - 1)
  }

  /** The setting reads as wanted. */
  predicate Took(device: map<Slot, string>, id: string, wanted: Record<string>, n: SettingName)
    requires n in wanted.at
  {
    Same(Get(device, Slot(id, n)), Some(wanted.at[n]))
  }

  predicate AllTook(device: map<Slot, string>, id: string, wanted: Record<string>, i: nat, j: nat)
    requires WellFormed(wanted) && i <= j <= |wanted.order|
  {
    forall k :: i <= k < j ==> Took(device, id, wanted, wanted.order[k])
  }

  // ---- the write loop --------------------------------------------------------

  /** Writes that exit cleanly are all made, whatever they do. */
  lemma {:induction false} WritesReturn(w: World, t: Target, d: Domain, wanted: Record<string>, i: nat)
    requires i <= |wanted.order| && WellFormed(wanted) && Readable(w.journal) && Clean(w.script, |wanted.order| - i)
    ensures WriteAll(w, t, d, wanted, i) ==
      Step(w.(device := AfterWrites(w.device, t.id, wanted, i, w.script, |wanted.order| - i),
              script := w.script[|wanted.order| - i..]), Returned(()))
    decreases |wanted.order| - i
  {
    hide Undo, Write, Landed;
    if i < |wanted.order| {
      var n := wanted.order[i];
      CleanTail(w.script, |wanted.order| - i);
      WriteLands(w, t.id, n, wanted.at[n]);
      WritesReturn(Write(w, t.id, n, Some(wanted.at[n])).w, t, d, wanted, i + 1);
    }
  }

  /** One that throws is the last, and what was written is undone, its own effect included. */
  lemma {:induction false} ThrowingWriteUndoes(w: World, t: Target, d: Domain, wanted: Record<string>, i: nat, j: nat)
    requires i <= j < |wanted.order| && WellFormed(wanted) && Readable(w.journal)
    requires Clean(w.script, j - i) && j - i < |w.script| && w.script[j - i].throws
    ensures WriteAll(w, t, d, wanted, i) ==
      Undo(w.(device := AfterWrites(w.device, t.id, wanted, i, w.script, j - i + 1), script := w.script[j - i + 1..]),
           t, d, CouldNotSet(wanted.order[j]))
    decreases j - i
  {
    hide Undo, Write, Landed;
    var n := wanted.order[i];
    WriteLands(w, t.id, n, wanted.at[n]);
    var w1 := Write(w, t.id, n, Some(wanted.at[n])).w;
    if i < j {
      CleanTail(w.script, j - i);
      ThrowingWriteUndoes(w1, t, d, wanted, i + 1, j);
    } else {
      OneWrite(w.device, t.id, wanted, i, w.script);
    }
  }

  lemma OneWrite(device: map<Slot, string>, id: string, wanted: Record<string>, i: nat, script: seq<Io>)
    requires WellFormed(wanted) && i < |wanted.order| && script != []
    ensures AfterWrites(device, id, wanted, i, script, 1) ==
      Landed(device, Slot(id, wanted.order[i]), wanted.at[wanted.order[i]], script[0].effect)
  {
    hide Landed;
  }

  // ---- the read-back loop ----------------------------------------------------

  lemma {:induction false} ReadBacksReturn(w: World, t: Target, d: Domain, wanted: Record<string>, i: nat)
    requires i <= |wanted.order| && WellFormed(wanted) && Readable(w.journal) && Clean(w.script, |wanted.order| - i)
    requires AllTook(w.device, t.id, wanted, i, |wanted.order|)
    ensures VerifyAll(w, t, d, wanted, i) == Step(w.(script := w.script[|wanted.order| - i..]), Returned(()))
    decreases |wanted.order| - i
  {
    hide Undo, Same, Get;
    if i < |wanted.order| {
      CleanTail(w.script, |wanted.order| - i);
      assert Took(w.device, t.id, wanted, wanted.order[i]);
      ReadBacksReturn(Read(w, t.id, wanted.order[i]).w, t, d, wanted, i + 1);
    }
  }

  /** Why the j-th read-back stops the call, if it does. */
  function Complaint(w: World, t: Target, wanted: Record<string>, j: nat, throws: bool): Error
    requires j < |wanted.order|
  {
    if throws then CouldNotVerify(wanted.order[j])
    else DidNotTake(wanted.order[j], Get(w.device, Slot(t.id, wanted.order[j])))
  }

  /** The first read-back that throws, or finds its setting otherwise than wanted, is the last; everything is undone. */
  lemma {:induction false} ReadBackUndoes(w: World, t: Target, d: Domain, wanted: Record<string>, i: nat, j: nat)
    requires i <= j < |wanted.order| && WellFormed(wanted) && Readable(w.journal)
    requires Clean(w.script, j - i) && j - i < |w.script| && AllTook(w.device, t.id, wanted, i, j)
    requires w.script[j - i].throws || !Took(w.device, t.id, wanted, wanted.order[j])
    ensures VerifyAll(w, t, d, wanted, i) ==
      Undo(w.(script := w.script[j - i + 1..]), t, d, Complaint(w, t, wanted, j, w.script[j - i].throws))
    decreases j - i
  {
    hide Undo, Same, Get;
    if i < j {
      CleanTail(w.script, j - i);
      assert Took(w.device, t.id, wanted, wanted.order[i]);
      ReadBackUndoes(Read(w, t.id, wanted.order[i]).w, t, d, wanted, i + 1, j);
    }
  }

  // ---- undoing ---------------------------------------------------------------

  /** Every setting asked for already reads as it did before, where the writes left it, or can be made to. */
  predicate CanPutBack(w: World, device: map<Slot, string>, t: Target, wanted: Record<string>) {
    forall n :: n in wanted.order ==> Restorable(device, t.id, n, Get(w.device, Slot(t.id, n)))
  }

  predicate AsBefore(w: World, w': World, t: Target, wanted: Record<string>) {
    forall n :: n in wanted.order ==> Same(Get(w'.device, Slot(t.id, n)), Get(w.device, Slot(t.id, n)))
  }

  /**
   * What a failed call leaves, if the writes left the device so: when everything
   * can be put back, it is, and the entry is gone; when something cannot be, some
   * setting is not as before, and the entry stays to say so.
   */
  ghost predicate PutsBack(w: World, w': World, device: map<Slot, string>, t: Target, d: Domain, wanted: Record<string>) {
    (AsBefore(w, w', t, wanted) <==> CanPutBack(w, device, t, wanted)) &&
    (if CanPutBack(w, device, t, wanted) then w'.journal == w.journal - {KeyOf(d, t.id)} else Journalled(w, w', t, d, wanted))
  }

  lemma CanPutBackIs(w: World, device: map<Slot, string>, t: Target, d: Domain, wanted: Record<string>, e: Entry)
    requires IsEntryFor(e, w, t, d, wanted)
    ensures CanPutBack(w, device, t, wanted) <==> EntryRestorable(device, t.id, e)
  {
    hide Restorable, Get;
    forall n ensures n in wanted.order <==> n in e.prior.at {}
  }

  lemma AsBeforeIsRestorable(w: World, w': World, t: Target, wanted: Record<string>)
    ensures AsBefore(w, w', t, wanted) ==> CanPutBack(w, w'.device, t, wanted)
  {
    hide Same, Get;
  }

  /** With tools that work from then on, undoing puts back what can be put back, and rethrows. */
  lemma UndoPutsBack(w: World, w1: World, t: Target, d: Domain, wanted: Record<string>, e: Entry, error: Error)
    requires WellFormed(wanted) && Manageable(t) && IsEntryFor(e, w, t, d, wanted) && Readable(w1.journal)
    requires w1.journal == w.journal[KeyOf(d, t.id) := e] && Working(w1.script, Cost(e))
    ensures var r := Undo(w1, t, d, error); r.out == Threw(error) && PutsBack(w, r.w, w1.device, t, d, wanted)
  {
    hide Restore, Restorable, Get, Same, EntryRestorable, CanPutBack;
    RestoreClearsExactlyWhen(w1, t, d, 0);
    var w' := Restore(w1, t, d).w;
    CanPutBackIs(w, w1.device, t, d, wanted, e);
    CanPutBackIs(w, w'.device, t, d, wanted, e);
    AsBeforeIsRestorable(w, w', t, wanted);
    assert w.journal[KeyOf(d, t.id) := e] - {KeyOf(d, t.id)} == w.journal - {KeyOf(d, t.id)};
  }

  // ---- applyState from its journal write on ----------------------------------

  lemma {:induction false} PriorsAreRead(w: World, id: string, names: seq<SettingName>, i: nat, at: map<SettingName, Value>)
    requires i <= |names| && Clean(w.script, |names| - i)
    requires forall n :: n in names && IsSimctlUi(n) ==> Get(w.device, Slot(id, n)).Some?
    ensures var r := ReadPriors(w, id, names, i, at); r.out.Returned? && r.w == w.(script := w.script[|names| - i..])
    decreases |names| - i
  {
    hide Get;
    if i < |names| {
      CleanTail(w.script, |names| - i);
      PriorsAreRead(w.(script := w.script[1..]), id, names, i + 1, at[names[i] := Get(w.device, Slot(id, names[i]))]);
    }
  }

  /** Calls before the first write: one read a setting, and the journal. */
  function Ahead(wanted: Record<string>): nat {
    |wanted.order| + 1
  }

  /** With those calls clean, applyState journals what the device holds, and goes on to write. */
  lemma ApplyGoesOn(w: World, t: Target, d: Domain, wanted: Record<string>) returns (e: Entry)
    requires WellFormed(wanted) && Readable(w.journal) && Journals(w, t, wanted) && Clean(w.script, Ahead(wanted))
    ensures IsEntryFor(e, w, t, d, wanted) && Readable(Overwrite(w, t, d, e).journal)
    ensures Apply(w, t, d, wanted) ==
      ApplyJournalled(Overwrite(w, t, d, e).(script := w.script[Ahead(wanted)..]), t, d, wanted)
  {
    hide ReadPriors, ApplyJournalled, Get;
    var n := |wanted.order|;
    UnknownRefused(w, t, wanted);
    PriorsAreRead(w, t.id, wanted.order, 0, map[]);
    ReadPriorsIsEntry(w, t, d, wanted);
    var r := ReadPriors(w, t.id, wanted.order, 0, map[]);
    e := Entry(d, r.out.value, wanted);
    OverwriteReadable(w, t, d, wanted, e);
    assert r.w.script[0] == w.script[n] && r.w.script[1..] == w.script[n + 1..];
    assert JournalPut(r.w, d, t.id, e) == Step(Overwrite(w, t, d, e).(script := w.script[n + 1..]), Returned(()));
  }

  /** Calls an undo can make: three to a setting, and the journal. */
  function ToUndo(wanted: Record<string>): nat {
    3 * |wanted.order| + 1
  }

  lemma CleanDrop(script: seq<Io>, k: nat, m: nat)
    requires Clean(script, k + m)
    ensures Clean(script, k) && Clean(script[k..], m)
  {
  }

  /** The least position at which a setting did not take. */
  lemma {:induction false} FirstUntaken(device: map<Slot, string>, id: string, wanted: Record<string>, i: nat) returns (j: nat)
    requires WellFormed(wanted) && i <= |wanted.order| && !AllTook(device, id, wanted, i, |wanted.order|)
    ensures i <= j < |wanted.order| && AllTook(device, id, wanted, i, j) && !Took(device, id, wanted, wanted.order[j])
    decreases |wanted.order| - i
  {
    hide Took;
    if Took(device, id, wanted, wanted.order[i]) { j := FirstUntaken(device, id, wanted, i + 1); } else { j := i; }
  }

  /** The settings that took are those up to the one named, which did not. */
  ghost predicate BlamesTheFirst(out: Outcome<()>, device: map<Slot, string>, id: string, wanted: Record<string>)
    requires WellFormed(wanted)
  {
    exists j: nat :: j < |wanted.order| && AllTook(device, id, wanted, 0, j) && !Took(device, id, wanted, wanted.order[j]) &&
      out == Threw(DidNotTake(wanted.order[j], Get(device, Slot(id, wanted.order[j]))))
  }

  lemma TwoDrops(script: seq<Io>, p: nat, n: nat)
    requires p + n <= |script|
    ensures script[p..][n..] == script[p + n..]
  {
  }

  /** With the writes clean as well, it comes to the read-back, from where they left the device. */
  lemma ApplyReadsBack(w: World, t: Target, d: Domain, wanted: Record<string>) returns (e: Entry)
    requires WellFormed(wanted) && Readable(w.journal) && Journals(w, t, wanted)
    requires Clean(w.script, Ahead(wanted) + |wanted.order|)
    ensures IsEntryFor(e, w, t, d, wanted) && Readable(Overwrite(w, t, d, e).journal)
    ensures var n, p := |wanted.order|, Ahead(wanted);
      var left := AfterWrites(w.device, t.id, wanted, 0, w.script[p..], n);
      Apply(w, t, d, wanted) == VerifyAll(Overwrite(w, t, d, e).(device := left, script := w.script[p + n..]), t, d, wanted, 0)
  {
    hide Apply, WriteAll, VerifyAll, AfterWrites, Get;
    var n, p := |wanted.order|, Ahead(wanted);
    CleanDrop(w.script, p, n);
    TwoDrops(w.script, p, n);
    e := ApplyGoesOn(w, t, d, wanted);
    WritesReturn(Overwrite(w, t, d, e).(script := w.script[p..]), t, d, wanted, 0);
  }

  lemma JournalsManages(w: World, t: Target, wanted: Record<string>)
    requires Journals(w, t, wanted)
    ensures Manageable(t)
  {
  }

  /** From the read-back on: the j-th setting stops the call, and everything that can be put back is. */
  lemma ReadBackPutsBack(w: World, w2: World, t: Target, d: Domain, wanted: Record<string>, e: Entry, j: nat)
    requires WellFormed(wanted) && Readable(w2.journal) && Journals(w, t, wanted) && IsEntryFor(e, w, t, d, wanted)
    requires w2.journal == w.journal[KeyOf(d, t.id) := e] && j < |wanted.order|
    requires Clean(w2.script, j) && j < |w2.script| && AllTook(w2.device, t.id, wanted, 0, j)
    requires w2.script[j].throws || !Took(w2.device, t.id, wanted, wanted.order[j])
    requires Working(w2.script[j + 1..], ToUndo(wanted))
    ensures var r := VerifyAll(w2, t, d, wanted, 0);
      r.out == Threw(Complaint(w2, t, wanted, j, w2.script[j].throws)) && PutsBack(w, r.w, w2.device, t, d, wanted)
  {
    hide VerifyAll, Undo, Took, PutsBack, Get, Journals, Clean, AllTook, Complaint;
    JournalsManages(w, t, wanted);
    ReadBackUndoes(w2, t, d, wanted, 0, j);
    UndoPutsBack(w, w2.(script := w2.script[j + 1..]), t, d, wanted, e, Complaint(w2, t, wanted, j, w2.script[j].throws));
  }

  /** Working tools, then a setting that did not take. */
  lemma UntakenIsPutBack(w: World, w2: World, t: Target, d: Domain, wanted: Record<string>, e: Entry)
    requires WellFormed(wanted) && Readable(w2.journal) && Journals(w, t, wanted) && IsEntryFor(e, w, t, d, wanted)
    requires w2.journal == w.journal[KeyOf(d, t.id) := e] && Working(w2.script, |wanted.order| + ToUndo(wanted))
    requires !AllTook(w2.device, t.id, wanted, 0, |wanted.order|)
    ensures var r := VerifyAll(w2, t, d, wanted, 0);
      BlamesTheFirst(r.out, w2.device, t.id, wanted) && PutsBack(w, r.w, w2.device, t, d, wanted)
  {
    hide VerifyAll, Took, PutsBack, Get, Journals;
    var j := FirstUntaken(w2.device, t.id, wanted, 0);
    WorkingDrop(w2.script, j + 1, |wanted.order| - j - 1 + ToUndo(wanted));
    WorkingLess(w2.script[j + 1..], ToUndo(wanted), |wanted.order| - j - 1 + ToUndo(wanted));
    ReadBackPutsBack(w, w2, t, d, wanted, e, j);
  }

  /**
   * All or put back.  With writes that exit cleanly, whatever they do, and tools
   * that work from the read-back on: applyState returns exactly when every
   * wanted setting took; otherwise it throws, naming the first that did not, and
   * puts back all that can be put back from where the writes left it.
   */
  lemma ApplyReturnsOrPutsBack(w: World, t: Target, d: Domain, wanted: Record<string>)
    requires WellFormed(wanted) && Readable(w.journal) && Journals(w, t, wanted)
    requires Clean(w.script, Ahead(wanted) + |wanted.order|)
    requires Working(w.script[Ahead(wanted) + |wanted.order|..], |wanted.order| + ToUndo(wanted))
    ensures var n := |wanted.order|; var r := Apply(w, t, d, wanted);
      var left := AfterWrites(w.device, t.id, wanted, 0, w.script[Ahead(wanted)..], n);
      if AllTook(left, t.id, wanted, 0, n)
      then r.out == Returned(()) && r.w.device == left && Journalled(w, r.w, t, d, wanted)
      else BlamesTheFirst(r.out, left, t.id, wanted) && PutsBack(w, r.w, left, t, d, wanted)
  {
    hide Apply, VerifyAll, AfterWrites, AllTook, PutsBack, BlamesTheFirst, Get, Journals, Working;
    var n, p := |wanted.order|, Ahead(wanted);
    var e := ApplyReadsBack(w, t, d, wanted);
    var left := AfterWrites(w.device, t.id, wanted, 0, w.script[p..], n);
    var w2 := Overwrite(w, t, d, e).(device := left, script := w.script[p + n..]);
    if AllTook(left, t.id, wanted, 0, n) {
      WorkingIsClean(w2.script, n + ToUndo(wanted));
      ReadBacksReturn(w2, t, d, wanted, 0);
    } else {
      UntakenIsPutBack(w, w2, t, d, wanted, e);
    }
  }

  lemma WorkingIsClean(script: seq<Io>, k: nat)
    requires Working(script, k)
    ensures Clean(script, k)
  {
  }

  lemma WorkingDrop(script: seq<Io>, k: nat, m: nat)
    requires Working(script, k + m)
    ensures Working(script[k..], m)
  {
  }

  lemma WorkingLess(script: seq<Io>, k: nat, m: nat)
    requires Working(script, m) && k <= m
    ensures Working(script, k)
  {
  }

  /** A write that throws, with tools that work after it: all that can be put back is, that write's own effect included. */
  lemma AThrowingWriteIsPutBack(w: World, t: Target, d: Domain, wanted: Record<string>, j: nat)
    requires WellFormed(wanted) && Readable(w.journal) && Journals(w, t, wanted) && j < |wanted.order|
    requires Clean(w.script, Ahead(wanted) + j) && Ahead(wanted) + j < |w.script| && w.script[Ahead(wanted) + j].throws
    requires Working(w.script[Ahead(wanted) + j + 1..], ToUndo(wanted))
    ensures var r := Apply(w, t, d, wanted);
      var left := AfterWrites(w.device, t.id, wanted, 0, w.script[Ahead(wanted)..], j + 1);
      r.out == Threw(CouldNotSet(wanted.order[j])) && PutsBack(w, r.w, left, t, d, wanted)
  {
    hide Apply, WriteAll, VerifyAll, AfterWrites, Undo, PutsBack, Get;
    var p := Ahead(wanted);
    CleanDrop(w.script, p, j);
    var e := ApplyGoesOn(w, t, d, wanted);
    var w1 := Overwrite(w, t, d, e).(script := w.script[p..]);
    ThrowingWriteUndoes(w1, t, d, wanted, 0, j);
    assert w1.script[j + 1..] == w.script[p + j + 1..];
    var left := AfterWrites(w1.device, t.id, wanted, 0, w1.script, j + 1);
    JournalsManages(w, t, wanted);
    UndoPutsBack(w, w1.(device := left, script := w1.script[j + 1..]), t, d, wanted, e, CouldNotSet(wanted.order[j]));
  }

  /** A read-back that throws, with tools that work after it: likewise. */
  lemma AThrowingReadBackIsPutBack(w: World, t: Target, d: Domain, wanted: Record<string>, j: nat)
    requires WellFormed(wanted) && Readable(w.journal) && Journals(w, t, wanted) && j < |wanted.order|
    requires var q := Ahead(wanted) + |wanted.order| + j;
      Clean(w.script, q) && q < |w.script| && w.script[q].throws && Working(w.script[q + 1..], ToUndo(wanted))
    requires AllTook(AfterWrites(w.device, t.id, wanted, 0, w.script[Ahead(wanted)..], |wanted.order|), t.id, wanted, 0, j)
    ensures var r := Apply(w, t, d, wanted);
      var left := AfterWrites(w.device, t.id, wanted, 0, w.script[Ahead(wanted)..], |wanted.order|);
      r.out == Threw(CouldNotVerify(wanted.order[j])) && PutsBack(w, r.w, left, t, d, wanted)
  {
    hide Apply, VerifyAll, AfterWrites, Took, PutsBack, Get, Journals, AllTook;
    var n, p := |wanted.order|, Ahead(wanted);
    CleanDrop(w.script, p + n, j);
    TwoDrops(w.script, p + n, j + 1);
    var e := ApplyReadsBack(w, t, d, wanted);
    var left := AfterWrites(w.device, t.id, wanted, 0, w.script[p..], n);
    ReadBackPutsBack(w, Overwrite(w, t, d, e).(device := left, script := w.script[p + n..]), t, d, wanted, e, j);
  }
}
