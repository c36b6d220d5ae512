// DeviceCounterexamples: concrete runs that lose a setting, one for each
// hypothesis of the safety and convergence results.

module DeviceCounterexamples {
  import opened Text
  import opened DeviceState
  import opened DeviceSafety
  import opened DeviceOutcomes
  import opened DeviceSweep
  import opened DeviceRuns

  const Phone := Target("p", "android", None)

  function One<V>(n: SettingName, v: V): Record<V> {
    Record([n], map[n := v])
  }

  const Scale := Slot("p", FontScale)

  lemma OneIsItself(c: char)
    requires !IsSpace(c) && !('A' <= c <= 'Z') && c != '_'
    ensures Normalise(Some([c])) == [c]
  {
    assert Trim([c]) == [c];
    assert Lower([c]) == [c];
  }

  lemma ScalesDiffer()
    ensures !Same(Some("1"), Some("2")) && !Same(Some("3"), Some("2")) && !Same(Some("1"), Some("3"))
  {
    OneIsItself('1');
    OneIsItself('2');
    OneIsItself('3');
  }

  // ---- one setting on one phone ----------------------------------------------

  function ScaleEntry(d: Domain, prior: string, wanted: string): Entry {
    Entry(d, One(FontScale, Some(prior)), One(FontScale, wanted))
  }

  lemma TheEntry(e: Entry, w: World, d: Domain, scale: string, wanted: string)
    requires Get(w.device, Scale) == Some(scale) && IsEntryFor(e, w, Phone, d, One(FontScale, wanted))
    ensures e == ScaleEntry(d, scale, wanted)
  {
    assert FontScale in [FontScale];
    assert e.prior.at == map[FontScale := Some(scale)];
  }

  /** applyState with working tools. */
  lemma ApplyScale(w: World, d: Domain, scale: string, wanted: string)
    requires w.device == map[Scale := scale] && Readable(w.journal) && w.script == [Works, Works, Works, Works]
    ensures WellFormed(One(FontScale, wanted))
    ensures Apply(w, Phone, d, One(FontScale, wanted)).w.device == map[Scale := wanted]
    ensures Apply(w, Phone, d, One(FontScale, wanted)).w.journal == w.journal[KeyOf(d, "p") := ScaleEntry(d, scale, wanted)]
  {
    hide Apply;
    var r := One(FontScale, wanted);
    var e := ApplyWorks(w, Phone, d, r, 0);
    TheEntry(e, w, d, scale, wanted);
    var device := Apply(w, Phone, d, r).w.device;
    forall s: Slot ensures Get(device, s) == Get(map[Scale := wanted], s) {
      assert s.id == "p" && s.name in r.order[0..] <==> s == Scale;
    }
    SameReadings(device, map[Scale := wanted]);
  }

  lemma SameReadings(a: map<Slot, string>, b: map<Slot, string>)
    requires forall s: Slot :: Get(a, s) == Get(b, s)
    ensures a == b
  {
    forall s: Slot ensures s in a <==> s in b { assert Get(a, s) == Get(b, s); }
    forall s: Slot | s in a ensures a[s] == b[s] { assert Get(a, s) == Get(b, s); }
  }

  /** applyState killed between its journal write and its first write to the device. */
  lemma ApplyScaleDies(w: World, d: Domain, scale: string, wanted: string)
    requires w.device == map[Scale := scale] && Readable(w.journal) && w.script == [Works, Works]
    ensures WellFormed(One(FontScale, wanted))
    ensures Apply(w, Phone, d, One(FontScale, wanted)).w.device == w.device
    ensures Apply(w, Phone, d, One(FontScale, wanted)).w.journal == w.journal[KeyOf(d, "p") := ScaleEntry(d, scale, wanted)]
  {
    var r := One(FontScale, wanted);
    var e := ApplyDiesAfterPut(w, Phone, d, r);
    TheEntry(e, w, d, scale, wanted);
    assert w.script == seq(2, _ => Works);
    assert w.(script := seq(2, _ => Works)) == w;
  }

  /** restoreState with working tools. */
  lemma RestoreScale(w: World, d: Domain, scale: string, prior: string, wanted: string)
    requires w.device == map[Scale := scale] && Readable(w.journal) && w.script == [Works, Works, Works, Works]
    requires KeyOf(d, "p") in w.journal && w.journal[KeyOf(d, "p")] == ScaleEntry(d, prior, wanted)
    ensures Same(Get(Restore(w, Phone, d).w.device, Scale), Some(prior))
    ensures Restore(w, Phone, d).w.journal == w.journal - {KeyOf(d, "p")}
  {
    assert FontScale in ScaleEntry(d, prior, wanted).prior.at;
    RestoreClearsExactlyWhen(w, Phone, d, 0);
  }

  /** restoreState whose one write exits cleanly and does nothing: the entry stays. */
  lemma RestoreScaleFails(w: World, d: Domain, scale: string, prior: string, wanted: string)
    requires w.device == map[Scale := scale] && Readable(w.journal) && !Same(Some(scale), Some(prior))
    requires w.script == [Works, Io(false, Ignored), Works]
    requires KeyOf(d, "p") in w.journal && w.journal[KeyOf(d, "p")] == ScaleEntry(d, prior, wanted)
    ensures Restore(w, Phone, d).out.Threw?
    ensures Restore(w, Phone, d).w.device == w.device && Restore(w, Phone, d).w.journal == w.journal
  {
    var r := One(FontScale, Some(prior));
    var one := RestoreOne(w, "p", FontScale, Some(prior));
    assert one == Step(w.(script := []), Returned(Tally(true, [StillWrong(FontScale, Some(scale))])));
    assert RestoreFrom(one.w, "p", r, 1, Tally(true, [StillWrong(FontScale, Some(scale))])).out.Returned?;
    assert [] + [StillWrong(FontScale, Some(scale))] == [StillWrong(FontScale, Some(scale))];
    assert RestoreFrom(w, "p", r, 0, Tally(false, [])) ==
      Step(one.w, Returned(Tally(true, [StillWrong(FontScale, Some(scale))])));
  }

  const FourWork: seq<Io> := [Works, Works, Works, Works]

  // ---- applying over an entry that is still there ----------------------------

  function Start(scale: string): History {
    History(World(map[Scale := scale], map[], []), map[Scale := scale])
  }

  const FailingScript: seq<Io> := [Works, Io(false, Ignored), Works]

  /** The sweep finds no locale entry and a display entry, and restores that one. */
  lemma PhoneSweepIs(w: World)
    requires Readable(w.journal) && KeyOf(Locale, "p") !in w.journal
    ensures Sweep(w, [Phone]).w == Restore(w, Phone, Display).w
  {
    hide Restore;
    NothingToRestore(w);
    var one := Repair(w, Phone, Locale, []);
    SweepIs(w, [Phone], 0, []);
    SweepIs(w, [Phone], 1, []);
    var two := Repair(w, Phone, Display, []);
    if two.out.Returned? { SweepWasOver(two.w, [Phone], two.out.value); }
  }

  lemma NothingToRestore(w: World)
    requires Readable(w.journal) && KeyOf(Locale, "p") !in w.journal
    ensures Restore(w, Phone, Locale) == Step(w, Returned(false))
  {
  }

  /** The sweep, after the second job was killed, finds the phone as the entry says and drops it. */
  lemma OverwriteStep4(h: History)
    requires Readable(h.w.journal) && h.w.device == map[Scale := "2"]
    requires h.w.journal == map[KeyOf(Display, "p") := ScaleEntry(Display, "2", "3")]
    ensures var h' := After(h, [Event(SweepOp([Phone]), FourWork)]);
      h'.orig == h.orig && h'.w.journal == map[] && Same(Get(h'.w.device, Scale), Some("2"))
  {
    hide Sweep, Restore;
    var w := h.w.(script := FourWork);
    KeysApart(Locale, "p", Display, "p");
    PhoneSweepIs(w);
    RestoreScale(w, Display, "2", "2", "3");
    assert w.journal - {KeyOf(Display, "p")} == map[];
    var e := Event(SweepOp([Phone]), FourWork);
    assert After(Happen(h, e), [e][1..]) == Happen(h, e);
  }

  lemma OverwriteStep3(h: History)
    requires Readable(h.w.journal) && h.w.device == map[Scale := "2"]
    requires h.w.journal == map[KeyOf(Display, "p") := ScaleEntry(Display, "1", "2")]
    ensures WellFormed(One(FontScale, "3"))
    ensures var h' := After(h, [Event(ApplyOp(Phone, Display, One(FontScale, "3")), [Works, Works]),
                                Event(SweepOp([Phone]), FourWork)]);
      h'.orig == h.orig && h'.w.journal == map[] && Same(Get(h'.w.device, Scale), Some("2"))
  {
    hide Apply, Sweep;
    var e3 := Event(ApplyOp(Phone, Display, One(FontScale, "3")), [Works, Works]);
    var e4 := Event(SweepOp([Phone]), FourWork);
    ApplyScaleDies(h.w.(script := e3.script), Display, "2", "3");
    OverwriteStep4(Happen(h, e3));
    assert [e3, e4][1..] == [e4];
  }

  lemma OverwriteStep2(h: History)
    requires Readable(h.w.journal) && h.w.device == map[Scale := "2"]
    requires h.w.journal == map[KeyOf(Display, "p") := ScaleEntry(Display, "1", "2")]
    ensures WellFormed(One(FontScale, "3"))
    ensures var h' := After(h, [Event(RestoreOp(Phone, Display), FailingScript),
                                Event(ApplyOp(Phone, Display, One(FontScale, "3")), [Works, Works]),
                                Event(SweepOp([Phone]), FourWork)]);
      h'.orig == h.orig && h'.w.journal == map[] && Same(Get(h'.w.device, Scale), Some("2"))
  {
    ScalesDiffer();
    var e2 := Event(RestoreOp(Phone, Display), FailingScript);
    var e3 := Event(ApplyOp(Phone, Display, One(FontScale, "3")), [Works, Works]);
    var e4 := Event(SweepOp([Phone]), FourWork);
    RestoreScaleFails(h.w.(script := e2.script), Display, "2", "1", "2");
    OverwriteStep3(Happen(h, e2));
    assert [e2, e3, e4][1..] == [e3, e4];
  }

  /**
   * A job applies "2"; its restore fails and nobody is told; the next
   * applyState overwrites the entry and is killed; the sweep then "restores"
   * the value the first job left.  The journal ends empty and the original,
   * "1", is nowhere.
   */
  lemma OverwritingAnEntryLosesTheOriginal()
    ensures WellFormed(One(FontScale, "2")) && WellFormed(One(FontScale, "3"))
    ensures var h' := After(Start("1"), [Event(ApplyOp(Phone, Display, One(FontScale, "2")), FourWork),
                                         Event(RestoreOp(Phone, Display), FailingScript),
                                         Event(ApplyOp(Phone, Display, One(FontScale, "3")), [Works, Works]),
                                         Event(SweepOp([Phone]), FourWork)]);
      h'.w.journal == map[] && !Same(Get(h'.w.device, Scale), Get(h'.orig, Scale))
  {
    ScalesDiffer();
    var e1 := Event(ApplyOp(Phone, Display, One(FontScale, "2")), FourWork);
    var e2 := Event(RestoreOp(Phone, Display), FailingScript);
    var e3 := Event(ApplyOp(Phone, Display, One(FontScale, "3")), [Works, Works]);
    var e4 := Event(SweepOp([Phone]), FourWork);
    ApplyScale(Start("1").w.(script := e1.script), Display, "1", "2");
    OverwriteStep2(Happen(Start("1"), e1));
    assert [e1, e2, e3, e4][1..] == [e2, e3, e4];
  }

  // ---- two domains with a setting in common ----------------------------------

  lemma SharingStep4(h: History)
    requires Readable(h.w.journal)
    requires h.w.journal == map[KeyOf(Display, "p") := ScaleEntry(Display, "2", "3")]
    ensures var h' := After(h, [Event(RestoreOp(Phone, Display), FourWork)]);
      h'.orig == h.orig && h'.w.journal == map[] && Same(Get(h'.w.device, Scale), Some("2"))
  {
    hide Restore;
    var e := Event(RestoreOp(Phone, Display), FourWork);
    var w := h.w.(script := FourWork);
    assert FontScale in ScaleEntry(Display, "2", "3").prior.at;
    RestoreClearsExactlyWhen(w, Phone, Display, 0);
    assert w.journal - {KeyOf(Display, "p")} == map[];
    assert After(Happen(h, e), [e][1..]) == Happen(h, e);
  }

  lemma LocaleRestored(h: History)
    requires Readable(h.w.journal) && h.w.device == map[Scale := "3"]
    requires h.w.journal ==
      map[KeyOf(Locale, "p") := ScaleEntry(Locale, "1", "2"), KeyOf(Display, "p") := ScaleEntry(Display, "2", "3")]
    ensures Restore(h.w.(script := FourWork), Phone, Locale).w.journal ==
      map[KeyOf(Display, "p") := ScaleEntry(Display, "2", "3")]
  {
    KeysApart(Locale, "p", Display, "p");
    var j := h.w.journal;
    assert KeyOf(Locale, "p") in j && j[KeyOf(Locale, "p")] == ScaleEntry(Locale, "1", "2");
    assert j - {KeyOf(Locale, "p")} == map[KeyOf(Display, "p") := ScaleEntry(Display, "2", "3")];
    RestoreScale(h.w.(script := FourWork), Locale, "3", "1", "2");
  }

  lemma SharingStep3(h: History)
    requires Readable(h.w.journal) && h.w.device == map[Scale := "3"]
    requires h.w.journal ==
      map[KeyOf(Locale, "p") := ScaleEntry(Locale, "1", "2"), KeyOf(Display, "p") := ScaleEntry(Display, "2", "3")]
    ensures var h' := After(h, [Event(RestoreOp(Phone, Locale), FourWork), Event(RestoreOp(Phone, Display), FourWork)]);
      h'.orig == h.orig && h'.w.journal == map[] && Same(Get(h'.w.device, Scale), Some("2"))
  {
    var e3 := Event(RestoreOp(Phone, Locale), FourWork);
    var e4 := Event(RestoreOp(Phone, Display), FourWork);
    LocaleRestored(h);
    SharingStep4(Happen(h, e3));
    assert [e3, e4][1..] == [e4];
  }

  lemma SharingStep2(h: History)
    requires Readable(h.w.journal) && h.w.device == map[Scale := "2"]
    requires h.w.journal == map[KeyOf(Locale, "p") := ScaleEntry(Locale, "1", "2")]
    ensures WellFormed(One(FontScale, "3"))
    ensures var h' := After(h, [Event(ApplyOp(Phone, Display, One(FontScale, "3")), FourWork),
                                Event(RestoreOp(Phone, Locale), FourWork), Event(RestoreOp(Phone, Display), FourWork)]);
      h'.orig == h.orig && h'.w.journal == map[] && Same(Get(h'.w.device, Scale), Some("2"))
  {
    var e2 := Event(ApplyOp(Phone, Display, One(FontScale, "3")), FourWork);
    var e3 := Event(RestoreOp(Phone, Locale), FourWork);
    var e4 := Event(RestoreOp(Phone, Display), FourWork);
    ApplyScale(h.w.(script := FourWork), Display, "2", "3");
    SharingStep3(Happen(h, e2));
    assert [e2, e3, e4][1..] == [e3, e4];
  }

  /**
   * Jobs of two domains hold the same setting at once.  The first restore puts
   * "1" back; the second puts back what the first job had set.
   */
  lemma SharingASettingLosesTheOriginal()
    ensures WellFormed(One(FontScale, "2")) && WellFormed(One(FontScale, "3"))
    ensures var h' := After(Start("1"), [Event(ApplyOp(Phone, Locale, One(FontScale, "2")), FourWork),
                                         Event(ApplyOp(Phone, Display, One(FontScale, "3")), FourWork),
                                         Event(RestoreOp(Phone, Locale), FourWork),
                                         Event(RestoreOp(Phone, Display), FourWork)]);
      h'.w.journal == map[] && !Same(Get(h'.w.device, Scale), Get(h'.orig, Scale))
  {
    ScalesDiffer();
    var e1 := Event(ApplyOp(Phone, Locale, One(FontScale, "2")), FourWork);
    var e2 := Event(ApplyOp(Phone, Display, One(FontScale, "3")), FourWork);
    var e3 := Event(RestoreOp(Phone, Locale), FourWork);
    var e4 := Event(RestoreOp(Phone, Display), FourWork);
    ApplyScale(Start("1").w.(script := FourWork), Locale, "1", "2");
    SharingStep2(Happen(Start("1"), e1));
    assert [e1, e2, e3, e4][1..] == [e2, e3, e4];
  }

  // ---- a null night mode -----------------------------------------------------

  /** The entry applyState writes for a phone whose night mode could not be read. */
  const NightEntry := Entry(Display, One(UiModeNight, None), One(UiModeNight, "yes"))

  /** applyState accepts a null night mode, which it would refuse from simctl, and changes the phone. */
  lemma NullNightModeIsApplied()
    ensures var r := Apply(World(map[], map[], FourWork), Phone, Display, One(UiModeNight, "yes"));
      r.out.Returned? && Get(r.w.device, Slot("p", UiModeNight)) == Some("yes") &&
      r.w.journal == map[KeyOf(Display, "p") := NightEntry]
  {
    hide Apply;
    var w := World(map[], map[], FourWork);
    var wanted := One(UiModeNight, "yes");
    var e := ApplyWorks(w, Phone, Display, wanted, 0);
    assert UiModeNight in [UiModeNight];
    assert e.prior.at == map[UiModeNight := None];
    assert e == NightEntry;
    var s := Slot("p", UiModeNight);
    assert s.name in wanted.order[0..];
  }

  lemma YesIsNotUnset()
    ensures !Same(Some("yes"), None)
  {
    assert Trim("yes") == "yes";
    assert |Normalise(Some("yes"))| == 3 && |Normalise(None)| == 0;
  }

  /** w after n sweeps of the phone alone, each with working tools. */
  ghost function Swept(w: World, n: nat): (w': World)
    requires Readable(w.journal)
    ensures Readable(w'.journal)
  {
    if n == 0 then w else SweepFrom(Swept(w, n - 1).(script := seq(8, _ => Works)), [Phone], 0, []).w
  }

  /** No number of sweeps, with every tool working, clears that entry. */
  lemma {:induction false} NoSweepClearsANullNightMode(w: World, n: nat)
    requires w.journal == map[KeyOf(Display, "p") := NightEntry] && Get(w.device, Slot("p", UiModeNight)) == Some("yes")
    ensures Readable(w.journal) && Swept(w, n).journal == w.journal && !Clearable(Swept(w, n), Display, "p")
  {
    hide SweepFrom;
    if n == 0 {
      YesIsNotUnset();
      assert UiModeNight in NightEntry.prior.at;
      assert !Restorable(w.device, "p", UiModeNight, None);
    } else {
      NoSweepClearsANullNightMode(w, n - 1);
      SweepKeepsNight(Swept(w, n - 1).(script := seq(8, _ => Works)));
    }
  }

  lemma SweepKeepsNight(w: World)
    requires w.journal == map[KeyOf(Display, "p") := NightEntry] && !Clearable(w, Display, "p")
    requires w.script == seq(8, _ => Works)
    ensures Readable(w.journal)
    ensures SweepFrom(w, [Phone], 0, []).w.journal == w.journal
    ensures !Clearable(SweepFrom(w, [Phone], 0, []).w, Display, "p")
  {
    hide SweepFrom;
    var w' := SweepFrom(w, [Phone], 0, []).w;
    KeysApart(Locale, "p", Display, "p");
    assert Budget(4, 2) == 4 + Budget(4, 1) == 8 + Budget(4, 0);
    assert Ready(w, [Phone], 0, 4);
    assert Phone in [Phone];
    SweepVisitsAttached([Phone], Display, "p");
    SweepClearsExactlyWhen(w, [Phone], 0, [], 4, Display, "p");
    SweepKeepsUnclearable(w, [Phone], 0, [], 4, Display, "p");
    SweepWithin(w, [Phone], 0, []);
    assert w'.journal == w.journal;
  }
}
