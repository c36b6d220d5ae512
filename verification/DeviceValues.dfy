// DeviceValues: which values of a setting are the same to applyState and
// restoreState, what they do with two that are not, and which calls are refused.

module DeviceValues {
  import opened Text
  import opened DeviceState
  import opened DeviceSafety
  import opened DeviceOutcomes
  import opened DeviceRuns
  import opened DeviceUndo

  // ---- sameness, character by character --------------------------------------

  /** The same character up to ASCII letter case and hyphens written as underscores. */
  predicate LikeChar(c: char, d: char) {
    c == d || (c == '-' && d == '_') || (c == '_' && d == '-') ||
    ('A' <= c <= 'Z' && d as int == c as int + 32) || ('A' <= d <= 'Z' && c as int == d as int + 32)
  }

  /** Equally long, and alike at every position. */
  predicate Alike(s: string, t: string) {
    |s| == |t| && forall i :: 0 <= i < |s| ==> LikeChar(s[i], t[i])
  }

  function Folded(c: char): char {
    if LowerChar(c) == '_' then '-' else LowerChar(c)
  }

  lemma FoldedExactlyWhenAlike(c: char, d: char)
    ensures Folded(c) == Folded(d) <==> LikeChar(c, d)
  {
  }

  lemma NormaliseIs(lead: string, core: string, trail: string)
    requires Blank(lead) && IsCore(core) && Blank(trail)
    ensures var s := Normalise(Some(lead + core + trail));
      |s| == |core| && forall i :: 0 <= i < |core| ==> s[i] == Folded(core[i])
  {
    TrimOfPadded(lead, core, trail);
  }

  /**
   * Two values are the same exactly when what stands between the space around
   * them is equally long and alike at every position.
   */
  lemma SameExactlyWhen(lead: string, a: string, trail: string, lead': string, b: string, trail': string)
    requires Blank(lead) && IsCore(a) && Blank(trail) && Blank(lead') && IsCore(b) && Blank(trail')
    ensures Same(Some(lead + a + trail), Some(lead' + b + trail')) <==> Alike(a, b)
  {
    hide LikeChar, Folded, Normalise, Blank, IsCore;
    var s, t := Normalise(Some(lead + a + trail)), Normalise(Some(lead' + b + trail'));
    NormaliseIs(lead, a, trail);
    NormaliseIs(lead', b, trail');
    forall i | 0 <= i < |a| && i < |b| ensures s[i] == t[i] <==> LikeChar(a[i], b[i]) {
      FoldedExactlyWhenAlike(a[i], b[i]);
    }
  }

  /** An unset value is the same as what is blank, and as nothing else. */
  lemma UnsetIsBlank(s: string)
    ensures Same(None, Some(s)) <==> Blank(s)
  {
    BlankVanishes(s);
    assert Trim("") == "";
  }

  /** Two trimmed values, character by character. */
  lemma CoresSame(a: string, b: string)
    requires IsCore(a) && IsCore(b)
    ensures Same(Some(a), Some(b)) <==> Alike(a, b)
  {
    hide Same, Alike;
    SameExactlyWhen("", a, "", "", b, "");
    assert "" + a + "" == a && "" + b + "" == b;
  }

  /** One character that is not alike is enough. */
  lemma OneCharacterDiffers(p: string, c: char, d: char, q: string)
    requires IsCore(p + [c] + q) && IsCore(p + [d] + q) && !LikeChar(c, d)
    ensures !Same(Some(p + [c] + q), Some(p + [d] + q))
  {
    hide Same, LikeChar;
    CoresSame(p + [c] + q, p + [d] + q);
    assert (p + [c] + q)[|p|] == c && (p + [d] + q)[|p|] == d;
  }

  // ---- what a working restore sets -------------------------------------------

  /**
   * What a setting of the entry holds after a restore with working tools: a value
   * that is the same is left as it is, spelling and all; else it is the prior,
   * with night mode "no" for unset, and a simctl ui setting that was unset stays.
   */
  function RestoredTo(n: SettingName, now: Value, prior: Value): Value {
    if Same(now, prior) then now
    else if prior.None? && n == UiModeNight then Some("no")
    else if prior.None? && (n == UiAppearance || n == UiContentSize) then now
    else prior
  }

  lemma RestoreOneSets(w: World, id: string, n: SettingName, want: Value)
    requires Working(w.script, 3)
    ensures var r := RestoreOne(w, id, n, want);
      Get(r.w.device, Slot(id, n)) == RestoredTo(n, Get(w.device, Slot(id, n)), want)
  {
    hide Same;
    WorkingTail(w.script, 2);
    WorkingTail(w.script[1..], 1);
    WorkingTail(w.script[1..][1..], 0);
  }

  lemma {:induction false} RestoreFromSets(w: World, id: string, prior: Record<Value>, i: nat, tally: Tally, n: SettingName)
    requires i <= |prior.order| && WellFormed(prior) && n in prior.order[i..]
    requires Working(w.script, 3 * (|prior.order| - i))
    ensures var r := RestoreFrom(w, id, prior, i, tally);
      Get(r.w.device, Slot(id, n)) == RestoredTo(n, Get(w.device, Slot(id, n)), prior.at[n])
    decreases |prior.order| - i
  {
    hide RestoreOne, RestoredTo;
    var m := prior.order[i];
    var one := RestoreOne(w, id, m, prior.at[m]);
    RestoreOneWorks(w, id, m, prior.at[m], 3 * (|prior.order| - i - 1));
    var tally' := Tally(tally.changed || one.out.value.changed, tally.problems + one.out.value.problems);
    assert m !in prior.order[i + 1..];
    if n == m {
      RestoreOneSets(w, id, n, prior.at[n]);
      RestoreFromTouches(one.w, id, prior, i + 1, tally');
    } else {
      assert n in prior.order[i + 1..];
      RestoreFromSets(one.w, id, prior, i + 1, tally', n);
    }
  }

  /** With working tools restoreState leaves every setting of the entry at exactly this. */
  lemma RestoreSetsExactly(w: World, t: Target, d: Domain, n: SettingName)
    requires Readable(w.journal) && KeyOf(d, t.id) in w.journal && Manageable(t)
    requires n in w.journal[KeyOf(d, t.id)].prior.at && Working(w.script, Cost(w.journal[KeyOf(d, t.id)]))
    ensures Get(Restore(w, t, d).w.device, Slot(t.id, n)) ==
      RestoredTo(n, Get(w.device, Slot(t.id, n)), w.journal[KeyOf(d, t.id)].prior.at[n])
  {
    hide RestoreFrom, RestoredTo;
    var prior := w.journal[KeyOf(d, t.id)].prior;
    assert prior.order[0..] == prior.order;
    RestoreFromSets(w, t.id, prior, 0, Tally(false, []), n);
    RestoreFromReturns(w, t.id, prior, 0, Tally(false, []), 1);
  }

  /**
   * An entry of one setting, recorded as a and now reading b: with working tools
   * restoreState drops the entry, and it writes a back and says it repaired
   * something exactly when a and b are not alike.
   */
  lemma RestoreRepairsExactlyWhen(w: World, t: Target, d: Domain, n: SettingName, a: string, b: string)
    requires Readable(w.journal) && KeyOf(d, t.id) in w.journal && Manageable(t) && Working(w.script, 4)
    requires w.journal[KeyOf(d, t.id)].prior == Record([n], map[n := Some(a)])
    requires Get(w.device, Slot(t.id, n)) == Some(b) && IsCore(a) && IsCore(b)
    ensures var r := Restore(w, t, d);
      r.out == Returned(!Alike(a, b)) && r.w.journal == w.journal - {KeyOf(d, t.id)} &&
      Get(r.w.device, Slot(t.id, n)) == Some(if Alike(a, b) then b else a)
  {
    hide Restore, Same, Alike, IsCore;
    var e := w.journal[KeyOf(d, t.id)];
    assert n in e.prior.at;
    RestoreClearsExactlyWhen(w, t, d, 0);
    RestoreReportsRepair(w, t, d);
    RestoreSetsExactly(w, t, d, n);
    CoresSame(b, a);
    AlikeBothWays(a, b);
  }

  lemma AlikeBothWays(a: string, b: string)
    ensures Alike(a, b) <==> Alike(b, a)
  {
  }

  /**
   * A write that exits cleanly and does nothing, on a setting that reads a when b
   * is asked for: applyState takes it as done exactly when a and b are alike.
   */
  lemma IgnoredWriteIsNoticedExactlyWhen(w: World, t: Target, d: Domain, n: SettingName, a: string, b: string, rest: seq<Io>)
    requires Readable(w.journal) && Manageable(t) && !n.Unrecognised? && IsCore(a) && IsCore(b)
    requires Get(w.device, Slot(t.id, n)) == Some(a)
    requires w.script == [Works, Works, Io(false, Ignored)] + rest && Working(rest, 5)
    ensures WellFormed(Record([n], map[n := b]))
    ensures var r := Apply(w, t, d, Record([n], map[n := b]));
      r.out == (if Alike(a, b) then Returned(()) else Threw(DidNotTake(n, Some(a)))) &&
      (KeyOf(d, t.id) in r.w.journal <==> Alike(a, b))
  {
    hide Apply, Same, Alike, IsCore, Working, PutsBack;
    var wanted := Record([n], map[n := b]);
    CoresSame(a, b);
    IgnoredLeaves(w.device, t.id, wanted, n, rest);
    assert w.script[2..] == [Io(false, Ignored)] + rest && w.script[3..] == rest;
    IgnoredIsClean(w.script, rest);
    ApplyReturnsOrPutsBack(w, t, d, wanted);
    AllOfOne(w.device, t.id, wanted, n);
    var r := Apply(w, t, d, wanted);
    if !Alike(a, b) {
      NothingToPutBack(w, r.w, t, d, wanted);
    }
  }

  lemma IgnoredIsClean(script: seq<Io>, rest: seq<Io>)
    requires script == [Works, Works, Io(false, Ignored)] + rest
    ensures Clean(script, 3)
  {
  }

  lemma IgnoredLeaves(device: map<Slot, string>, id: string, wanted: Record<string>, n: SettingName, rest: seq<Io>)
    requires WellFormed(wanted) && wanted.order == [n]
    ensures AfterWrites(device, id, wanted, 0, [Io(false, Ignored)] + rest, 1) == device
  {
    OneWrite(device, id, wanted, 0, [Io(false, Ignored)] + rest);
  }

  lemma AllOfOne(device: map<Slot, string>, id: string, wanted: Record<string>, n: SettingName)
    requires WellFormed(wanted) && wanted.order == [n]
    ensures AllTook(device, id, wanted, 0, 1) <==> Same(Get(device, Slot(id, n)), Some(wanted.at[n]))
    ensures forall out: Outcome<()> :: BlamesTheFirst(out, device, id, wanted) ==> out == Threw(DidNotTake(n, Get(device, Slot(id, n))))
  {
    hide Same, Get;
    if AllTook(device, id, wanted, 0, 1) { assert Took(device, id, wanted, wanted.order[0]); }
  }

  lemma NothingToPutBack(w: World, w': World, t: Target, d: Domain, wanted: Record<string>)
    requires PutsBack(w, w', w.device, t, d, wanted)
    ensures w'.journal == w.journal - {KeyOf(d, t.id)}
  {
    hide Get;
    assert CanPutBack(w, w.device, t, wanted);
  }

  // ---- what is refused -------------------------------------------------------

  /** Physical Apple hardware, and anything else that is neither Android nor a simulator, is refused untouched. */
  lemma HardwareIsRefused(w: World, t: Target, d: Domain, wanted: Record<string>)
    requires WellFormed(wanted) && Readable(w.journal) && t.platform != "android" && t.kind != Some(Simulator)
    ensures Apply(w, t, d, wanted) == Step(w, Threw(Unmanageable))
    ensures Restore(w, t, d) ==
      Step(w, if ("locale:" + t.id in w.journal && d == Locale) || ("display:" + t.id in w.journal && d == Display)
              then Threw(CannotBeWrittenTo) else Returned(false))
  {
    assert KeyOf(Locale, t.id) == "locale:" + t.id && KeyOf(Display, t.id) == "display:" + t.id;
  }

  /** The first name outside the vocabulary is refused before anything is read. */
  lemma UnknownNamesAreRefused(w: World, t: Target, d: Domain, wanted: Record<string>, i: nat)
    requires WellFormed(wanted) && Readable(w.journal) && (t.platform == "android" || t.kind == Some(Simulator))
    requires i < |wanted.order| && wanted.order[i].Unrecognised? && forall j :: 0 <= j < i ==> !wanted.order[j].Unrecognised?
    ensures Apply(w, t, d, wanted) == Step(w, Threw(UnknownSetting(wanted.order[i])))
  {
    FirstUnknownIs(wanted.order, 0, i);
  }

  lemma {:induction false} FirstUnknownIs(names: seq<SettingName>, from: nat, i: nat)
    requires from <= i < |names| && names[i].Unrecognised? && forall j :: from <= j < i ==> !names[j].Unrecognised?
    ensures FirstUnknown(names, from) == Some(names[i])
    decreases i - from
  {
    if from < i { FirstUnknownIs(names, from + 1, i); }
  }

  /** With tools that can be read, the first simctl ui setting that reads as unset stops the call, and nothing is touched. */
  lemma {:induction false} UnsetStopsTheReading(w: World, id: string, names: seq<SettingName>, i: nat, at: map<SettingName, Value>, j: nat)
    requires i <= j < |names| && Clean(w.script, j - i + 1) && Get(w.device, Slot(id, names[j])).None?
    requires names[j] == UiAppearance || names[j] == UiContentSize
    requires forall k :: i <= k < j && (names[k] == UiAppearance || names[k] == UiContentSize) ==>
      Get(w.device, Slot(id, names[k])).Some?
    ensures var r := ReadPriors(w, id, names, i, at);
      r.out == Threw(NoWayBack(names[j])) && r.w.device == w.device && r.w.journal == w.journal
    decreases j - i
  {
    hide Get;
    CleanTail(w.script, j - i + 1);
    if i < j {
      UnsetStopsTheReading(w.(script := w.script[1..]), id, names, i + 1, at[names[i] := Get(w.device, Slot(id, names[i]))], j);
    }
  }

  /**
   * What applyState takes on: with working tools and at least one setting asked
   * for it returns exactly when the target is Android or a simulator, every name
   * is of the vocabulary, and no appearance or content size reads as unset; and
   * when it does not return it has touched nothing.
   */
  lemma ApplyReturnsExactlyWhen(w: World, t: Target, d: Domain, wanted: Record<string>)
    requires WellFormed(wanted) && Readable(w.journal) && wanted.order != []
    requires Working(w.script, 1 + 3 * |wanted.order|)
    ensures var r := Apply(w, t, d, wanted);
      (r.out.Returned? <==>
        (t.platform == "android" || t.kind == Some(Simulator)) &&
        (forall n :: n in wanted.order ==> !n.Unrecognised?) &&
        forall n :: n in wanted.order && (n == UiAppearance || n == UiContentSize) ==> Get(w.device, Slot(t.id, n)).Some?) &&
      (!r.out.Returned? ==> r.out.Threw? && r.w.device == w.device && r.w.journal == w.journal)
  {
    hide Get, Apply;
    if t.platform != "android" && t.kind != Some(Simulator) {
      HardwareIsRefused(w, t, d, wanted);
    } else if i :| 0 <= i < |wanted.order| && wanted.order[i].Unrecognised? {
      var j := LeastUnknown(wanted.order, i);
      UnknownNamesAreRefused(w, t, d, wanted, j);
    } else if Journals(w, t, wanted) {
      var e := ApplyWorks(w, t, d, wanted, 0);
      JournalsIs(w, t, wanted);
      forall n | n in wanted.order && (n == UiAppearance || n == UiContentSize) ensures Get(w.device, Slot(t.id, n)).Some? {
        assert !IsUnset(w, t.id, n);
      }
    } else {
      JournalsIs(w, t, wanted);
      UnsetIsRefused(w, t, d, wanted);
    }
  }

  lemma JournalsIs(w: World, t: Target, wanted: Record<string>)
    ensures Journals(w, t, wanted) <==>
      (t.platform == "android" || t.kind == Some(Simulator)) && wanted.order != [] &&
      (forall n :: n in wanted.order ==> !n.Unrecognised?) && forall n :: n in wanted.order ==> !IsUnset(w, t.id, n)
  {
    hide Get;
  }

  lemma {:induction false} LeastUnknown(names: seq<SettingName>, i: nat) returns (j: nat)
    requires i < |names| && names[i].Unrecognised?
    ensures j < |names| && names[j].Unrecognised? && forall k :: 0 <= k < j ==> !names[k].Unrecognised?
  {
    j := i;
    if k :| 0 <= k < i && names[k].Unrecognised? { j := LeastUnknown(names, k); }
  }

  predicate IsUnset(w: World, id: string, n: SettingName) {
    (n == UiAppearance || n == UiContentSize) && Get(w.device, Slot(id, n)).None?
  }

  lemma {:induction false} LeastUnset(w: World, id: string, names: seq<SettingName>, i: nat) returns (j: nat)
    requires i < |names| && IsUnset(w, id, names[i])
    ensures j < |names| && IsUnset(w, id, names[j]) && forall k :: 0 <= k < j ==> !IsUnset(w, id, names[k])
  {
    j := i;
    if k :| 0 <= k < i && IsUnset(w, id, names[k]) { j := LeastUnset(w, id, names, k); }
  }

  lemma UnsetIsRefused(w: World, t: Target, d: Domain, wanted: Record<string>)
    requires WellFormed(wanted) && Readable(w.journal) && Clean(w.script, |wanted.order|)
    requires Manageable(t) && forall n :: n in wanted.order ==> !n.Unrecognised?
    requires exists n :: n in wanted.order && IsUnset(w, t.id, n)
    ensures var r := Apply(w, t, d, wanted);
      r.out.Threw? && r.out.error.NoWayBack? && r.w.device == w.device && r.w.journal == w.journal
  {
    hide Get;
    FirstUnknownFinds(wanted.order, 0);
    var n :| n in wanted.order && IsUnset(w, t.id, n);
    var i :| 0 <= i < |wanted.order| && wanted.order[i] == n;
    var j := LeastUnset(w, t.id, wanted.order, i);
    CleanDrop(w.script, j + 1, |wanted.order| - j - 1);
    forall k | 0 <= k < j && (wanted.order[k] == UiAppearance || wanted.order[k] == UiContentSize)
      ensures Get(w.device, Slot(t.id, wanted.order[k])).Some?
    {
      assert !IsUnset(w, t.id, wanted.order[k]);
    }
    UnsetStopsTheReading(w, t.id, wanted.order, 0, map[], j);
  }
}
