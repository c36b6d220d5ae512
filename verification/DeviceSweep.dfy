// DeviceSweep: the startup repair, and withState's round trip.

module DeviceSweep {
  import opened Text
  import opened DeviceState
  import opened DeviceSafety
  import opened DeviceOutcomes

  // ---- keys ------------------------------------------------------------------

  /** Slicing a journal key gives back the id it was made from, and only such keys are rebuilt by it. */
  lemma KeySlicingInvertsKeyOf(d: Domain, id: string, key: string)
    requires |DomainName(d)| + 1 <= |key|
    ensures IdOfKey(KeyOf(d, id), d) == id
    ensures DomainName(d) + ":" <= key <==> KeyOf(d, IdOfKey(key, d)) == key
  {
    assert key == key[..|DomainName(d)| + 1] + IdOfKey(key, d);
  }

  // ---- the sweep is safe and framed ------------------------------------------

  function TargetAt(targets: seq<Target>, i: nat): Target
    requires i < 2 * |targets|
  {
    targets[i / 2]
  }

  function DomainAt(i: nat): Domain {
    DOMAINS[i % 2]
  }

  /** The sweep's i-th restore or a later one is for domain d of device id. */
  predicate Visits(targets: seq<Target>, i: nat, d: Domain, id: string) {
    exists j :: i <= j < 2 * |targets| && TargetAt(targets, j).id == id && DomainAt(j) == d
  }

  lemma VisitsFrom(targets: seq<Target>, i: nat, d: Domain, id: string)
    requires i < 2 * |targets|
    ensures Visits(targets, i, d, id) <==>
      (TargetAt(targets, i).id == id && DomainAt(i) == d) || Visits(targets, i + 1, d, id)
  {
  }

  /** From the start the sweep visits both domains of every attached device. */
  lemma SweepVisitsAttached(targets: seq<Target>, d: Domain, id: string)
    ensures Visits(targets, 0, d, id) <==> exists t :: t in targets && t.id == id
  {
    if t :| t in targets && t.id == id {
      var i :| 0 <= i < |targets| && targets[i] == t;
      var j := if d == Locale then 2 * i else 2 * i + 1;
      assert TargetAt(targets, j) == t && DomainAt(j) == d;
    }
  }

  lemma {:induction false} SweepKeepsSafe(orig: map<Slot, string>, w: World, targets: seq<Target>, i: nat, repaired: seq<string>)
    requires i <= 2 * |targets| && Safe(orig, w)
    ensures Safe(orig, SweepFrom(w, targets, i, repaired).w)
    decreases 2 * |targets| - i
  {
    hide Restore, Kept;
    if i < 2 * |targets| {
      RestoreKeepsSafe(orig, w, TargetAt(targets, i), DomainAt(i));
      var one := Repair(w, TargetAt(targets, i), DomainAt(i), repaired);
      if one.out.Returned? { SweepKeepsSafe(orig, one.w, targets, i + 1, one.out.value); }
    }
  }

  /** An entry the sweep does not visit is never touched, and no entry is ever added or rewritten. */
  lemma {:induction false} SweepLeavesUnvisited(w: World, targets: seq<Target>, i: nat, repaired: seq<string>, d: Domain, id: string)
    requires i <= 2 * |targets| && Readable(w.journal)
    ensures var k := KeyOf(d, id); var w' := SweepFrom(w, targets, i, repaired).w;
      (k in w'.journal ==> k in w.journal && w'.journal[k] == w.journal[k]) &&
      (k in w.journal && !Visits(targets, i, d, id) ==> k in w'.journal)
    decreases 2 * |targets| - i
  {
    hide Restore;
    if i < 2 * |targets| {
      var t := TargetAt(targets, i);
      var one := Repair(w, t, DomainAt(i), repaired);
      RestoreEnds(w, t, DomainAt(i));
      KeysApart(d, id, DomainAt(i), t.id);
      VisitsFrom(targets, i, d, id);
      if one.out.Returned? { SweepLeavesUnvisited(one.w, targets, i + 1, one.out.value, d, id); }
    }
  }

  /** A setting no visited entry names keeps its value. */
  lemma {:induction false} SweepLeavesUnheld(w: World, targets: seq<Target>, i: nat, repaired: seq<string>, s: Slot)
    requires i <= 2 * |targets| && Readable(w.journal)
    requires forall d :: Holds(w.journal, d, s) ==> !Visits(targets, i, d, s.id)
    ensures Get(SweepFrom(w, targets, i, repaired).w.device, s) == Get(w.device, s)
    decreases 2 * |targets| - i
  {
    hide Restore;
    if i < 2 * |targets| {
      var t := TargetAt(targets, i);
      var one := Repair(w, t, DomainAt(i), repaired);
      RestoreEnds(w, t, DomainAt(i));
      VisitsFrom(targets, i, DomainAt(i), s.id);
      if one.out.Returned? {
        forall d | Holds(one.w.journal, d, s) ensures !Visits(targets, i + 1, d, s.id) {
          VisitsFrom(targets, i, d, s.id);
          assert Holds(w.journal, d, s);
        }
        SweepLeavesUnheld(one.w, targets, i + 1, one.out.value, s);
      }
    }
  }

  /** The two domains' entries for a device name different settings, as the callers' always do. */
  ghost predicate Disjoint(journal: map<string, Entry>, d: Domain, id: string) {
    forall n :: Holds(journal, d, Slot(id, n)) ==> !Holds(journal, Other(d), Slot(id, n))
  }

  lemma UnheldOnceDropped(j: map<string, Entry>, j': map<string, Entry>, d: Domain, id: string, n: SettingName)
    requires Disjoint(j, d, id) && Holds(j, d, Slot(id, n)) && j' == j - {KeyOf(d, id)}
    ensures forall d' :: !Holds(j', d', Slot(id, n))
  {
    forall d' ensures !Holds(j', d', Slot(id, n)) {
      assert d' == d || d' == Other(d);
      assert Holds(j', d', Slot(id, n)) ==> Holds(j, d', Slot(id, n));
    }
  }

  lemma RepairEnds(w: World, t: Target, d: Domain, repaired: seq<string>)
    requires Readable(w.journal)
    ensures var one := Repair(w, t, d, repaired);
      (one.w.journal == w.journal || PutBack(w, one.w, t, d)) &&
      (!one.out.Returned? ==> one.w.journal == w.journal)
  {
    hide Restore;
    RestoreEnds(w, t, d);
  }

  lemma SweepWasOver(w: World, targets: seq<Target>, repaired: seq<string>)
    requires Readable(w.journal)
    ensures SweepFrom(w, targets, 2 * |targets|, repaired) == Step(w, Returned(repaired))
  {
  }

  /** An entry the sweep drops is one whose every setting reads as it recorded, to the end of the sweep. */
  lemma {:induction false} SweepDropsOnlyVerified(w: World, targets: seq<Target>, i: nat, repaired: seq<string>, d: Domain, id: string, n: SettingName)
    requires i <= 2 * |targets| && Readable(w.journal) && Disjoint(w.journal, d, id)
    requires Holds(w.journal, d, Slot(id, n))
    requires KeyOf(d, id) !in SweepFrom(w, targets, i, repaired).w.journal
    ensures Same(Get(SweepFrom(w, targets, i, repaired).w.device, Slot(id, n)), Prior(w.journal, d, Slot(id, n)))
    decreases 2 * |targets| - i
  {
    hide Same, Get, Visits, SweepFrom, Repair, KeyOf;
    if i == 2 * |targets| { SweepWasOver(w, targets, repaired); }
    var t := TargetAt(targets, i);
    SweepIs(w, targets, i, repaired);
    var one := Repair(w, t, DomainAt(i), repaired);
    RepairEnds(w, t, DomainAt(i), repaired);
    KeysApart(d, id, DomainAt(i), t.id);
    if one.w.journal == w.journal {
      SweepDropsOnlyVerified(one.w, targets, i + 1, one.out.value, d, id, n);
    } else if KeyOf(d, id) in one.w.journal {
      assert forall m :: Holds(one.w.journal, d, Slot(id, m)) ==> Holds(w.journal, d, Slot(id, m));
      SweepDropsOnlyVerified(one.w, targets, i + 1, one.out.value, d, id, n);
    } else {
      UnheldOnceDropped(w.journal, one.w.journal, d, id, n);
      SweepLeavesUnheld(one.w, targets, i + 1, one.out.value, Slot(id, n));
    }
  }

  // ---- what the sweep reports ------------------------------------------------

  predicate DistinctTargets(targets: seq<Target>) {
    forall a, b :: 0 <= a < b < |targets| ==> targets[a].id != targets[b].id
  }

  lemma VisitedOnce(targets: seq<Target>, i: nat)
    requires i < 2 * |targets| && DistinctTargets(targets)
    ensures !Visits(targets, i + 1, DomainAt(i), TargetAt(targets, i).id)
  {
    forall j | i < j < 2 * |targets| && DomainAt(j) == DomainAt(i) ensures TargetAt(targets, j).id != TargetAt(targets, i).id {
      assert i / 2 < j / 2;
    }
  }

  /** The sweep visits the entry, which names a setting out of place, and drops it. */
  predicate Mended(w: World, w': World, targets: seq<Target>, i: nat, d: Domain, id: string) {
    Visits(targets, i, d, id) && Displaced(w, d, id) && KeyOf(d, id) !in w'.journal
  }

  lemma DisplacedElsewhere(w: World, t: Target, d': Domain, repaired: seq<string>, d: Domain, id: string)
    requires Readable(w.journal) && Disjoint(w.journal, d, id) && !(t.id == id && d' == d)
    ensures Displaced(Repair(w, t, d', repaired).w, d, id) <==> Displaced(w, d, id)
  {
    hide Repair, Same;
    RepairElsewhere(w, t, d', repaired, d, id);
    if KeyOf(d, id) in w.journal {
      forall n | n in w.journal[KeyOf(d, id)].prior.at
        ensures Get(Repair(w, t, d', repaired).w.device, Slot(id, n)) == Get(w.device, Slot(id, n))
      {
        assert Holds(w.journal, d, Slot(id, n));
      }
    }
  }

  /** One restore of the sweep, for one entry: reported here, or left to the rest of the sweep. */
  lemma MendedStep(w: World, targets: seq<Target>, i: nat, repaired: seq<string>, d: Domain, id: string)
    requires i < 2 * |targets| && Readable(w.journal) && DistinctTargets(targets) && Disjoint(w.journal, d, id)
    ensures var t := TargetAt(targets, i); var one := Repair(w, t, DomainAt(i), repaired); one.out.Returned? ==>
      var w' := SweepFrom(one.w, targets, i + 1, one.out.value).w;
      var here := t.id == id && DomainAt(i) == d && Restore(w, t, d).out == Returned(true);
      Mended(w, w', targets, i, d, id) <==> here || Mended(one.w, w', targets, i + 1, d, id)
  {
    hide Restore, SweepFrom, Displaced, Visits;
    var t := TargetAt(targets, i);
    var one := Repair(w, t, DomainAt(i), repaired);
    VisitsFrom(targets, i, d, id);
    if one.out.Returned? {
      if t.id == id && DomainAt(i) == d {
        VisitedOnce(targets, i);
        RestoreEnds(w, t, d);
        RestoreReportsRepair(w, t, d);
        DisplacedIsHeld(w, d, id);
        SweepLeavesUnvisited(one.w, targets, i + 1, one.out.value, d, id);
      } else {
        DisplacedElsewhere(w, t, DomainAt(i), repaired, d, id);
      }
    }
  }

  lemma DisplacedIsHeld(w: World, d: Domain, id: string)
    ensures Displaced(w, d, id) ==> KeyOf(d, id) in w.journal
  {
  }

  lemma RepairReports(w: World, t: Target, d: Domain, repaired: seq<string>, id: string)
    requires Readable(w.journal)
    ensures var one := Repair(w, t, d, repaired);
      one.out.Returned? ==> (id in one.out.value <==> id in repaired || (t.id == id && Restore(w, t, d).out == Returned(true)))
  {
    hide Restore;
  }

  /**
   * In any environment, a sweep that ends lists a device exactly when it dropped
   * an entry of that device which named a setting out of place.
   */
  lemma {:induction false} SweepReportsTheMended(w: World, targets: seq<Target>, i: nat, repaired: seq<string>, id: string)
    requires i <= 2 * |targets| && Readable(w.journal) && DistinctTargets(targets)
    requires Disjoint(w.journal, Locale, id) && Disjoint(w.journal, Display, id)
    ensures var r := SweepFrom(w, targets, i, repaired); r.out.Returned? ==>
      (id in r.out.value <==>
        id in repaired || Mended(w, r.w, targets, i, Locale, id) || Mended(w, r.w, targets, i, Display, id))
    decreases 2 * |targets| - i
  {
    hide Restore, Mended, Repair, Disjoint, DistinctTargets, TargetAt, DomainAt;
    if i == 2 * |targets| {
      NothingToVisit(w, w, targets, id);
      assert SweepFrom(w, targets, i, repaired) == Step(w, Returned(repaired));
    } else {
      SweepIs(w, targets, i, repaired);
      var t := TargetAt(targets, i);
      var one := Repair(w, t, DomainAt(i), repaired);
      if one.out.Returned? {
        RepairReports(w, t, DomainAt(i), repaired, id);
        MendedStep(w, targets, i, repaired, Locale, id);
        MendedStep(w, targets, i, repaired, Display, id);
        StillDisjoint(w, targets, i, repaired, Locale, id);
        StillDisjoint(w, targets, i, repaired, Display, id);
        SweepReportsTheMended(one.w, targets, i + 1, one.out.value, id);
      }
    }
  }

  lemma SweepIs(w: World, targets: seq<Target>, i: nat, repaired: seq<string>)
    requires i < 2 * |targets| && Readable(w.journal)
    ensures var one := Repair(w, TargetAt(targets, i), DomainAt(i), repaired);
      SweepFrom(w, targets, i, repaired) == if one.out.Returned? then SweepFrom(one.w, targets, i + 1, one.out.value) else one
    ensures !Repair(w, TargetAt(targets, i), DomainAt(i), repaired).out.Threw?
  {
    hide Restore;
  }

  lemma NothingToVisit(w: World, w': World, targets: seq<Target>, id: string)
    ensures forall d :: !Mended(w, w', targets, 2 * |targets|, d, id)
  {
  }

  lemma StillDisjoint(w: World, targets: seq<Target>, i: nat, repaired: seq<string>, d: Domain, id: string)
    requires i < 2 * |targets| && Readable(w.journal) && Disjoint(w.journal, d, id)
    ensures Disjoint(Repair(w, TargetAt(targets, i), DomainAt(i), repaired).w.journal, d, id)
  {
    hide Restore;
    RestoreEnds(w, TargetAt(targets, i), DomainAt(i));
    DisjointShrinks(w.journal, Repair(w, TargetAt(targets, i), DomainAt(i), repaired).w.journal, d, id);
  }

  // ---- the sweep converges ---------------------------------------------------

  /** m calls for each of c restores. */
  function Budget(m: nat, c: nat): nat {
    if c == 0 then 0 else m + Budget(m, c - 1)
  }

  ghost predicate Affordable(journal: map<string, Entry>, m: nat) {
    forall k :: k in journal ==> Cost(journal[k]) <= m
  }

  /** Calls enough for the sweep to run to its end, all of them working. */
  ghost predicate Ready(w: World, targets: seq<Target>, i: nat, m: nat)
    requires i <= 2 * |targets|
  {
    Readable(w.journal) && Affordable(w.journal, m) && Working(w.script, Budget(m, 2 * |targets| - i))
  }

  /** Every attached target of this id can be written to. */
  ghost predicate Reachable(targets: seq<Target>, id: string) {
    forall t :: t in targets && t.id == id ==> Manageable(t)
  }

  lemma RepairWorks(w: World, targets: seq<Target>, i: nat, m: nat, repaired: seq<string>)
    requires i < 2 * |targets| && Ready(w, targets, i, m)
    ensures var one := Repair(w, TargetAt(targets, i), DomainAt(i), repaired);
      one.out.Returned? && Ready(one.w, targets, i + 1, m)
  {
    var t := TargetAt(targets, i);
    var k := KeyOf(DomainAt(i), t.id);
    if k in w.journal && Manageable(t) {
      var b := Budget(m, 2 * |targets| - i - 1);
      RestoreClearsExactlyWhen(w, t, DomainAt(i), b);
    }
  }

  /** Domain d's entry for the device is there and can be put back. */
  predicate Clearable(w: World, d: Domain, id: string) {
    KeyOf(d, id) in w.journal && EntryRestorable(w.device, id, w.journal[KeyOf(d, id)])
  }

  lemma RepairElsewhere(w: World, t: Target, d': Domain, repaired: seq<string>, d: Domain, id: string)
    requires Readable(w.journal) && Disjoint(w.journal, d, id) && !(t.id == id && d' == d)
    ensures var one := Repair(w, t, d', repaired);
      (KeyOf(d, id) in one.w.journal <==> KeyOf(d, id) in w.journal) &&
      (KeyOf(d, id) in w.journal ==> one.w.journal[KeyOf(d, id)] == w.journal[KeyOf(d, id)]) &&
      (forall n :: Holds(w.journal, d, Slot(id, n)) ==> Get(one.w.device, Slot(id, n)) == Get(w.device, Slot(id, n))) &&
      Disjoint(one.w.journal, d, id)
  {
    hide Restore;
    RestoreEnds(w, t, d');
    KeysApart(d, id, d', t.id);
    KeysApart(Other(d), id, d', t.id);
    var one := Repair(w, t, d', repaired);
    forall n ensures Holds(one.w.journal, d, Slot(id, n)) ==> Holds(w.journal, d, Slot(id, n)) {
    }
    forall n | Holds(w.journal, d, Slot(id, n)) ensures Get(one.w.device, Slot(id, n)) == Get(w.device, Slot(id, n)) {
      assert t.id == id ==> d' == Other(d);
    }
  }

  lemma RepairElsewhereClearable(w: World, t: Target, d': Domain, repaired: seq<string>, d: Domain, id: string)
    requires Readable(w.journal) && Disjoint(w.journal, d, id) && !(t.id == id && d' == d)
    ensures var one := Repair(w, t, d', repaired);
      Clearable(one.w, d, id) <==> Clearable(w, d, id)
  {
    RepairElsewhere(w, t, d', repaired, d, id);
    var one := Repair(w, t, d', repaired);
    if KeyOf(d, id) in w.journal {
      forall n | n in w.journal[KeyOf(d, id)].prior.at
        ensures Get(one.w.device, Slot(id, n)) == Get(w.device, Slot(id, n))
      {
        assert Holds(w.journal, d, Slot(id, n));
      }
    }
  }

  lemma RepairHere(w: World, targets: seq<Target>, i: nat, m: nat, repaired: seq<string>)
    requires i < 2 * |targets| && Ready(w, targets, i, m)
    ensures var t := TargetAt(targets, i); var d := DomainAt(i); var one := Repair(w, t, d, repaired);
      (Manageable(t) ==>
        (KeyOf(d, t.id) in one.w.journal <==> KeyOf(d, t.id) in w.journal && !Clearable(w, d, t.id)) &&
        !Clearable(one.w, d, t.id)) &&
      (!Clearable(w, d, t.id) ==> !Clearable(one.w, d, t.id)) &&
      (forall k :: k in one.w.journal ==> k in w.journal && one.w.journal[k] == w.journal[k])
  {
    var t := TargetAt(targets, i);
    if KeyOf(DomainAt(i), t.id) in w.journal && Manageable(t) {
      RestoreClearsExactlyWhen(w, t, DomainAt(i), Budget(m, 2 * |targets| - i - 1));
    }
  }

  lemma DisjointShrinks(j: map<string, Entry>, j': map<string, Entry>, d: Domain, id: string)
    requires Disjoint(j, d, id) && forall k :: k in j' ==> k in j && j'[k] == j[k]
    ensures Disjoint(j', d, id)
  {
    forall n | Holds(j', d, Slot(id, n)) ensures !Holds(j', Other(d), Slot(id, n)) {
      assert Holds(j, d, Slot(id, n));
    }
  }

  /**
   * With working tools, one sweep clears an attached and manageable device's
   * entry exactly when every setting in it reads as recorded already or can be
   * made to, whatever else is attached.
   */
  lemma {:induction false} SweepClearsExactlyWhen(w: World, targets: seq<Target>, i: nat, repaired: seq<string>, m: nat, d: Domain, id: string)
    requires i <= 2 * |targets| && Ready(w, targets, i, m)
    requires Visits(targets, i, d, id) && Disjoint(w.journal, d, id) && Reachable(targets, id)
    ensures SweepFrom(w, targets, i, repaired).out.Returned?
    ensures KeyOf(d, id) in SweepFrom(w, targets, i, repaired).w.journal <==>
            KeyOf(d, id) in w.journal && !Clearable(w, d, id)
    decreases 2 * |targets| - i
  {
    hide Restore, Repair, SweepFrom, Clearable, Disjoint, Visits, TargetAt, DomainAt, KeyOf;
    VisitIsThere(targets, i, d, id);
    SweepIs(w, targets, i, repaired);
    var t := TargetAt(targets, i);
    var one := Repair(w, t, DomainAt(i), repaired);
    RepairWorks(w, targets, i, m, repaired);
    VisitsFrom(targets, i, d, id);
    if t.id == id && DomainAt(i) == d {
      RepairHere(w, targets, i, m, repaired);
      DisjointShrinks(w.journal, one.w.journal, d, id);
    } else {
      RepairElsewhere(w, t, DomainAt(i), repaired, d, id);
      RepairElsewhereClearable(w, t, DomainAt(i), repaired, d, id);
    }
    if Visits(targets, i + 1, d, id) {
      SweepClearsExactlyWhen(one.w, targets, i + 1, one.out.value, m, d, id);
    } else {
      SweepReturns(one.w, targets, i + 1, one.out.value, m);
      SweepLeavesUnvisited(one.w, targets, i + 1, one.out.value, d, id);
    }
  }

  lemma VisitIsThere(targets: seq<Target>, i: nat, d: Domain, id: string)
    requires Visits(targets, i, d, id)
    ensures i < 2 * |targets| && TargetAt(targets, i) in targets
  {
  }

  lemma {:induction false} SweepReturns(w: World, targets: seq<Target>, i: nat, repaired: seq<string>, m: nat)
    requires i <= 2 * |targets| && Ready(w, targets, i, m)
    ensures SweepFrom(w, targets, i, repaired).out.Returned?
    decreases 2 * |targets| - i
  {
    hide Restore;
    if i < 2 * |targets| {
      RepairWorks(w, targets, i, m, repaired);
      var one := Repair(w, TargetAt(targets, i), DomainAt(i), repaired);
      SweepReturns(one.w, targets, i + 1, one.out.value, m);
    }
  }

  /** An entry the sweep cannot put back stays that way through a sweep whose tools all work. */
  lemma {:induction false} SweepKeepsUnclearable(w: World, targets: seq<Target>, i: nat, repaired: seq<string>, m: nat, d: Domain, id: string)
    requires i <= 2 * |targets| && Ready(w, targets, i, m)
    requires Disjoint(w.journal, d, id) && !Clearable(w, d, id)
    ensures !Clearable(SweepFrom(w, targets, i, repaired).w, d, id)
    decreases 2 * |targets| - i
  {
    hide Restore;
    if i < 2 * |targets| {
      var t := TargetAt(targets, i);
      var one := Repair(w, t, DomainAt(i), repaired);
      RepairWorks(w, targets, i, m, repaired);
      if t.id == id && DomainAt(i) == d {
        RepairHere(w, targets, i, m, repaired);
        DisjointShrinks(w.journal, one.w.journal, d, id);
      } else {
        RepairElsewhere(w, t, DomainAt(i), repaired, d, id);
        RepairElsewhereClearable(w, t, DomainAt(i), repaired, d, id);
      }
      SweepKeepsUnclearable(one.w, targets, i + 1, one.out.value, m, d, id);
    }
  }

  /** With no entry left for anything attached, a sweep changes nothing and repairs nothing. */
  lemma {:induction false} SweepWithNothingToDo(w: World, targets: seq<Target>, i: nat, repaired: seq<string>)
    requires i <= 2 * |targets| && Readable(w.journal)
    requires forall d, t :: t in targets ==> KeyOf(d, t.id) !in w.journal
    ensures SweepFrom(w, targets, i, repaired) == Step(w, Returned(repaired))
    decreases 2 * |targets| - i
  {
    if i < 2 * |targets| {
      assert TargetAt(targets, i) in targets;
      SweepWithNothingToDo(w, targets, i + 1, repaired);
    }
  }

  /**
   * The sweep converges: with working tools and restorable priors one sweep
   * leaves no entry for an attached device, every setting such an entry named
   * reads as recorded, and a second sweep, in whatever environment, then
   * changes nothing and reports no repairs.
   */
  lemma SweepConverges(w: World, targets: seq<Target>, m: nat, script: seq<Io>)
    requires Ready(w, targets, 0, m) && forall t :: t in targets ==> Manageable(t)
    requires forall d, t :: t in targets ==> Disjoint(w.journal, d, t.id)
    requires forall d, t :: t in targets && KeyOf(d, t.id) in w.journal ==> Clearable(w, d, t.id)
    ensures var first := Sweep(w, targets);
      first.out.Returned? &&
      (forall d, t :: t in targets ==> KeyOf(d, t.id) !in first.w.journal) &&
      (forall d, t, n :: t in targets && Holds(w.journal, d, Slot(t.id, n)) ==>
        Same(Get(first.w.device, Slot(t.id, n)), Prior(w.journal, d, Slot(t.id, n)))) &&
      Sweep(first.w.(script := script), targets) == Step(first.w.(script := script), Returned([]))
  {
    var first := Sweep(w, targets);
    SweepReturns(w, targets, 0, [], m);
    forall d, t | t in targets ensures KeyOf(d, t.id) !in first.w.journal {
      SweepVisitsAttached(targets, d, t.id);
      SweepClearsExactlyWhen(w, targets, 0, [], m, d, t.id);
    }
    forall d, t, n | t in targets && Holds(w.journal, d, Slot(t.id, n))
      ensures Same(Get(first.w.device, Slot(t.id, n)), Prior(w.journal, d, Slot(t.id, n)))
    {
      SweepDropsOnlyVerified(w, targets, 0, [], d, t.id, n);
    }
    SweepWithNothingToDo(first.w.(script := script), targets, 0, []);
  }
}