// AccessibilityJudge: a11yFindings of collector/src/a11y-tree.ts, against a
// declarative account of what it reports.

module AccessibilityJudge {
  import opened Text
  import opened AccessibilityTree
  import MaestroTree

  datatype Rect = Rect(x: real, y: real, w: real, h: real)

  /** One element; name is what nameOf makes of its class, id and bounds. */
  datatype Element = Element(
    text: string, labelText: string, value: string, tappable: bool, enabled: bool, bounds: Option<Rect>, name: string)

  datatype Geometry = Points | Pixels(densityDpi: real) | UnknownUnit

  datatype Finding =
    | Unlabelled(name: string)
    | SmallTarget(subject: string, w: real, h: real)
    | SizesNotJudged(unknownUnit: bool)
    | ManyUnlabelled(count: nat)
    | ManySmall(count: nat)

  function ToPoints(g: Geometry, px: real): Option<real> {
    match g
    case Points => Some(px)
    case Pixels(dpi) => if dpi <= 0.0 then None else Some(px * 160.0 / dpi)
    case UnknownUnit => None
  }

  predicate Announces(e: Element) {
    Trim(e.labelText) != "" || Trim(e.text) != "" || Trim(e.value) != ""
  }

  /** Tappable, enabled, and not known to have no area. */
  predicate Judged(e: Element) {
    e.tappable && e.enabled && (e.bounds.Some? ==> e.bounds.value.w > 0.0 && e.bounds.value.h > 0.0)
  }

  predicate AnyAnnounces(l: seq<Placed<Element>>) {
    exists i :: 0 <= i < |l| && Announces(l[i].elem)
  }

  /** A control a screen reader would announce as nothing: neither it nor its run says anything. */
  predicate IsUnlabelled(nodes: seq<Placed<Element>>, i: nat)
    requires i < |nodes|
  {
    Judged(nodes[i].elem) && !Announces(nodes[i].elem) && !AnyAnnounces(RunAfter(nodes, i))
  }

  predicate IsSized(g: Geometry, e: Element) {
    Judged(e) && e.bounds.Some? && ToPoints(g, e.bounds.value.w).Some?
  }

  /** Under the minimum in both dimensions. */
  predicate IsSmall(g: Geometry, minPt: real, e: Element) {
    IsSized(g, e) &&
    ToPoints(g, e.bounds.value.w).value < minPt && ToPoints(g, e.bounds.value.h).value < minPt
  }

  method DescendantAnnounces(nodes: seq<Placed<Element>>, i: nat) returns (announces: bool)
    requires i < |nodes|
    ensures announces <==> AnyAnnounces(RunAfter(nodes, i))
  {
    var d := nodes[i].depth;
    ghost var rest := nodes[i + 1..];
    ghost var n := Run(rest, d);
    var j := i + 1;
    while j < |nodes| && nodes[j].depth > d
      invariant i + 1 <= j <= i + 1 + n
      invariant forall k :: i < k < j ==> !Announces(nodes[k].elem)
      decreases |nodes| - j
    {
      assert rest[j - i - 1] == nodes[j];
      if Announces(nodes[j].elem) {
        assert RunAfter(nodes, i)[j - i - 1] == nodes[j];
        return true;
      }
      j := j + 1;
    }
    if j < |nodes| { assert rest[j - i - 1] == nodes[j]; }
    forall k | 0 <= k < n ensures !Announces(RunAfter(nodes, i)[k].elem) {
      assert RunAfter(nodes, i)[k] == nodes[i + 1 + k];
    }
    return false;
  }

  // ---- what is reported ------------------------------------------------------

  /** The unlabelled controls among the first k nodes. */
  function UnlabelledOnes(nodes: seq<Placed<Element>>, k: nat): seq<Element>
    requires k <= |nodes|
  {
    if k == 0 then []
    else UnlabelledOnes(nodes, k - 1) + (if IsUnlabelled(nodes, k - 1) then [nodes[k - 1].elem] else [])
  }

  function SmallOnes(g: Geometry, minPt: real, nodes: seq<Placed<Element>>, k: nat): seq<Element>
    requires k <= |nodes|
  {
    if k == 0 then []
    else SmallOnes(g, minPt, nodes, k - 1) + (if IsSmall(g, minPt, nodes[k - 1].elem) then [nodes[k - 1].elem] else [])
  }

  predicate Named(es: seq<Element>, name: string) {
    exists i :: 0 <= i < |es| && es[i].name == name
  }

  /** The first element of each name, at most cap of them. */
  function FirstOfEachName(es: seq<Element>, cap: int): seq<Element> {
    if es == [] then []
    else
      var before := FirstOfEachName(es[..|es| - 1], cap);
      var e := es[|es| - 1];
      if !Named(before, e.name) && |before| < cap then before + [e] else before
  }

  function Names(es: seq<Element>): set<string> {
    set i | 0 <= i < |es| :: es[i].name
  }

  /** No two share a name, all are among es, and there are min(cap, number of distinct names) of them. */
  lemma {:induction false} FirstOfEachNameIs(es: seq<Element>, cap: int)
    ensures var r := FirstOfEachName(es, cap);
      |r| == |Names(r)| && Names(r) <= Names(es) &&
      |r| == (if cap <= 0 then 0 else if |Names(es)| < cap then |Names(es)| else cap) &&
      (|r| < cap ==> Names(r) == Names(es))
  {
    if es == [] {
      assert Names(es) == {};
    } else {
      hide Names, Named;
      var front, e := es[..|es| - 1], es[|es| - 1];
      var before := FirstOfEachName(front, cap);
      FirstOfEachNameIs(front, cap);
      assert es == front + [e];
      NamesGrow(front, e);
      NamesGrow(before, e);
      NamedIs(before, e.name);
      OneMore(Names(front), e.name);
      OneMore(Names(before), e.name);
    }
  }

  /** No element before the i-th has its name. */
  predicate IsFirstOfName(es: seq<Element>, i: nat)
    requires i < |es|
  {
    forall j :: 0 <= j < i ==> es[j].name != es[i].name
  }

  /** idx are the positions of the first elements of the names, and only the cap, once reached, leaves later ones out. */
  predicate AreTheFirsts(es: seq<Element>, idx: seq<nat>, cap: int) {
    Rising(idx, |es|) && (forall k :: 0 <= k < |idx| ==> IsFirstOfName(es, idx[k])) &&
    forall i :: 0 <= i < |es| && IsFirstOfName(es, i) ==> i in idx || (|idx| >= cap && forall k :: 0 <= k < |idx| ==> idx[k] < i)
  }

  predicate AreAt(r: seq<Element>, es: seq<Element>, idx: seq<nat>) {
    |r| == |idx| && forall k :: 0 <= k < |idx| ==> idx[k] < |es| && r[k] == es[idx[k]]
  }

  lemma NamedAt(r: seq<Element>, es: seq<Element>, idx: seq<nat>, name: string)
    requires AreAt(r, es, idx) && Named(r, name)
    ensures Named(es, name)
  {
    var k :| 0 <= k < |r| && r[k].name == name;
    assert es[idx[k]].name == name;
  }

  lemma FirstOfNamed(front: seq<Element>, e: Element)
    ensures IsFirstOfName(front + [e], |front|) <==> !Named(front, e.name)
    ensures forall i :: 0 <= i < |front| ==> (IsFirstOfName(front + [e], i) <==> IsFirstOfName(front, i))
  {
    var es := front + [e];
    assert forall j :: 0 <= j < |front| ==> es[j] == front[j];
  }

  /** The next element joins the firsts when its name is new and the cap is not reached. */
  lemma FirstsGrow(front: seq<Element>, e: Element, idx: seq<nat>, cap: int)
    requires AreTheFirsts(front, idx, cap) && |idx| < cap && !Named(front, e.name)
    ensures AreTheFirsts(front + [e], idx + [|front|], cap)
  {
    hide IsFirstOfName, Named;
    FirstOfNamed(front, e);
    var more := idx + [|front|];
    assert more[|idx|] == |front|;
    forall i | 0 <= i < |front| && i in idx ensures i in more {
      var k :| 0 <= k < |idx| && idx[k] == i;
      assert more[k] == i;
    }
  }

  lemma FirstsStay(front: seq<Element>, e: Element, idx: seq<nat>, cap: int)
    requires AreTheFirsts(front, idx, cap) && (|idx| >= cap || Named(front, e.name))
    ensures AreTheFirsts(front + [e], idx, cap)
  {
    hide IsFirstOfName, Named;
    FirstOfNamed(front, e);
  }

  /** What is kept is the first element of each name, in order; the cap leaves out only names that come later. */
  lemma {:induction false} KeptAreTheFirsts(es: seq<Element>, cap: int) returns (idx: seq<nat>)
    ensures AreTheFirsts(es, idx, cap) && AreAt(FirstOfEachName(es, cap), es, idx)
  {
    hide AreTheFirsts, AreAt, Named, Names;
    if es == [] {
      idx := [];
      NoFirsts(cap);
    } else {
      var front, e := es[..|es| - 1], es[|es| - 1];
      var before := FirstOfEachName(front, cap);
      idx := KeptAreTheFirsts(front, cap);
      assert es == front + [e];
      FirstOfEachNameIs(front, cap);
      NamedIs(front, e.name);
      NamedIs(before, e.name);
      AtGrows(before, front, e, idx);
      if !Named(before, e.name) && |before| < cap {
        FirstsGrow(front, e, idx, cap);
        idx := idx + [|front|];
      } else {
        if Named(before, e.name) { NamedAt(before, front, idx, e.name); }
        FirstsStay(front, e, idx, cap);
      }
    }
  }

  lemma NoFirsts(cap: int)
    ensures AreTheFirsts([], [], cap) && AreAt(FirstOfEachName([], cap), [], [])
  {
  }

  lemma AtGrows(r: seq<Element>, front: seq<Element>, e: Element, idx: seq<nat>)
    requires AreAt(r, front, idx)
    ensures |r| == |idx| && AreAt(r, front + [e], idx) && AreAt(r + [e], front + [e], idx + [|front|])
  {
  }

  lemma OneMore(s: set<string>, x: string)
    ensures |s + {x}| == if x in s then |s| else |s| + 1
    ensures x in s ==> s + {x} == s
  {
    if x in s { assert s + {x} == s; }
  }

  lemma NamesGrow(es: seq<Element>, e: Element)
    ensures Names(es + [e]) == Names(es) + {e.name}
  {
    assert (es + [e])[|es|] == e;
    forall n | n in Names(es) + {e.name} ensures n in Names(es + [e]) {
      if n in Names(es) {
        var i :| 0 <= i < |es| && es[i].name == n;
        assert (es + [e])[i].name == n;
      }
    }
  }

  lemma NamedIs(es: seq<Element>, name: string)
    ensures Named(es, name) <==> name in Names(es)
  {
  }

  /** What a small target is called: its label, else its text, else its name. */
  function SubjectOf(e: Element): string {
    if e.labelText != "" then e.labelText else if e.text != "" then e.text else e.name
  }

  function SmallTargetFor(g: Geometry, e: Element): Finding
    requires IsSized(g, e)
  {
    SmallTarget(SubjectOf(e), ToPoints(g, e.bounds.value.w).value, ToPoints(g, e.bounds.value.h).value)
  }

  function UnlabelledIn(found: seq<Finding>): seq<Finding> {
    if found == [] then []
    else UnlabelledIn(found[..|found| - 1]) + (if found[|found| - 1].Unlabelled? then [found[|found| - 1]] else [])
  }

  function SmallIn(found: seq<Finding>): seq<Finding> {
    if found == [] then []
    else SmallIn(found[..|found| - 1]) + (if found[|found| - 1].SmallTarget? then [found[|found| - 1]] else [])
  }

  lemma InAppend(found: seq<Finding>, f: Finding)
    ensures UnlabelledIn(found + [f]) == UnlabelledIn(found) + (if f.Unlabelled? then [f] else [])
    ensures SmallIn(found + [f]) == SmallIn(found) + (if f.SmallTarget? then [f] else [])
  {
    assert (found + [f])[..|found|] == found;
  }

  function UnlabelledFindings(es: seq<Element>): (l: seq<Finding>)
    ensures |l| == |es|
  {
    seq(|es|, i requires 0 <= i < |es| => Unlabelled(es[i].name))
  }

  function SmallFindings(g: Geometry, es: seq<Element>): (l: seq<Finding>)
    requires forall i :: 0 <= i < |es| ==> IsSized(g, es[i])
    ensures |l| == |es|
  {
    seq(|es|, i requires 0 <= i < |es| => SmallTargetFor(g, es[i]))
  }

  predicate AnySized(g: Geometry, nodes: seq<Placed<Element>>, k: nat)
    requires k <= |nodes|
  {
    exists i :: 0 <= i < k && IsSized(g, nodes[i].elem)
  }

  predicate AnyTappableWithBounds(nodes: seq<Placed<Element>>) {
    exists i :: 0 <= i < |nodes| && nodes[i].elem.tappable && nodes[i].elem.bounds.Some?
  }

  /** The notes after the findings proper. */
  function Coverage(g: Geometry, nodes: seq<Placed<Element>>, cap: int, unlabelled: nat, small: nat): seq<Finding> {
    (if !AnySized(g, nodes, |nodes|) && AnyTappableWithBounds(nodes) then [SizesNotJudged(g.UnknownUnit?)] else [])
    + (if unlabelled > cap then [ManyUnlabelled(unlabelled)] else [])
    + (if small > cap then [ManySmall(small)] else [])
  }

  function UnlabelledKey(name: string): string {
    "unlabelled:" + name
  }

  function SmallKey(name: string): string {
    "tiny:" + name
  }

  lemma KeysAreApart(a: string, b: string)
    ensures UnlabelledKey(a) != SmallKey(b)
    ensures UnlabelledKey(a) == UnlabelledKey(b) <==> a == b
    ensures SmallKey(a) == SmallKey(b) <==> a == b
  {
    assert UnlabelledKey(a)[0] == 'u' && SmallKey(b)[0] == 't';
    assert UnlabelledKey(a)[|"unlabelled:"|..] == a && UnlabelledKey(b)[|"unlabelled:"|..] == b;
    assert SmallKey(a)[|"tiny:"|..] == a && SmallKey(b)[|"tiny:"|..] == b;
  }

  /** The keys in seen are those of the elements reported so far. */
  ghost predicate SeenIs(seen: set<string>, labels: seq<Element>, smalls: seq<Element>) {
    forall n :: (UnlabelledKey(n) in seen <==> Named(labels, n)) && (SmallKey(n) in seen <==> Named(smalls, n))
  }

  lemma SeeLabel(seen: set<string>, labels: seq<Element>, smalls: seq<Element>, e: Element)
    requires SeenIs(seen, labels, smalls)
    ensures SeenIs(seen + {UnlabelledKey(e.name)}, labels + [e], smalls)
  {
    forall n ensures Named(labels + [e], n) <==> Named(labels, n) || n == e.name {
      NamedIs(labels + [e], n);
      NamedIs(labels, n);
      NamesGrow(labels, e);
    }
    forall n ensures (UnlabelledKey(n) in seen + {UnlabelledKey(e.name)} <==> Named(labels, n) || n == e.name) &&
      (SmallKey(n) in seen + {UnlabelledKey(e.name)} <==> Named(smalls, n))
    {
      KeysAreApart(n, e.name);
      KeysAreApart(e.name, n);
    }
  }

  lemma SeeSmall(seen: set<string>, labels: seq<Element>, smalls: seq<Element>, e: Element)
    requires SeenIs(seen, labels, smalls)
    ensures SeenIs(seen + {SmallKey(e.name)}, labels, smalls + [e])
  {
    forall n ensures Named(smalls + [e], n) <==> Named(smalls, n) || n == e.name {
      NamedIs(smalls + [e], n);
      NamedIs(smalls, n);
      NamesGrow(smalls, e);
    }
    forall n ensures (UnlabelledKey(n) in seen + {SmallKey(e.name)} <==> Named(labels, n)) &&
      (SmallKey(n) in seen + {SmallKey(e.name)} <==> Named(smalls, n) || n == e.name)
    {
      KeysAreApart(n, e.name);
    }
  }

  // ---- the report ------------------------------------------------------------

  function LabelsUpTo(nodes: seq<Placed<Element>>, cap: int, k: nat): seq<Element>
    requires k <= |nodes|
  {
    FirstOfEachName(UnlabelledOnes(nodes, k), cap)
  }

  function SmallsUpTo(g: Geometry, minPt: real, nodes: seq<Placed<Element>>, cap: int, k: nat): seq<Element>
    requires k <= |nodes|
  {
    FirstOfEachName(SmallOnes(g, minPt, nodes, k), cap)
  }

  /** What the first k nodes put in the report: each node its label error, then its size warning. */
  function Reported(g: Geometry, minPt: real, nodes: seq<Placed<Element>>, cap: int, k: nat): seq<Finding>
    requires k <= |nodes|
  {
    if k == 0 then []
    else
      var e := nodes[k - 1].elem;
      Reported(g, minPt, nodes, cap, k - 1)
      + (if LabelsUpTo(nodes, cap, k) != LabelsUpTo(nodes, cap, k - 1) then [Unlabelled(e.name)] else [])
      + (if IsSized(g, e) && SmallsUpTo(g, minPt, nodes, cap, k) != SmallsUpTo(g, minPt, nodes, cap, k - 1)
         then [SmallTargetFor(g, e)] else [])
  }

  lemma LabelsNext(nodes: seq<Placed<Element>>, cap: int, k: nat)
    requires k < |nodes|
    ensures var before := LabelsUpTo(nodes, cap, k); var e := nodes[k].elem;
      LabelsUpTo(nodes, cap, k + 1) ==
        if IsUnlabelled(nodes, k) && !Named(before, e.name) && |before| < cap then before + [e] else before
  {
    var es := UnlabelledOnes(nodes, k);
    if IsUnlabelled(nodes, k) {
      assert (es + [nodes[k].elem])[..|es|] == es;
    } else {
      assert es + [] == es;
    }
  }

  lemma SmallsNext(g: Geometry, minPt: real, nodes: seq<Placed<Element>>, cap: int, k: nat)
    requires k < |nodes|
    ensures var before := SmallsUpTo(g, minPt, nodes, cap, k); var e := nodes[k].elem;
      SmallsUpTo(g, minPt, nodes, cap, k + 1) ==
        if IsSmall(g, minPt, e) && !Named(before, e.name) && |before| < cap then before + [e] else before
  {
    var es := SmallOnes(g, minPt, nodes, k);
    if IsSmall(g, minPt, nodes[k].elem) {
      assert (es + [nodes[k].elem])[..|es|] == es;
    } else {
      assert es + [] == es;
    }
  }

  lemma {:induction false} SmallsAreSized(g: Geometry, minPt: real, nodes: seq<Placed<Element>>, cap: int, k: nat)
    requires k <= |nodes|
    ensures forall i :: 0 <= i < |SmallsUpTo(g, minPt, nodes, cap, k)| ==> IsSized(g, SmallsUpTo(g, minPt, nodes, cap, k)[i])
  {
    if k > 0 {
      SmallsAreSized(g, minPt, nodes, cap, k - 1);
      SmallsNext(g, minPt, nodes, cap, k - 1);
    }
  }

  lemma InJoinOne(found: seq<Finding>, a: seq<Finding>)
    requires |a| <= 1
    ensures UnlabelledIn(found + a) == UnlabelledIn(found) + UnlabelledIn(a)
    ensures SmallIn(found + a) == SmallIn(found) + SmallIn(a)
  {
    if |a| == 1 {
      assert a == [a[0]];
      InAppend(found, a[0]);
      InAppend([], a[0]);
      assert [] + [a[0]] == a;
    } else {
      assert a == [] && found + a == found;
    }
  }

  lemma InJoin(found: seq<Finding>, a: seq<Finding>, b: seq<Finding>)
    requires |a| <= 1 && |b| <= 1
    ensures UnlabelledIn(found + a + b) == UnlabelledIn(found) + UnlabelledIn(a) + UnlabelledIn(b)
    ensures SmallIn(found + a + b) == SmallIn(found) + SmallIn(a) + SmallIn(b)
  {
    hide UnlabelledIn, SmallIn;
    InJoinOne(found, a);
    InJoinOne(found + a, b);
  }

  lemma FindingsNext(g: Geometry, labels: seq<Element>, e: Element)
    ensures UnlabelledFindings(labels + [e]) == UnlabelledFindings(labels) + [Unlabelled(e.name)]
    ensures (forall i :: 0 <= i < |labels| ==> IsSized(g, labels[i])) && IsSized(g, e) ==>
      SmallFindings(g, labels + [e]) == SmallFindings(g, labels) + [SmallTargetFor(g, e)]
  {
  }

  lemma LabelStep(found: seq<Finding>, a: seq<Finding>, b: seq<Finding>, labels: seq<Element>, labels': seq<Element>, e: Element)
    requires UnlabelledIn(found) == UnlabelledFindings(labels)
    requires labels' == labels || labels' == labels + [e]
    requires a == if labels' != labels then [Unlabelled(e.name)] else []
    requires b == [] || (|b| == 1 && b[0].SmallTarget?)
    ensures UnlabelledIn(found + a + b) == UnlabelledFindings(labels')
  {
    hide UnlabelledIn, UnlabelledFindings;
    InJoin(found, a, b);
    Singles(a, b);
    FindingsNext(Points, labels, e);
    Nothings(UnlabelledIn(found));
    Nothings(UnlabelledFindings(labels'));
  }

  lemma Nothings<T>(l: seq<T>)
    ensures l + [] == l
  {
  }

  lemma SmallStep(g: Geometry, found: seq<Finding>, a: seq<Finding>, b: seq<Finding>, smalls: seq<Element>, smalls': seq<Element>, e: Element)
    requires forall i :: 0 <= i < |smalls'| ==> IsSized(g, smalls'[i])
    requires forall i :: 0 <= i < |smalls| ==> IsSized(g, smalls[i])
    requires SmallIn(found) == SmallFindings(g, smalls)
    requires smalls' == smalls || (smalls' == smalls + [e] && IsSized(g, e))
    requires a == [] || (|a| == 1 && a[0].Unlabelled?)
    requires b == if IsSized(g, e) && smalls' != smalls then [SmallTargetFor(g, e)] else []
    ensures SmallIn(found + a + b) == SmallFindings(g, smalls')
  {
    hide SmallIn, SmallFindings, IsSized;
    InJoin(found, a, b);
    Singles(a, b);
    FindingsNext(g, smalls, e);
    Nothings(SmallIn(found));
    Nothings(SmallFindings(g, smalls'));
  }

  /** The label errors are those of the first of each name, up to the cap, in document order. */
  lemma {:induction false} LabelErrorsAreTheFirsts(g: Geometry, minPt: real, nodes: seq<Placed<Element>>, cap: int, k: nat)
    requires k <= |nodes|
    ensures UnlabelledIn(Reported(g, minPt, nodes, cap, k)) == UnlabelledFindings(LabelsUpTo(nodes, cap, k))
  {
    hide Reported, LabelsUpTo, SmallsUpTo, IsSized, IsSmall, IsUnlabelled, UnlabelledFindings, UnlabelledIn, ToPoints, Named, FirstOfEachName;
    if k == 0 {
      EmptyReport(g, minPt, nodes, cap);
    } else {
      var e := nodes[k - 1].elem;
      LabelErrorsAreTheFirsts(g, minPt, nodes, cap, k - 1);
      LabelsNext(nodes, cap, k - 1);
      NextReport(g, minPt, nodes, cap, k - 1);
      var labels, labels' := LabelsUpTo(nodes, cap, k - 1), LabelsUpTo(nodes, cap, k);
      var a := if labels' != labels then [Unlabelled(e.name)] else [];
      var b := if IsSized(g, e) && SmallsUpTo(g, minPt, nodes, cap, k) != SmallsUpTo(g, minPt, nodes, cap, k - 1)
               then [SmallTargetFor(g, e)] else [];
      LabelStep(Reported(g, minPt, nodes, cap, k - 1), a, b, labels, labels', e);
    }
  }

  /** And so are the size warnings. */
  lemma {:induction false} SizeWarningsAreTheFirsts(g: Geometry, minPt: real, nodes: seq<Placed<Element>>, cap: int, k: nat)
    requires k <= |nodes|
    ensures forall i :: 0 <= i < |SmallsUpTo(g, minPt, nodes, cap, k)| ==> IsSized(g, SmallsUpTo(g, minPt, nodes, cap, k)[i])
    ensures SmallIn(Reported(g, minPt, nodes, cap, k)) == SmallFindings(g, SmallsUpTo(g, minPt, nodes, cap, k))
  {
    hide Reported, LabelsUpTo, SmallsUpTo, IsSized, IsSmall, IsUnlabelled, SmallFindings, SmallIn, SmallTargetFor, ToPoints, Named, FirstOfEachName;
    if k == 0 {
      EmptyReport(g, minPt, nodes, cap);
    } else {
      var e := nodes[k - 1].elem;
      SizeWarningsAreTheFirsts(g, minPt, nodes, cap, k - 1);
      SmallsAreSized(g, minPt, nodes, cap, k);
      SmallsNext(g, minPt, nodes, cap, k - 1);
      SmallIsSized(g, minPt, e);
      NextReport(g, minPt, nodes, cap, k - 1);
      var smalls, smalls' := SmallsUpTo(g, minPt, nodes, cap, k - 1), SmallsUpTo(g, minPt, nodes, cap, k);
      var a := if LabelsUpTo(nodes, cap, k) != LabelsUpTo(nodes, cap, k - 1) then [Unlabelled(e.name)] else [];
      var b := if IsSized(g, e) && smalls' != smalls then [SmallTargetFor(g, e)] else [];
      SmallStep(g, Reported(g, minPt, nodes, cap, k - 1), a, b, smalls, smalls', e);
    }
  }

  lemma Singles(a: seq<Finding>, b: seq<Finding>)
    requires a == [] || (|a| == 1 && a[0].Unlabelled?)
    requires b == [] || (|b| == 1 && b[0].SmallTarget?)
    ensures UnlabelledIn(a) == a && SmallIn(a) == [] && UnlabelledIn(b) == [] && SmallIn(b) == b
  {
  }

  lemma SmallIsSized(g: Geometry, minPt: real, e: Element)
    ensures IsSmall(g, minPt, e) ==> IsSized(g, e)
  {
  }

  lemma EmptyReport(g: Geometry, minPt: real, nodes: seq<Placed<Element>>, cap: int)
    ensures Reported(g, minPt, nodes, cap, 0) == [] && LabelsUpTo(nodes, cap, 0) == [] && SmallsUpTo(g, minPt, nodes, cap, 0) == []
    ensures UnlabelledFindings([]) == [] && SmallFindings(g, []) == [] && UnlabelledIn([]) == [] && SmallIn([]) == []
    ensures UnlabelledOnes(nodes, 0) == [] && SmallOnes(g, minPt, nodes, 0) == []
  {
  }

  /** Label errors number the smaller of the cap and the distinct names of the unlabelled controls; size warnings alike. */
  lemma ReportCounts(g: Geometry, minPt: real, nodes: seq<Placed<Element>>, cap: int)
    ensures var names := Names(UnlabelledOnes(nodes, |nodes|));
      |UnlabelledIn(Reported(g, minPt, nodes, cap, |nodes|))| ==
        if cap <= 0 then 0 else if |names| < cap then |names| else cap
    ensures var names := Names(SmallOnes(g, minPt, nodes, |nodes|));
      |SmallIn(Reported(g, minPt, nodes, cap, |nodes|))| ==
        if cap <= 0 then 0 else if |names| < cap then |names| else cap
  {
    LabelErrorsAreTheFirsts(g, minPt, nodes, cap, |nodes|);
    SizeWarningsAreTheFirsts(g, minPt, nodes, cap, |nodes|);
    FirstOfEachNameIs(UnlabelledOnes(nodes, |nodes|), cap);
    FirstOfEachNameIs(SmallOnes(g, minPt, nodes, |nodes|), cap);
  }

  // ---- the whole report ------------------------------------------------------

  /** a11yFindings: the findings proper, then the notes. */
  function Report(g: Geometry, minPt: real, nodes: seq<Placed<Element>>, cap: int): seq<Finding> {
    Reported(g, minPt, nodes, cap, |nodes|) +
    Coverage(g, nodes, cap, |UnlabelledOnes(nodes, |nodes|)|, |SmallOnes(g, minPt, nodes, |nodes|)|)
  }

  predicate IsNote(f: Finding) {
    f.SizesNotJudged? || f.ManyUnlabelled? || f.ManySmall?
  }

  /** The findings proper hold no note. */
  lemma {:induction false} NoNotesAmongFindings(g: Geometry, minPt: real, nodes: seq<Placed<Element>>, cap: int, k: nat, f: Finding)
    requires k <= |nodes| && f in Reported(g, minPt, nodes, cap, k)
    ensures !IsNote(f)
  {
    hide LabelsUpTo, SmallsUpTo, IsSized, ToPoints;
    if k > 0 && f in Reported(g, minPt, nodes, cap, k - 1) { NoNotesAmongFindings(g, minPt, nodes, cap, k - 1, f); }
  }

  /** Sizes in this unit can be turned into points. */
  predicate Converts(g: Geometry) {
    g.Points? || (g.Pixels? && g.densityDpi > 0.0)
  }

  predicate AnyJudgedWithBounds(nodes: seq<Placed<Element>>) {
    exists i :: 0 <= i < |nodes| && Judged(nodes[i].elem) && nodes[i].elem.bounds.Some?
  }

  lemma SizedExactlyWhen(g: Geometry, nodes: seq<Placed<Element>>)
    ensures AnySized(g, nodes, |nodes|) <==> Converts(g) && AnyJudgedWithBounds(nodes)
  {
    hide Judged;
    if Converts(g) && AnyJudgedWithBounds(nodes) {
      var i :| 0 <= i < |nodes| && Judged(nodes[i].elem) && nodes[i].elem.bounds.Some?;
      assert IsSized(g, nodes[i].elem);
    }
  }

  lemma InCoverage(g: Geometry, nodes: seq<Placed<Element>>, cap: int, unlabelled: nat, small: nat, f: Finding)
    ensures f in Coverage(g, nodes, cap, unlabelled, small) <==>
      (f == SizesNotJudged(g.UnknownUnit?) && !AnySized(g, nodes, |nodes|) && AnyTappableWithBounds(nodes)) ||
      (f == ManyUnlabelled(unlabelled) && unlabelled > cap) || (f == ManySmall(small) && small > cap)
  {
    hide AnySized, AnyTappableWithBounds;
  }

  /**
   * The report notes that no size was judged exactly when some tappable node has
   * bounds, and either the unit cannot be converted or no judged node has any;
   * it says the unit is to blame exactly when the unit is unknown.
   */
  lemma SizesNotJudgedExactlyWhen(g: Geometry, minPt: real, nodes: seq<Placed<Element>>, cap: int, unknown: bool)
    ensures SizesNotJudged(unknown) in Report(g, minPt, nodes, cap) <==>
      AnyTappableWithBounds(nodes) && (!Converts(g) || !AnyJudgedWithBounds(nodes)) && unknown == g.UnknownUnit?
  {
    hide Reported, Coverage, AnySized, AnyTappableWithBounds, AnyJudgedWithBounds, Converts, UnlabelledOnes, SmallOnes;
    var f := SizesNotJudged(unknown);
    if f in Reported(g, minPt, nodes, cap, |nodes|) { NoNotesAmongFindings(g, minPt, nodes, cap, |nodes|, f); }
    InCoverage(g, nodes, cap, |UnlabelledOnes(nodes, |nodes|)|, |SmallOnes(g, minPt, nodes, |nodes|)|, f);
    SizedExactlyWhen(g, nodes);
  }

  /** The report says how many controls there were of a kind exactly when there were more than the cap. */
  lemma OverflowIsNotedExactlyWhen(g: Geometry, minPt: real, nodes: seq<Placed<Element>>, cap: int, n: nat)
    ensures ManyUnlabelled(n) in Report(g, minPt, nodes, cap) <==> n == |UnlabelledOnes(nodes, |nodes|)| > cap
    ensures ManySmall(n) in Report(g, minPt, nodes, cap) <==> n == |SmallOnes(g, minPt, nodes, |nodes|)| > cap
  {
    hide Reported, Coverage, UnlabelledOnes, SmallOnes;
    var found := Reported(g, minPt, nodes, cap, |nodes|);
    var unlabelled, small := |UnlabelledOnes(nodes, |nodes|)|, |SmallOnes(g, minPt, nodes, |nodes|)|;
    if ManyUnlabelled(n) in found { NoNotesAmongFindings(g, minPt, nodes, cap, |nodes|, ManyUnlabelled(n)); }
    if ManySmall(n) in found { NoNotesAmongFindings(g, minPt, nodes, cap, |nodes|, ManySmall(n)); }
    InCoverage(g, nodes, cap, unlabelled, small, ManyUnlabelled(n));
    InCoverage(g, nodes, cap, unlabelled, small, ManySmall(n));
  }

  // ---- the loop --------------------------------------------------------------

  /** The label check on one node: counted always, reported once a name and up to the cap. */
  method ReportLabel(found: seq<Finding>, seen: set<string>, e: Element, cap: int, ghost labels: seq<Element>, ghost smalls: seq<Element>)
    returns (found': seq<Finding>, seen': set<string>)
    requires SeenIs(seen, labels, smalls) && |UnlabelledIn(found)| == |labels|
    ensures if !Named(labels, e.name) && |labels| < cap
      then found' == found + [Unlabelled(e.name)] && SeenIs(seen', labels + [e], smalls)
      else found' == found && seen' == seen
  {
    found', seen' := found, seen;
    var key := UnlabelledKey(e.name);
    assert key in seen <==> Named(labels, e.name);
    if key !in seen && |UnlabelledIn(found)| < cap {
      SeeLabel(seen, labels, smalls, e);
      seen' := seen + {key};
      found' := found + [Unlabelled(e.name)];
    }
  }

  method ReportSize(found: seq<Finding>, seen: set<string>, e: Element, g: Geometry, cap: int, ghost labels: seq<Element>, ghost smalls: seq<Element>)
    returns (found': seq<Finding>, seen': set<string>)
    requires SeenIs(seen, labels, smalls) && |SmallIn(found)| == |smalls| && IsSized(g, e)
    ensures if !Named(smalls, e.name) && |smalls| < cap
      then found' == found + [SmallTargetFor(g, e)] && SeenIs(seen', labels, smalls + [e])
      else found' == found && seen' == seen
  {
    found', seen' := found, seen;
    var key := SmallKey(e.name);
    assert key in seen <==> Named(smalls, e.name);
    if key !in seen && |SmallIn(found)| < cap {
      SeeSmall(seen, labels, smalls, e);
      seen' := seen + {key};
      found' := found + [SmallTargetFor(g, e)];
    }
  }

  method AccessibilityFindings(nodes: seq<Placed<Element>>, g: Geometry, minPt: real, cap: int) returns (found: seq<Finding>)
    ensures found == Report(g, minPt, nodes, cap)
  {
    hide RunAfter, Announces, SeenIs, LabelsUpTo, SmallsUpTo, UnlabelledIn, SmallIn, FirstOfEachName, Named,
      UnlabelledFindings, SmallFindings, AnyAnnounces, Reported, UnlabelledOnes, SmallOnes, Coverage, AnySized, SmallTargetFor;
    found := [];
    var unlabelled, small, sized: nat := 0, 0, 0;
    var seen: set<string> := {};
    EmptyReport(g, minPt, nodes, cap);
    NothingSeen();
    NothingSized(g, nodes);
    for i := 0 to |nodes|
      invariant found == Reported(g, minPt, nodes, cap, i)
      invariant SeenIs(seen, LabelsUpTo(nodes, cap, i), SmallsUpTo(g, minPt, nodes, cap, i))
      invariant unlabelled == |UnlabelledOnes(nodes, i)| && small == |SmallOnes(g, minPt, nodes, i)|
      invariant sized > 0 <==> AnySized(g, nodes, i)
    {
      var e := nodes[i].elem;
      ghost var labels, smalls := LabelsUpTo(nodes, cap, i), SmallsUpTo(g, minPt, nodes, cap, i);
      LabelsNext(nodes, cap, i);
      SmallsNext(g, minPt, nodes, cap, i);
      Grows(labels, e);
      Grows(smalls, e);
      LabelErrorsAreTheFirsts(g, minPt, nodes, cap, i);
      SizeWarningsAreTheFirsts(g, minPt, nodes, cap, i);
      SizedNext(g, nodes, i);
      NextReport(g, minPt, nodes, cap, i);
      OnesNext(g, minPt, nodes, i);
      if Judged(e) {
        var announced := Announces(e);
        if !announced { announced := DescendantAnnounces(nodes, i); }
        if !announced {
          unlabelled := unlabelled + 1;
          found, seen := ReportLabel(found, seen, e, cap, labels, smalls);
        }
        ghost var labels' := LabelsUpTo(nodes, cap, i + 1);
        assert SeenIs(seen, labels', smalls);
        SmallCountKept(Reported(g, minPt, nodes, cap, i), found);
        if e.bounds.Some? && ToPoints(g, e.bounds.value.w).Some? && ToPoints(g, e.bounds.value.h).Some? {
          sized := sized + 1;
          if ToPoints(g, e.bounds.value.w).value < minPt && ToPoints(g, e.bounds.value.h).value < minPt {
            small := small + 1;
            found, seen := ReportSize(found, seen, e, g, cap, labels', smalls);
          }
        }
      }
    }
    var notes := Notes(g, nodes, cap, unlabelled, small, sized);
    found := found + notes;
  }

  /** The notes pushed after the loop. */
  method Notes(g: Geometry, nodes: seq<Placed<Element>>, cap: int, unlabelled: nat, small: nat, sized: nat)
    returns (notes: seq<Finding>)
    requires sized > 0 <==> AnySized(g, nodes, |nodes|)
    ensures notes == Coverage(g, nodes, cap, unlabelled, small)
  {
    hide AnySized, AnyTappableWithBounds;
    notes := [];
    if sized == 0 && AnyTappableWithBounds(nodes) { notes := notes + [SizesNotJudged(g.UnknownUnit?)]; }
    if unlabelled > cap { notes := notes + [ManyUnlabelled(unlabelled)]; }
    if small > cap { notes := notes + [ManySmall(small)]; }
  }

  lemma OnesNext(g: Geometry, minPt: real, nodes: seq<Placed<Element>>, i: nat)
    requires i < |nodes|
    ensures |UnlabelledOnes(nodes, i + 1)| == |UnlabelledOnes(nodes, i)| + (if IsUnlabelled(nodes, i) then 1 else 0)
    ensures |SmallOnes(g, minPt, nodes, i + 1)| ==
      |SmallOnes(g, minPt, nodes, i)| + (if IsSmall(g, minPt, nodes[i].elem) then 1 else 0)
  {
  }

  lemma NothingSized(g: Geometry, nodes: seq<Placed<Element>>)
    ensures !AnySized(g, nodes, 0)
  {
  }

  lemma NothingSeen()
    ensures SeenIs({}, [], [])
  {
  }

  lemma Grows(es: seq<Element>, e: Element)
    ensures es + [e] != es
  {
    assert |es + [e]| == |es| + 1;
  }

  lemma SizedNext(g: Geometry, nodes: seq<Placed<Element>>, i: nat)
    requires i < |nodes|
    ensures AnySized(g, nodes, i + 1) <==> AnySized(g, nodes, i) || IsSized(g, nodes[i].elem)
  {
  }

  lemma SmallCountKept(found: seq<Finding>, found': seq<Finding>)
    ensures found' == found || (|found'| == |found| + 1 && found <= found' && found'[|found|].Unlabelled?) ==>
      SmallIn(found') == SmallIn(found)
  {
    if |found'| == |found| + 1 && found <= found' && found'[|found|].Unlabelled? {
      assert found' == found + [found'[|found|]];
      InAppend(found, found'[|found|]);
    }
  }

  lemma NextReport(g: Geometry, minPt: real, nodes: seq<Placed<Element>>, cap: int, i: nat)
    requires i < |nodes|
    ensures var e := nodes[i].elem;
      Reported(g, minPt, nodes, cap, i + 1) ==
      Reported(g, minPt, nodes, cap, i)
      + (if LabelsUpTo(nodes, cap, i + 1) != LabelsUpTo(nodes, cap, i) then [Unlabelled(e.name)] else [])
      + (if IsSized(g, e) && SmallsUpTo(g, minPt, nodes, cap, i + 1) != SmallsUpTo(g, minPt, nodes, cap, i)
         then [SmallTargetFor(g, e)] else [])
  {
  }

  // ---- on real trees ---------------------------------------------------------

  /** Something in these trees announces itself. */
  predicate ForestAnnounces(f: Forest<Element>) {
    f.Tree? && (Announces(f.elem) || ForestAnnounces(f.kids) || ForestAnnounces(f.next))
  }

  lemma AnnouncesJoin(a: seq<Placed<Element>>, b: seq<Placed<Element>>)
    ensures AnyAnnounces(a + b) <==> AnyAnnounces(a) || AnyAnnounces(b)
  {
    if AnyAnnounces(a) {
      var i :| 0 <= i < |a| && Announces(a[i].elem);
      assert (a + b)[i] == a[i];
    }
    if AnyAnnounces(b) {
      var i :| 0 <= i < |b| && Announces(b[i].elem);
      assert (a + b)[|a| + i] == b[i];
    }
  }

  lemma {:induction false} ForestAnnouncesInList(f: Forest<Element>, d: nat)
    ensures AnyAnnounces(Preorder(f, d)) <==> ForestAnnounces(f)
  {
    hide AnyAnnounces, Announces;
    if f.Tree? {
      ForestAnnouncesInList(f.kids, d + 1);
      ForestAnnouncesInList(f.next, d);
      var p := [Placed(f.elem, d)];
      AnnouncesJoin(p, Preorder(f.kids, d + 1));
      AnnouncesJoin(p + Preorder(f.kids, d + 1), Preorder(f.next, d));
      AnnouncesAlone(f.elem, d);
    } else {
      AnnouncesNothing();
    }
  }

  lemma AnnouncesAlone(e: Element, d: nat)
    ensures AnyAnnounces([Placed(e, d)]) <==> Announces(e)
  {
    assert [Placed(e, d)][0].elem == e;
  }

  lemma AnnouncesNothing()
    ensures !AnyAnnounces([])
  {
  }

  /**
   * On the dump of a real tree a control is called unlabelled exactly when it
   * is judged and neither it nor anything in its subtree announces itself.
   */
  lemma UnlabelledMeansSilentSubtree(f: Forest<Element>, i: nat)
    requires i < |Preorder(f, 0)|
    ensures var e := Preorder(f, 0)[i].elem;
      IsUnlabelled(Preorder(f, 0), i) <==> Judged(e) && !Announces(e) && !ForestAnnounces(KidsAt(f, 0, i))
  {
    hide RunAfter, Preorder, KidsAt, Announces, Judged;
    RunIsSubtree(f, 0, i);
    ForestAnnouncesInList(KidsAt(f, 0, i), Preorder(f, 0)[i].depth + 1);
  }

  /** In a Maestro hierarchy a silent button beside a bare container is excused by the container's label. */
  lemma ACousinsLabelExcusesAButton(root: Element, button: Element, cousin: Element)
    requires Judged(button) && !Announces(button) && Announces(cousin)
    ensures var nodes := MaestroTree.Walk(Tree(Some(root), MaestroTree.BesideContainer(button, cousin), Empty), 0);
      |nodes| == 3 && nodes[1].elem == button && !IsUnlabelled(nodes, 1)
  {
    MaestroTree.ACousinIsTakenForAChild(root, button, cousin);
    AnnouncesAlone(cousin, 2);
  }
}
