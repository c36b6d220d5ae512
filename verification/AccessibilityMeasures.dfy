// AccessibilityMeasures: what a11yFindings calls silent and what it calls small,
// in the terms of the elements themselves.

module AccessibilityMeasures {
  import opened Text
  import opened AccessibilityTree
  import opened AccessibilityJudge

  // ---- small -----------------------------------------------------------------

  /** On screen as far as the tree says, and there to be tapped. */
  predicate CanBeTapped(e: Element) {
    e.tappable && e.enabled && (e.bounds.Some? ==> e.bounds.value.w > 0.0 && e.bounds.value.h > 0.0)
  }

  lemma UnderTheMinimum(px: real, dpi: real, minPt: real)
    requires dpi > 0.0
    ensures px * 160.0 / dpi < minPt <==> px * 160.0 < minPt * dpi
    ensures px * 160.0 / dpi * dpi == px * 160.0
  {
    var pt := px * 160.0 / dpi;
    assert pt * dpi == px * 160.0;
    if pt < minPt { assert (minPt - pt) * dpi > 0.0; }
    if pt >= minPt { assert (pt - minPt) * dpi >= 0.0; }
  }

  /**
   * A target is small when it is short both ways: in points against the minimum
   * itself, in pixels against the minimum at 160 to the inch - w pixels at a
   * density of dpi are w * 160 / dpi points - and in an unknown unit, or at no
   * density, never.
   */
  lemma SmallExactlyWhen(g: Geometry, minPt: real, e: Element)
    ensures IsSmall(g, minPt, e) <==>
      CanBeTapped(e) && e.bounds.Some? &&
      match g
      case Points => e.bounds.value.w < minPt && e.bounds.value.h < minPt
      case Pixels(dpi) => dpi > 0.0 && e.bounds.value.w * 160.0 < minPt * dpi && e.bounds.value.h * 160.0 < minPt * dpi
      case UnknownUnit => false
  {
    if g.Pixels? && g.densityDpi > 0.0 && e.bounds.Some? {
      UnderTheMinimum(e.bounds.value.w, g.densityDpi, minPt);
      UnderTheMinimum(e.bounds.value.h, g.densityDpi, minPt);
    }
  }

  /** The finding measures the element in points, under its label, else its text, else its name. */
  predicate Describes(f: Finding, g: Geometry, e: Element) {
    f.SmallTarget? && e.bounds.Some? &&
    (if e.labelText != "" then f.subject == e.labelText
     else if e.text != "" then f.subject == e.text else f.subject == e.name) &&
    match g
    case Points => f.w == e.bounds.value.w && f.h == e.bounds.value.h
    case Pixels(dpi) => f.w * dpi == e.bounds.value.w * 160.0 && f.h * dpi == e.bounds.value.h * 160.0
    case UnknownUnit => false
  }

  lemma WarningDescribes(g: Geometry, e: Element)
    requires IsSized(g, e)
    ensures Describes(SmallTargetFor(g, e), g, e)
  {
    if g.Pixels? {
      UnderTheMinimum(e.bounds.value.w, g.densityDpi, 0.0);
      UnderTheMinimum(e.bounds.value.h, g.densityDpi, 0.0);
    }
  }

  lemma {:induction false} SmallOnesAre(g: Geometry, minPt: real, nodes: seq<Placed<Element>>, k: nat, e: Element)
    requires k <= |nodes|
    ensures e in SmallOnes(g, minPt, nodes, k) <==> exists i :: 0 <= i < k && nodes[i].elem == e && IsSmall(g, minPt, e)
  {
    hide IsSmall;
    if k > 0 { SmallOnesAre(g, minPt, nodes, k - 1, e); }
  }

  lemma {:induction false} KeptAreAmong(es: seq<Element>, cap: int, e: Element)
    ensures e in FirstOfEachName(es, cap) ==> e in es
  {
    hide Named;
    if es != [] { KeptAreAmong(es[..|es| - 1], cap, e); }
  }

  lemma {:induction false} SmallInAre(found: seq<Finding>, f: Finding)
    ensures f in SmallIn(found) <==> f in found && f.SmallTarget?
  {
    if found != [] {
      SmallInAre(found[..|found| - 1], f);
      assert found == found[..|found| - 1] + [found[|found| - 1]];
    }
  }

  /** Every size warning in the report is of a small target of the screen, measured truly. */
  lemma EveryWarningIsOfASmallTarget(g: Geometry, minPt: real, nodes: seq<Placed<Element>>, cap: int, f: Finding)
    requires f in Report(g, minPt, nodes, cap) && f.SmallTarget?
    ensures exists i :: 0 <= i < |nodes| && IsSmall(g, minPt, nodes[i].elem) && Describes(f, g, nodes[i].elem)
  {
    hide Reported, IsSmall, IsSized, Describes, SmallOnes, FirstOfEachName, SmallTargetFor, SmallIn, AnySized, AnyTappableWithBounds;
    var n := |nodes|;
    SmallInAre(Reported(g, minPt, nodes, cap, n), f);
    SizeWarningsAreTheFirsts(g, minPt, nodes, cap, n);
    var kept := SmallsUpTo(g, minPt, nodes, cap, n);
    var k :| 0 <= k < |kept| && SmallFindings(g, kept)[k] == f;
    KeptAreAmong(SmallOnes(g, minPt, nodes, n), cap, kept[k]);
    SmallOnesAre(g, minPt, nodes, n, kept[k]);
    WarningDescribes(g, kept[k]);
  }

  /** A button of 60 by 60 pixels at 480 to the inch is 20 points wide, and under a minimum of 44. */
  lemma ADenseScreensButtonIsSmall(e: Element)
    requires e.tappable && e.enabled && e.bounds == Some(Rect(0.0, 0.0, 60.0, 60.0))
    ensures IsSmall(Pixels(480.0), 44.0, e) && SmallTargetFor(Pixels(480.0), e) == SmallTarget(SubjectOf(e), 20.0, 20.0)
    ensures !IsSmall(Points, 44.0, e) && !IsSmall(Pixels(160.0), 44.0, e)
  {
  }

  /**
   * The report says that no size was judged exactly when something tappable has
   * bounds, and the unit is unknown, or in pixels at no density, or nothing that
   * can be tapped has bounds; and it blames the unit exactly when it is unknown.
   */
  lemma SizesUnjudgedExactlyWhen(g: Geometry, minPt: real, nodes: seq<Placed<Element>>, cap: int, unknown: bool)
    ensures SizesNotJudged(unknown) in Report(g, minPt, nodes, cap) <==>
      (exists i :: 0 <= i < |nodes| && nodes[i].elem.tappable && nodes[i].elem.bounds.Some?) &&
      (g.UnknownUnit? || (g.Pixels? && g.densityDpi <= 0.0) ||
        forall i :: 0 <= i < |nodes| ==> !(CanBeTapped(nodes[i].elem) && nodes[i].elem.bounds.Some?)) &&
      unknown == g.UnknownUnit?
  {
    hide Report;
    SizesNotJudgedExactlyWhen(g, minPt, nodes, cap, unknown);
  }

  // ---- silent ----------------------------------------------------------------

  /** Nothing of it can be read out. */
  predicate IsSilent(e: Element) {
    Blank(e.labelText) && Blank(e.text) && Blank(e.value)
  }

  lemma SilentExactlyWhen(e: Element)
    ensures IsSilent(e) <==> !Announces(e)
  {
    hide Blank;
    BlankVanishes(e.labelText);
    BlankVanishes(e.text);
    BlankVanishes(e.value);
  }

  /**
   * On the dump of a real tree a control is called unlabelled exactly when it can
   * be tapped and it and everything below it have only space for a label, a text
   * and a value.
   */
  lemma UnlabelledExactlyWhen(f: Forest<Element>, i: nat)
    requires i < |Preorder(f, 0)|
    ensures var e, below := Preorder(f, 0)[i].elem, Preorder(KidsAt(f, 0, i), 0);
      IsUnlabelled(Preorder(f, 0), i) <==>
        CanBeTapped(e) && IsSilent(e) && forall j :: 0 <= j < |below| ==> IsSilent(below[j].elem)
  {
    hide Preorder, KidsAt, IsSilent, Announces;
    UnlabelledMeansSilentSubtree(f, i);
    SilentExactlyWhen(Preorder(f, 0)[i].elem);
    var below := Preorder(KidsAt(f, 0, i), 0);
    ForestAnnouncesInList(KidsAt(f, 0, i), 0);
    forall j | 0 <= j < |below| ensures IsSilent(below[j].elem) <==> !Announces(below[j].elem) {
      SilentExactlyWhen(below[j].elem);
    }
  }
}
