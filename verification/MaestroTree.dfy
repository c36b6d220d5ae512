// MaestroTree: parseMaestroHierarchy of collector/src/a11y-tree.ts, which drops
// containers without attributes and still counts them as a level.

module MaestroTree {
  import opened Text
  import opened AccessibilityTree

  /** What the walk pushes: a node without attributes is None, and only its children show. */
  function Walk<E>(f: Forest<Option<E>>, d: nat): (l: seq<Placed<E>>)
    ensures forall i :: 0 <= i < |l| ==> l[i].depth >= d
    decreases f, 1
  {
    match f
    case Empty => []
    case Tree(_, _, next) => Head(f, d) + Walk(next, d)
  }

  /** What the first tree of the list pushes. */
  function Head<E>(f: Forest<Option<E>>, d: nat): (l: seq<Placed<E>>)
    requires f.Tree?
    ensures forall i :: 0 <= i < |l| ==> l[i].depth >= d
    decreases f, 0
  {
    (if f.elem.Some? then [Placed(f.elem.value, d)] else []) + Walk(f.kids, d + 1)
  }

  /** How many elements really stand below each one pushed. */
  function Sizes<E>(f: Forest<Option<E>>, d: nat): (s: seq<nat>)
    ensures |s| == |Walk(f, d)|
    ensures forall i :: 0 <= i < |s| ==> s[i] < |s| - i
    decreases f, 1
  {
    match f
    case Empty => []
    case Tree(_, _, next) => HeadSizes(f, d) + Sizes(next, d)
  }

  function HeadSizes<E>(f: Forest<Option<E>>, d: nat): (s: seq<nat>)
    requires f.Tree?
    ensures |s| == |Head(f, d)|
    ensures forall i :: 0 <= i < |s| ==> s[i] < |s| - i
    decreases f, 0
  {
    (if f.elem.Some? then [|Walk(f.kids, d + 1)|] else []) + Sizes(f.kids, d + 1)
  }

  lemma WalkOfNothing<E>(d: nat)
    ensures Walk<E>(Empty, d) == []
  {
  }

  lemma WalkIs<E>(f: Forest<Option<E>>, d: nat, before: seq<Placed<E>>)
    requires f.Tree?
    ensures before + Walk(f, d) ==
      (if f.elem.Some? then before + [Placed(f.elem.value, d)] else before) + Walk(f.kids, d + 1) + Walk(f.next, d)
  {
  }

  method WalkHierarchy<E>(f: Forest<Option<E>>, d: nat, before: seq<Placed<E>>) returns (nodes: seq<Placed<E>>)
    ensures nodes == before + Walk(f, d)
    decreases f
  {
    hide Walk;
    nodes := before;
    var rest := f;
    WalkOfNothing<E>(d);
    while rest.Tree?
      invariant rest == f || rest < f
      invariant nodes + Walk(rest, d) == before + Walk(f, d)
      decreases rest
    {
      WalkIs(rest, d, nodes);
      if rest.elem.Some? { nodes := nodes + [Placed(rest.elem.value, d)]; }
      nodes := WalkHierarchy(rest.kids, d + 1, nodes);
      rest := rest.next;
    }
  }

  /** Of a list with gaps, the elements that are there, at their depths. */
  function ShownOf<E>(l: seq<Placed<Option<E>>>): seq<Placed<E>> {
    if l == [] then []
    else (if l[0].elem.Some? then [Placed(l[0].elem.value, l[0].depth)] else []) + ShownOf(l[1..])
  }

  lemma {:induction false} ShownOfJoin<E>(a: seq<Placed<Option<E>>>, b: seq<Placed<Option<E>>>)
    ensures ShownOf(a + b) == ShownOf(a) + ShownOf(b)
  {
    if a == [] {
      assert a + b == b;
    } else {
      assert (a + b)[1..] == a[1..] + b;
      ShownOfJoin(a[1..], b);
    }
  }

  /** The walk shows exactly the nodes with attributes, in document order, each as deep as it stands in the hierarchy. */
  lemma {:induction false} WalkShowsTheRest<E>(f: Forest<Option<E>>, d: nat)
    ensures Walk(f, d) == ShownOf(Preorder(f, d))
    decreases f
  {
    hide Preorder;
    match f
    case Empty => NothingInIt<E>(d);
    case Tree(e, kids, next) =>
      PreorderIs(f, d);
      WalkShowsTheRest(kids, d + 1);
      WalkShowsTheRest(next, d);
      var p := [Placed(e, d)];
      ShownOfJoin(p + Preorder(kids, d + 1), Preorder(next, d));
      ShownOfJoin(p, Preorder(kids, d + 1));
      assert p[1..] == [];
  }

  lemma NothingInIt<E>(d: nat)
    ensures Preorder<Option<E>>(Empty, d) == []
  {
  }

  // ---- when the run is the subtree -------------------------------------------

  predicate RightAt<E>(l: seq<Placed<E>>, sizes: seq<nat>, i: nat)
    requires i < |l| && i < |sizes|
  {
    Run(l[i + 1..], l[i].depth) == sizes[i]
  }

  /** Every element's run of following deeper elements is as long as its subtree. */
  predicate RunsAreSubtrees<E>(l: seq<Placed<E>>, sizes: seq<nat>) {
    |l| == |sizes| && forall i :: 0 <= i < |l| ==> RightAt(l, sizes, i)
  }

  /** No element of a is shallower than the first of b. */
  predicate NoDeeperStart<E>(a: seq<Placed<E>>, b: seq<Placed<E>>) {
    b != [] ==> forall i :: 0 <= i < |a| ==> b[0].depth <= a[i].depth
  }

  /** Followed by something that starts no deeper, an element keeps its run. */
  lemma RightInHead<E>(a: seq<Placed<E>>, sa: seq<nat>, b: seq<Placed<E>>, sb: seq<nat>, i: nat)
    requires |a| == |sa| && |b| == |sb| && i < |a|
    requires b != [] ==> b[0].depth <= a[i].depth
    ensures RightAt(a + b, sa + sb, i) <==> RightAt(a, sa, i)
  {
    assert (a + b)[i + 1..] == a[i + 1..] + b;
    RunStops(a[i + 1..], b, a[i].depth);
  }

  /** Followed by anything at all, an element whose subtree fits keeps its run if it is right there. */
  lemma RightInHeadOnly<E>(a: seq<Placed<E>>, sa: seq<nat>, b: seq<Placed<E>>, sb: seq<nat>, i: nat)
    requires |a| == |sa| && |b| == |sb| && i < |a| && sa[i] < |a| - i && RightAt(a + b, sa + sb, i)
    ensures RightAt(a, sa, i)
  {
    assert (a + b)[i + 1..] == a[i + 1..] + b;
    if Run(a[i + 1..], a[i].depth) < |a| - i - 1 {
      RunWithin(a[i + 1..], b, a[i].depth);
    } else {
      RunOver(a[i + 1..], b, a[i].depth);
    }
  }

  lemma RightInTail<E>(a: seq<Placed<E>>, sa: seq<nat>, b: seq<Placed<E>>, sb: seq<nat>, i: nat)
    requires |a| == |sa| && |b| == |sb| && i < |b|
    ensures RightAt(a + b, sa + sb, |a| + i) <==> RightAt(b, sb, i)
  {
    assert (a + b)[|a| + i + 1..] == b[i + 1..];
  }

  /** An element shallower than the start of b, with only deeper ones between, runs into b. */
  lemma Leaks<E>(a: seq<Placed<E>>, sa: seq<nat>, b: seq<Placed<E>>, sb: seq<nat>, i: nat)
    requires |a| == |sa| && |b| == |sb| && i < |a| && sa[i] < |a| - i
    requires b != [] && a[i].depth < b[0].depth && forall j :: i < j < |a| ==> a[j].depth >= b[0].depth
    ensures !RightAt(a + b, sa + sb, i)
  {
    assert (a + b)[i + 1..] == a[i + 1..] + b;
    RunOver(a[i + 1..], b, a[i].depth);
  }

  /** The last element shallower than b's first, if there is one. */
  lemma {:induction false} LastShallow<E>(a: seq<Placed<E>>, d: nat, k: nat) returns (i: nat)
    requires k < |a| && a[k].depth < d
    ensures k <= i < |a| && a[i].depth < d && forall j :: i < j < |a| ==> a[j].depth >= d
    decreases |a| - k
  {
    i := k;
    if j :| k < j < |a| && a[j].depth < d { i := LastShallow(a, d, j); }
  }

  lemma JoinRightward<E>(a: seq<Placed<E>>, sa: seq<nat>, b: seq<Placed<E>>, sb: seq<nat>)
    requires RunsAreSubtrees(a, sa) && RunsAreSubtrees(b, sb) && NoDeeperStart(a, b)
    ensures RunsAreSubtrees(a + b, sa + sb)
  {
    hide RightAt;
    forall i | 0 <= i < |a + b| ensures RightAt(a + b, sa + sb, i) {
      if i < |a| {
        RightInHead(a, sa, b, sb, i);
      } else {
        RightInTail(a, sa, b, sb, i - |a|);
      }
    }
  }

  lemma JoinLeftward<E>(a: seq<Placed<E>>, sa: seq<nat>, b: seq<Placed<E>>, sb: seq<nat>)
    requires |a| == |sa| && |b| == |sb| && RunsAreSubtrees(a + b, sa + sb)
    requires forall i :: 0 <= i < |sa| ==> sa[i] < |sa| - i
    ensures RunsAreSubtrees(a, sa) && RunsAreSubtrees(b, sb) && NoDeeperStart(a, b)
  {
    hide RightAt;
    forall i | 0 <= i < |b| ensures RightAt(b, sb, i) { RightInTail(a, sa, b, sb, i); }
    forall i | 0 <= i < |a| ensures RightAt(a, sa, i) { RightInHeadOnly(a, sa, b, sb, i); }
    if !NoDeeperStart(a, b) {
      var k :| 0 <= k < |a| && a[k].depth < b[0].depth;
      var i := LastShallow(a, b[0].depth, k);
      Leaks(a, sa, b, sb, i);
    }
  }

  lemma RightUnderRoot<E>(p: Placed<E>, n: nat, kids: seq<Placed<E>>, sizes: seq<nat>, i: nat)
    requires |sizes| == |kids| && i < |kids|
    ensures RightAt([p] + kids, [n] + sizes, i + 1) <==> RightAt(kids, sizes, i)
  {
    assert ([p] + kids)[i + 2..] == kids[i + 1..];
  }

  /** A root over its descendants is right exactly when they are. */
  lemma RootOverKids<E>(p: Placed<E>, kids: seq<Placed<E>>, sizes: seq<nat>)
    requires |sizes| == |kids| && forall i :: 0 <= i < |kids| ==> kids[i].depth > p.depth
    ensures RunsAreSubtrees([p] + kids, [|kids|] + sizes) <==> RunsAreSubtrees(kids, sizes)
  {
    var l, ns := [p] + kids, [|kids|] + sizes;
    assert l[1..] == kids && kids + [] == kids;
    RunOver(kids, [], p.depth);
    assert RightAt(l, ns, 0);
    hide RightAt;
    forall i | 0 <= i < |kids| ensures RightAt(l, ns, i + 1) <==> RightAt(kids, sizes, i) {
      RightUnderRoot(p, |kids|, kids, sizes, i);
    }
    if RunsAreSubtrees(kids, sizes) {
      forall i | 0 <= i < |l| ensures RightAt(l, ns, i) {
        assert i > 0 ==> RightAt(kids, sizes, i - 1);
      }
    }
  }

  /**
   * What can be read off the hierarchy: nowhere in a list of siblings does the
   * first element shown after a sibling stand deeper than an element of it.
   */
  predicate NothingLeaks<E>(f: Forest<Option<E>>, d: nat) {
    f.Empty? ||
    (NothingLeaks(f.kids, d + 1) && NothingLeaks(f.next, d) && NoDeeperStart(Head(f, d), Walk(f.next, d)))
  }

  /**
   * In the parsed Maestro list every element's run is its subtree exactly when
   * nothing leaks: an attribute-less container after a sibling must not show
   * its first element deeper than that sibling's.
   */
  lemma {:induction false} MaestroRunsAreSubtreesExactlyWhen<E>(f: Forest<Option<E>>, d: nat)
    ensures RunsAreSubtrees(Walk(f, d), Sizes(f, d)) <==> NothingLeaks(f, d)
    decreases f
  {
    hide RunsAreSubtrees, NoDeeperStart;
    if f.Empty? {
      NothingIsRight<E>();
    } else {
      MaestroRunsAreSubtreesExactlyWhen(f.kids, d + 1);
      MaestroRunsAreSubtreesExactlyWhen(f.next, d);
      HeadIsRight(f, d);
      if RunsAreSubtrees(Walk(f, d), Sizes(f, d)) {
        JoinLeftward(Head(f, d), HeadSizes(f, d), Walk(f.next, d), Sizes(f.next, d));
      }
      if NothingLeaks(f, d) {
        JoinRightward(Head(f, d), HeadSizes(f, d), Walk(f.next, d), Sizes(f.next, d));
      }
    }
  }

  lemma NothingIsRight<E>()
    ensures RunsAreSubtrees<E>([], [])
  {
  }

  lemma HeadIsRight<E>(f: Forest<Option<E>>, d: nat)
    requires f.Tree?
    ensures RunsAreSubtrees(Head(f, d), HeadSizes(f, d)) <==> RunsAreSubtrees(Walk(f.kids, d + 1), Sizes(f.kids, d + 1))
  {
    hide RunsAreSubtrees;
    var kids, sizes := Walk(f.kids, d + 1), Sizes(f.kids, d + 1);
    if f.elem.Some? {
      RootOverKids(Placed(f.elem.value, d), kids, sizes);
    } else {
      assert [] + kids == kids && [] + sizes == sizes;
    }
  }

  /** Every node carries attributes. */
  predicate AllShown<E>(f: Forest<Option<E>>) {
    f.Empty? || (f.elem.Some? && AllShown(f.kids) && AllShown(f.next))
  }

  lemma ShownStartsAtItsDepth<E>(f: Forest<Option<E>>, d: nat)
    requires AllShown(f) && f.Tree?
    ensures Walk(f, d) != [] && Walk(f, d)[0].depth == d
  {
  }

  /** A hierarchy whose every node carries attributes is judged by its true subtrees. */
  lemma {:induction false} FullHierarchiesAreRight<E>(f: Forest<Option<E>>, d: nat)
    requires AllShown(f)
    ensures RunsAreSubtrees(Walk(f, d), Sizes(f, d))
  {
    MaestroRunsAreSubtreesExactlyWhen(f, d);
    NothingLeaksWhenAllShown(f, d);
  }

  lemma {:induction false} NothingLeaksWhenAllShown<E>(f: Forest<Option<E>>, d: nat)
    requires AllShown(f)
    ensures NothingLeaks(f, d)
  {
    if f.Tree? {
      NothingLeaksWhenAllShown(f.kids, d + 1);
      NothingLeaksWhenAllShown(f.next, d);
      if f.next.Tree? { ShownStartsAtItsDepth(f.next, d); }
    }
  }

  /** A button beside a bare container that holds one element. */
  function BesideContainer<E>(button: E, cousin: E): Forest<Option<E>> {
    Tree(Some(button), Empty, Tree(None, Tree(Some(cousin), Empty, Empty), Empty))
  }

  lemma BesideContainerWalks<E>(button: E, cousin: E, d: nat)
    ensures var kids := BesideContainer(button, cousin);
      Walk(kids, d) == [Placed(button, d), Placed(cousin, d + 1)] &&
      Walk(kids.next, d) == [Placed(cousin, d + 1)] && Head(kids, d) == [Placed(button, d)]
  {
    var kids := BesideContainer(button, cousin);
    WalkOfNothing<E>(d + 1);
    WalkOfNothing<E>(d + 2);
    assert Walk(kids.next.kids, d + 1) == [Placed(cousin, d + 1)];
    assert Walk(kids.next, d) == [Placed(cousin, d + 1)];
  }

  lemma ListedRun<E>(root: E, button: E, cousin: E)
    ensures RunAfter([Placed(root, 0), Placed(button, 1), Placed(cousin, 2)], 1) == [Placed(cousin, 2)]
  {
    var l := [Placed(root, 0), Placed(button, 1), Placed(cousin, 2)];
    assert l[2..] == [Placed(cousin, 2)] && l[2..][1..] == [];
    assert Run(l[2..][1..], 1) == 0;
    assert Run(l[2..], 1) == 1;
  }

  /**
   * The container's child is one level deeper than the button in the parsed
   * list, so the button's run takes it in.
   */
  lemma ACousinIsTakenForAChild<E>(root: E, button: E, cousin: E)
    ensures var f := Tree(Some(root), BesideContainer(button, cousin), Empty);
      Walk(f, 0) == [Placed(root, 0), Placed(button, 1), Placed(cousin, 2)] &&
      RunAfter(Walk(f, 0), 1) == [Placed(cousin, 2)] && !NothingLeaks(f, 0)
  {
    hide Walk, Head, RunAfter;
    var kids := BesideContainer(button, cousin);
    var f := Tree(Some(root), kids, Empty);
    BesideContainerWalks(button, cousin, 1);
    WalkOfNothing<E>(0);
    WalkIs(f, 0, []);
    var before: seq<Placed<E>> := [];
    assert before + Walk(f, 0) == Walk(f, 0);
    ListedRun(root, button, cousin);
    assert !NoDeeperStart(Head(kids, 1), Walk(kids.next, 1)) by { assert Head(kids, 1)[0].depth == 1; }
    assert !NothingLeaks(kids, 1);
  }
}
