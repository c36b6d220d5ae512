// AccessibilityTree: what collector/src/a11y-tree.ts can know of a tree it has
// only as a list of elements with depths.

module AccessibilityTree {
  import opened Text

  // ---- trees and the list a document order makes of them ---------------------

  /** A list of trees: the first one's root and its children, then the trees after it. */
  datatype Forest<E> = Empty | Tree(elem: E, kids: Forest<E>, next: Forest<E>)

  datatype Placed<E> = Placed(elem: E, depth: nat)

  function Preorder<E>(f: Forest<E>, d: nat): (l: seq<Placed<E>>)
    ensures forall i :: 0 <= i < |l| ==> l[i].depth >= d
    ensures f.Tree? ==> l != [] && l[0] == Placed(f.elem, d)
  {
    match f
    case Empty => []
    case Tree(e, kids, next) => [Placed(e, d)] + Preorder(kids, d + 1) + Preorder(next, d)
  }

  /** How many nodes at the head of the list are deeper than d: the judge's idea of a subtree. */
  function Run<E>(l: seq<Placed<E>>, d: nat): (n: nat)
    ensures n <= |l|
    ensures forall i :: 0 <= i < n ==> l[i].depth > d
    ensures n < |l| ==> l[n].depth <= d
  {
    if l == [] || l[0].depth <= d then 0 else 1 + Run(l[1..], d)
  }

  /** The trees below the i-th node in document order. */
  function KidsAt<E>(f: Forest<E>, d: nat, i: nat): Forest<E>
    requires i < |Preorder(f, d)|
    decreases f
  {
    var k := |Preorder(f.kids, d + 1)|;
    if i == 0 then f.kids
    else if i <= k then KidsAt(f.kids, d + 1, i - 1)
    else KidsAt(f.next, d, i - 1 - k)
  }

  /** Everything in a deeper than d, followed by something that is not: the run is a, whatever follows. */
  lemma RunOver<E>(a: seq<Placed<E>>, b: seq<Placed<E>>, d: nat)
    requires forall i :: 0 <= i < |a| ==> a[i].depth > d
    ensures Run(a + b, d) == |a| + Run(b, d)
  {
    if a == [] {
      assert a + b == b;
    } else {
      assert (a + b)[1..] == a[1..] + b;
      RunOver(a[1..], b, d);
    }
  }

  /** A run that stops inside a does not see what follows a. */
  lemma RunWithin<E>(a: seq<Placed<E>>, b: seq<Placed<E>>, d: nat)
    requires Run(a, d) < |a|
    ensures Run(a + b, d) == Run(a, d)
  {
    if a[0].depth > d {
      assert (a + b)[1..] == a[1..] + b;
      RunWithin(a[1..], b, d);
    }
  }

  /** The run of deeper nodes after the i-th. */
  function RunAfter<E>(l: seq<Placed<E>>, i: nat): seq<Placed<E>>
    requires i < |l|
  {
    l[i + 1..][..Run(l[i + 1..], l[i].depth)]
  }

  /** A root, its descendants, and what comes after them in the document. */
  ghost predicate Parts<E>(p: Placed<E>, kids: seq<Placed<E>>, next: seq<Placed<E>>) {
    (forall i :: 0 <= i < |kids| ==> kids[i].depth > p.depth) && (next != [] ==> next[0].depth <= p.depth)
  }

  lemma RunOfRoot<E>(p: Placed<E>, kids: seq<Placed<E>>, next: seq<Placed<E>>)
    requires Parts(p, kids, next)
    ensures RunAfter([p] + kids + next, 0) == kids
  {
    assert ([p] + kids + next)[1..] == kids + next;
    RunOver(kids, next, p.depth);
    assert (kids + next)[..|kids|] == kids;
  }

  lemma RunOfKid<E>(p: Placed<E>, kids: seq<Placed<E>>, next: seq<Placed<E>>, i: nat)
    requires Parts(p, kids, next) && i < |kids|
    ensures RunAfter([p] + kids + next, i + 1) == RunAfter(kids, i) && ([p] + kids + next)[i + 1] == kids[i]
  {
    var tail := kids[i + 1..];
    assert ([p] + kids + next)[i + 2..] == tail + next;
    RunStops(tail, next, kids[i].depth);
    var n := Run(tail, kids[i].depth);
    assert (tail + next)[..n] == tail[..n];
  }

  /** A run does not reach what starts no deeper than it. */
  lemma RunStops<E>(a: seq<Placed<E>>, b: seq<Placed<E>>, d: nat)
    requires b != [] ==> b[0].depth <= d
    ensures Run(a + b, d) == Run(a, d)
  {
    if Run(a, d) < |a| {
      RunWithin(a, b, d);
    } else {
      RunOver(a, b, d);
    }
  }

  lemma RunOfNext<E>(p: Placed<E>, kids: seq<Placed<E>>, next: seq<Placed<E>>, i: nat)
    requires i < |next|
    ensures RunAfter([p] + kids + next, 1 + |kids| + i) == RunAfter(next, i)
    ensures ([p] + kids + next)[1 + |kids| + i] == next[i]
  {
    assert ([p] + kids + next)[1 + |kids| + i + 1..] == next[i + 1..];
  }

  lemma PreorderIs<E>(f: Forest<E>, d: nat)
    requires f.Tree?
    ensures Preorder(f, d) == [Placed(f.elem, d)] + Preorder(f.kids, d + 1) + Preorder(f.next, d)
    ensures Parts(Placed(f.elem, d), Preorder(f.kids, d + 1), Preorder(f.next, d))
  {
  }

  lemma KidsAtIs<E>(f: Forest<E>, d: nat, i: nat)
    requires i < |Preorder(f, d)|
    ensures f.Tree?
    ensures var k := |Preorder(f.kids, d + 1)|;
      if i == 0 then KidsAt(f, d, i) == f.kids
      else if i <= k then i - 1 < k && KidsAt(f, d, i) == KidsAt(f.kids, d + 1, i - 1)
      else i - 1 - k < |Preorder(f.next, d)| && KidsAt(f, d, i) == KidsAt(f.next, d, i - 1 - k)
  {
  }

  /**
   * On a real tree the run of following deeper nodes is exactly the node's
   * subtree, in document order, wherever the node stands.
   */
  lemma {:induction false} RunIsSubtree<E>(f: Forest<E>, d: nat, i: nat)
    requires i < |Preorder(f, d)|
    ensures RunAfter(Preorder(f, d), i) == Preorder(KidsAt(f, d, i), Preorder(f, d)[i].depth + 1)
    decreases f
  {
    hide RunAfter, Run, Parts, Preorder, KidsAt;
    KidsAtIs(f, d, i);
    PreorderIs(f, d);
    var kids, next := Preorder(f.kids, d + 1), Preorder(f.next, d);
    if i == 0 {
      RunOfRoot(Placed(f.elem, d), kids, next);
    } else if i <= |kids| {
      RunIsSubtree(f.kids, d + 1, i - 1);
      RunOfKid(Placed(f.elem, d), kids, next, i - 1);
    } else {
      RunIsSubtree(f.next, d, i - 1 - |kids|);
      RunOfNext(Placed(f.elem, d), kids, next, i - 1 - |kids|);
    }
  }

  // ---- the list determines the tree ------------------------------------------

  /** The forest a list of depths describes, each node owning the run after it. */
  function Rebuild<E>(l: seq<Placed<E>>): Forest<E>
    decreases |l|
  {
    if l == [] then Empty
    else
      var n := Run(l[1..], l[0].depth);
      Tree(l[0].elem, Rebuild(l[1..][..n]), Rebuild(l[1..][n..]))
  }

  /** Depths that start at d, never go below it, and never deepen by more than one. */
  predicate Shaped<E>(l: seq<Placed<E>>, d: nat) {
    (l != [] ==> l[0].depth == d) &&
    forall i :: 0 <= i < |l| ==> l[i].depth >= d && (i > 0 ==> l[i].depth <= l[i - 1].depth + 1)
  }

  lemma RebuildParts<E>(p: Placed<E>, kids: seq<Placed<E>>, next: seq<Placed<E>>)
    requires Parts(p, kids, next)
    ensures Rebuild([p] + kids + next) == Tree(p.elem, Rebuild(kids), Rebuild(next))
  {
    var l := [p] + kids + next;
    assert l[1..] == kids + next;
    RunOver(kids, next, p.depth);
    assert (kids + next)[..|kids|] == kids && (kids + next)[|kids|..] == next;
  }

  lemma {:induction false} RebuildInvertsPreorder<E>(f: Forest<E>, d: nat)
    ensures Rebuild(Preorder(f, d)) == f
  {
    hide Run, Parts;
    if f.Tree? {
      hide Rebuild, Preorder;
      PreorderIs(f, d);
      RebuildInvertsPreorder(f.kids, d + 1);
      RebuildInvertsPreorder(f.next, d);
      RebuildParts(Placed(f.elem, d), Preorder(f.kids, d + 1), Preorder(f.next, d));
    }
  }

  lemma ShapedJoin<E>(a: seq<Placed<E>>, b: seq<Placed<E>>, e: E, d: nat)
    requires Shaped(a, d + 1) && Shaped(b, d)
    ensures Shaped([Placed(e, d)] + a + b, d)
  {
    var l := [Placed(e, d)] + a + b;
    forall i | 0 <= i < |l| ensures l[i].depth >= d && (i > 0 ==> l[i].depth <= l[i - 1].depth + 1) {
      if 1 <= i <= |a| {
        assert l[i] == a[i - 1];
        assert i > 1 ==> l[i - 1] == a[i - 2];
      } else if i > |a| {
        assert l[i] == b[i - 1 - |a|];
        assert i > 1 + |a| ==> l[i - 1] == b[i - 2 - |a|];
        if i == 1 + |a| { assert l[i].depth == d && l[i - 1].depth >= d; }
      }
    }
  }

  lemma {:induction false} PreorderIsShaped<E>(f: Forest<E>, d: nat)
    ensures Shaped(Preorder(f, d), d)
  {
    if f.Tree? {
      PreorderIsShaped(f.kids, d + 1);
      PreorderIsShaped(f.next, d);
      ShapedJoin(Preorder(f.kids, d + 1), Preorder(f.next, d), f.elem, d);
    }
  }

  lemma ShapedSplit<E>(l: seq<Placed<E>>, d: nat)
    requires l != [] && Shaped(l, d)
    ensures Shaped(Below(l), d + 1) && Shaped(Beyond(l), d)
  {
    var rest := l[1..];
    var n := Run(rest, d);
    forall i | 0 <= i < n
      ensures rest[..n][i].depth >= d + 1 && (i > 0 ==> rest[..n][i].depth <= rest[..n][i - 1].depth + 1)
    {
      assert rest[i] == l[i + 1] && l[i + 1].depth <= l[i].depth + 1;
    }
    forall i | 0 <= i < |rest[n..]|
      ensures rest[n..][i].depth >= d && (i > 0 ==> rest[n..][i].depth <= rest[n..][i - 1].depth + 1)
    {
      assert rest[n..][i] == l[n + i + 1] && l[n + i + 1].depth <= l[n + i].depth + 1;
    }
    if n > 0 { assert rest[0] == l[1] && l[1].depth <= l[0].depth + 1; }
    if n < |rest| { assert rest[n] == l[n + 1]; }
  }

  /** The nodes below the first of the list, and the nodes after those. */
  function Below<E>(l: seq<Placed<E>>): seq<Placed<E>>
    requires l != []
  {
    l[1..][..Run(l[1..], l[0].depth)]
  }

  function Beyond<E>(l: seq<Placed<E>>): seq<Placed<E>>
    requires l != []
  {
    l[1..][Run(l[1..], l[0].depth)..]
  }

  lemma RebuildIs<E>(l: seq<Placed<E>>)
    requires l != []
    ensures Rebuild(l) == Tree(l[0].elem, Rebuild(Below(l)), Rebuild(Beyond(l)))
    ensures l == [l[0]] + Below(l) + Beyond(l) && |Below(l)| < |l| && |Beyond(l)| < |l|
  {
    hide Run;
    Cut(l, Run(l[1..], l[0].depth));
  }

  lemma Cut<T>(l: seq<T>, n: nat)
    requires l != [] && n <= |l| - 1
    ensures l == [l[0]] + l[1..][..n] + l[1..][n..]
  {
  }

  lemma {:induction false} ShapedIsPreorder<E>(l: seq<Placed<E>>, d: nat)
    requires Shaped(l, d)
    ensures Preorder(Rebuild(l), d) == l
    decreases |l|
  {
    hide Shaped, Below, Beyond, Run;
    if l != [] {
      hide Rebuild;
      ShapedStart(l, d);
      ShapedSplit(l, d);
      RebuildIs(l);
      ShapedIsPreorder(Below(l), d + 1);
      ShapedIsPreorder(Beyond(l), d);
    }
  }

  lemma ShapedStart<E>(l: seq<Placed<E>>, d: nat)
    requires l != [] && Shaped(l, d)
    ensures l[0] == Placed(l[0].elem, d) && l[0].depth == d
  {
  }

  /** A list of depths is some forest's preorder exactly when it is shaped like one. */
  lemma PreorderInvertsRebuildExactlyWhen<E>(l: seq<Placed<E>>, d: nat)
    ensures Preorder(Rebuild(l), d) == l <==> Shaped(l, d)
  {
    PreorderIsShaped(Rebuild(l), d);
    if Shaped(l, d) { ShapedIsPreorder(l, d); }
  }

  // ---- open and close tags ---------------------------------------------------

  datatype Tag<E> = OpenTag(elem: E) | SelfClosed(elem: E) | CloseTag

  /** XML for a forest; a leaf may be printed either way, as short says. */
  function Tags<E>(f: Forest<E>, short: E -> bool): seq<Tag<E>> {
    match f
    case Empty => []
    case Tree(e, kids, next) =>
      (if kids.Empty? && short(e) then [SelfClosed(e)] else [OpenTag(e)] + Tags(kids, short) + [CloseTag])
      + Tags(next, short)
  }

  /** parseUiautomatorDump's loop from a given depth on. */
  function ParseFrom<E>(tags: seq<Tag<E>>, depth: nat): seq<Placed<E>> {
    if tags == [] then []
    else
      match tags[0]
      case CloseTag => ParseFrom(tags[1..], if depth > 0 then depth - 1 else 0)
      case OpenTag(e) => [Placed(e, depth)] + ParseFrom(tags[1..], depth + 1)
      case SelfClosed(e) => [Placed(e, depth)] + ParseFrom(tags[1..], depth)
  }

  lemma ParseOpen<E>(e: E, rest: seq<Tag<E>>, d: nat)
    ensures ParseFrom([OpenTag(e)] + rest, d) == [Placed(e, d)] + ParseFrom(rest, d + 1)
    ensures ParseFrom([SelfClosed(e)] + rest, d) == [Placed(e, d)] + ParseFrom(rest, d)
    ensures ParseFrom([CloseTag] + rest, d + 1) == ParseFrom(rest, d)
  {
    assert ([OpenTag(e)] + rest)[1..] == rest && ([SelfClosed(e)] + rest)[1..] == rest;
    assert ([CloseTag] + rest)[1..] == rest;
  }

  lemma PairedTags<E>(e: E, inner: seq<Tag<E>>, after: seq<Tag<E>>)
    ensures [OpenTag(e)] + inner + [CloseTag] + after == [OpenTag(e)] + (inner + ([CloseTag] + after))
  {
  }

  lemma TagsOfTree<E>(f: Forest<E>, short: E -> bool)
    requires f.Tree?
    ensures Tags(f, short) ==
      (if f.kids.Empty? && short(f.elem) then [SelfClosed(f.elem)] else [OpenTag(f.elem)] + Tags(f.kids, short) + [CloseTag])
      + Tags(f.next, short)
  {
  }

  lemma Associate<T>(a: seq<T>, b: seq<T>, c: seq<T>)
    ensures a + (b + c) == a + b + c
  {
  }

  lemma TagsIs<E>(f: Forest<E>, short: E -> bool, rest: seq<Tag<E>>)
    requires f.Tree?
    ensures var after := Tags(f.next, short) + rest;
      Tags(f, short) + rest ==
        if f.kids.Empty? && short(f.elem) then [SelfClosed(f.elem)] + after
        else [OpenTag(f.elem)] + (Tags(f.kids, short) + ([CloseTag] + after))
  {
    hide Tags;
    TagsOfTree(f, short);
    if f.kids.Empty? && short(f.elem) {
      Associate([SelfClosed(f.elem)], Tags(f.next, short), rest);
    } else {
      Associate([OpenTag(f.elem)] + Tags(f.kids, short) + [CloseTag], Tags(f.next, short), rest);
      PairedTags(f.elem, Tags(f.kids, short), Tags(f.next, short) + rest);
    }
  }

  lemma Regroup<T>(a: seq<T>, b: seq<T>, c: seq<T>, d: seq<T>)
    ensures a + b + c + d == a + (b + (c + d))
  {
  }

  lemma NoKids<E>(d: nat)
    ensures Preorder<E>(Empty, d) == []
  {
  }

  /** The loop gives every node of a printed forest its true depth, and is back where it started after it. */
  lemma {:induction false} ParsingGivesTrueDepths<E>(f: Forest<E>, short: E -> bool, rest: seq<Tag<E>>, d: nat)
    ensures ParseFrom(Tags(f, short) + rest, d) == Preorder(f, d) + ParseFrom(rest, d)
    decreases f
  {
    hide ParseFrom;
    match f
    case Empty =>
      assert Tags(f, short) + rest == rest;
      assert Preorder(f, d) + ParseFrom(rest, d) == ParseFrom(rest, d);
    case Tree(e, kids, next) =>
      hide Tags, Preorder;
      var after := Tags(next, short) + rest;
      var inner := Tags(kids, short) + ([CloseTag] + after);
      TagsIs(f, short, rest);
      PreorderIs(f, d);
      Regroup([Placed(e, d)], Preorder(kids, d + 1), Preorder(next, d), ParseFrom(rest, d));
      ParsingGivesTrueDepths(next, short, rest, d);
      if kids.Empty? && short(e) {
        ParseOpen(e, after, d);
        NoKids<E>(d + 1);
        assert [] + (Preorder(next, d) + ParseFrom(rest, d)) == Preorder(next, d) + ParseFrom(rest, d);
      } else {
        ParseOpen(e, inner, d);
        ParsingGivesTrueDepths(kids, short, [CloseTag] + after, d + 1);
        ParseOpen(e, after, d);
      }
  }

  // ---- any tags at all -------------------------------------------------------

  /** Tags opened less tags closed. */
  function Net<E>(tags: seq<Tag<E>>): int {
    if tags == [] then 0
    else
      Net(tags[..|tags| - 1]) +
      match tags[|tags| - 1] { case OpenTag(_) => 1 case CloseTag => -1 case SelfClosed(_) => 0 }
  }

  /** The least it has been, over every prefix. */
  function LeastNet<E>(tags: seq<Tag<E>>): (n: int)
    ensures n <= 0 && n <= Net(tags)
  {
    if tags == [] then 0
    else
      var before := LeastNet(tags[..|tags| - 1]);
      if Net(tags) < before then Net(tags) else before
  }

  lemma {:induction false} LeastIsReached<E>(tags: seq<Tag<E>>, k: nat) returns (least: nat)
    requires k <= |tags|
    ensures least <= |tags| && LeastNet(tags) == Net(tags[..least]) && LeastNet(tags) <= Net(tags[..k])
  {
    if tags == [] {
      least := 0;
    } else {
      var front := tags[..|tags| - 1];
      assert tags[..|tags|] == tags;
      if k < |tags| { assert tags[..k] == front[..k]; }
      var before := LeastIsReached(front, if k < |tags| then k else 0);
      assert tags[..before] == front[..before];
      least := if Net(tags) < LeastNet(front) then |tags| else before;
    }
  }

  /**
   * Tags that do not match: the counter, which never goes below zero, stands after
   * any tags at what was opened less what was closed, counted from the least that
   * this has been; so a node of any dump gets that depth.
   */
  lemma {:induction false} CounterIsAboveItsLeast<E>(tags: seq<Tag<E>>, rest: seq<Tag<E>>)
    ensures Net(tags) - LeastNet(tags) >= 0
    ensures ParseFrom(tags + rest, 0) == ParseFrom(tags, 0) + ParseFrom(rest, Net(tags) - LeastNet(tags))
  {
    hide ParseFrom;
    if tags == [] {
      ParseNothing<E>(0);
      assert tags + rest == rest && [] + ParseFrom(rest, 0) == ParseFrom(rest, 0);
    } else {
      var front, last := tags[..|tags| - 1], tags[|tags| - 1];
      CounterIsAboveItsLeast(front, [last] + rest);
      CounterIsAboveItsLeast(front, [last]);
      assert tags + rest == front + ([last] + rest) && tags == front + [last];
      var d := Net(front) - LeastNet(front);
      ParseOneMore(last, rest, d);
      Associate(ParseFrom(front, 0), ParseFrom([last], d), ParseFrom(rest, Net(tags) - LeastNet(tags)));
    }
  }

  lemma ParseNothing<E>(d: nat)
    ensures ParseFrom<E>([], d) == []
  {
  }

  lemma ParseOneMore<E>(tag: Tag<E>, rest: seq<Tag<E>>, d: nat)
    ensures var d' := match tag { case OpenTag(_) => d + 1 case SelfClosed(_) => d case CloseTag => if d > 0 then d - 1 else 0 };
      ParseFrom([tag] + rest, d) == ParseFrom([tag], d) + ParseFrom(rest, d')
  {
    assert ([tag] + rest)[1..] == rest && [tag][1..] == [];
  }

  method ParseUiautomatorTags<E>(tags: seq<Tag<E>>) returns (nodes: seq<Placed<E>>)
    ensures nodes == ParseFrom(tags, 0)
  {
    nodes := [];
    var depth: nat := 0;
    for i := 0 to |tags|
      invariant nodes + ParseFrom(tags[i..], depth) == ParseFrom(tags, 0)
    {
      assert tags[i..][0] == tags[i] && tags[i..][1..] == tags[i + 1..];
      match tags[i] {
        case CloseTag => depth := if depth > 0 then depth - 1 else 0;
        case OpenTag(e) =>
          nodes := nodes + [Placed(e, depth)];
          depth := depth + 1;
        case SelfClosed(e) =>
          nodes := nodes + [Placed(e, depth)];
      }
    }
  }

  /** Dumping any forest and parsing the dump loses nothing of it. */
  lemma DumpAndParseRoundTrip<E>(f: Forest<E>, short: E -> bool)
    ensures ParseFrom(Tags(f, short), 0) == Preorder(f, 0) && Rebuild(ParseFrom(Tags(f, short), 0)) == f
  {
    assert Tags(f, short) + [] == Tags(f, short);
    ParsingGivesTrueDepths(f, short, [], 0);
    RebuildInvertsPreorder(f, 0);
  }
}
