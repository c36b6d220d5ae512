// IndentedTree: the indent stack of parseXcuiDebugDescription in
// collector/src/a11y-tree.ts, which takes depth from ragged indentation.

module IndentedTree {
  import opened Text
  import opened AccessibilityTree

  /** One line that matched the element pattern: its indentation and its element. */
  datatype Line<E> = Line(indent: nat, elem: E)

  /** The stack of open lines, newest on top, each with its number and indent. */
  datatype Stack = Bottom | Push(line: nat, indent: nat, below: Stack)

  function Height(s: Stack): nat {
    if s.Bottom? then 0 else 1 + Height(s.below)
  }

  /** The stack once everything at least as deep as the new line is popped. */
  function Popped(s: Stack, indent: nat): Stack {
    if s.Push? && indent <= s.indent then Popped(s.below, indent) else s
  }

  /** The parser's loop from line n and a given stack on: each line and the depth it gets. */
  function DepthsFrom<E>(lines: seq<Line<E>>, n: nat, s: Stack): (l: seq<Placed<Line<E>>>)
    ensures |l| == |lines|
  {
    if lines == [] then []
    else
      var open := Popped(s, lines[0].indent);
      [Placed(lines[0], Height(open))] + DepthsFrom(lines[1..], n + 1, Push(n, lines[0].indent, open))
  }

  function Depths<E>(lines: seq<Line<E>>): seq<Placed<Line<E>>> {
    DepthsFrom(lines, 0, Bottom)
  }

  /** The stack's indents from the bottom up, as the parser keeps them. */
  function Indents(s: Stack): (l: seq<nat>)
    ensures |l| == Height(s)
  {
    if s.Bottom? then [] else Indents(s.below) + [s.indent]
  }

  predicate Ordered(s: Stack) {
    s.Push? ==> Ordered(s.below) && (s.below.Push? ==> s.below.line < s.line && s.below.indent < s.indent)
  }

  predicate Increasing(s: seq<nat>) {
    forall i :: 0 < i < |s| ==> s[i - 1] < s[i]
  }

  lemma {:induction false} OrderedIsIncreasing(s: Stack)
    requires Ordered(s)
    ensures Increasing(Indents(s))
  {
    if s.Push? {
      OrderedIsIncreasing(s.below);
      var l := Indents(s);
      if s.below.Push? { assert Indents(s.below)[|l| - 2] == s.below.indent; }
    }
  }

  lemma {:induction false} PoppedIsOrdered(s: Stack, indent: nat)
    requires Ordered(s)
    ensures var open := Popped(s, indent);
      Ordered(open) && (open.Push? ==> open.indent < indent && s.Push? && open.line <= s.line)
  {
    if s.Push? && indent <= s.indent { PoppedIsOrdered(s.below, indent); }
  }

  method ParseIndentedLines<E>(lines: seq<Line<E>>) returns (nodes: seq<Placed<Line<E>>>, ghost pops: nat)
    ensures nodes == Depths(lines)
    ensures pops <= |lines|
  {
    hide DepthsFrom, Depths;
    nodes, pops := [], 0;
    var indents: seq<nat> := [];
    ghost var open := Bottom;
    DepthsEnds(lines, |lines|, open);
    for i := 0 to |lines|
      invariant nodes + DepthsFrom(lines[i..], i, open) == Depths(lines)
      invariant indents == Indents(open) && Ordered(open) && (open.Push? ==> open.line < i)
      invariant Increasing(indents)
      invariant pops + |indents| == i
    {
      var indent := lines[i].indent;
      ghost var before := open;
      PoppedIsOrdered(before, indent);
      StepIs(lines, i, before);
      while |indents| > 0 && indent <= indents[|indents| - 1]
        invariant Popped(open, indent) == Popped(before, indent)
        invariant indents == Indents(open) && pops + |indents| == i
      {
        indents := indents[..|indents| - 1];
        open := open.below;
        pops := pops + 1;
      }
      nodes := nodes + [Placed(lines[i], |indents|)];
      indents := indents + [indent];
      open := Push(i, indent, open);
      OrderedIsIncreasing(open);
    }
    DepthsEnds(lines, |lines|, open);
  }

  lemma DepthsEnds<E>(lines: seq<Line<E>>, n: nat, s: Stack)
    ensures DepthsFrom(lines[|lines|..], n, s) == []
    ensures [] + DepthsFrom(lines[0..], 0, Bottom) == Depths(lines)
  {
    assert lines[0..] == lines;
  }

  lemma StepIs<E>(lines: seq<Line<E>>, i: nat, s: Stack)
    requires i < |lines|
    ensures var open := Popped(s, lines[i].indent);
      DepthsFrom(lines[i..], i, s) ==
        [Placed(lines[i], Height(open))] + DepthsFrom(lines[i + 1..], i + 1, Push(i, lines[i].indent, open))
  {
    assert lines[i..][0] == lines[i] && lines[i..][1..] == lines[i + 1..];
  }

  // ---- depth is the number of enclosing lines --------------------------------

  /** Every line after i and before n is deeper than i. */
  predicate OpenUntil<E>(lines: seq<Line<E>>, i: nat, n: nat) {
    i < n <= |lines| && forall k :: i < k < n ==> lines[k].indent > lines[i].indent
  }

  /** Line i encloses line j: j and every line between are deeper than i. */
  predicate Encloses<E>(lines: seq<Line<E>>, i: nat, j: nat) {
    i < j < |lines| && OpenUntil(lines, i, j + 1)
  }

  /** The stack as line n finds it. */
  function Before<E>(lines: seq<Line<E>>, n: nat): Stack
    requires n <= |lines|
  {
    if n == 0 then Bottom
    else Push(n - 1, lines[n - 1].indent, Popped(Before(lines, n - 1), lines[n - 1].indent))
  }

  predicate On(s: Stack, k: nat) {
    s.Push? && (s.line == k || On(s.below, k))
  }

  /** A stack of lines of this text, in order. */
  predicate OfLines<E>(lines: seq<Line<E>>, n: nat, s: Stack)
    requires n <= |lines|
  {
    s.Push? ==>
      s.line < n && s.indent == lines[s.line].indent && OfLines(lines, s.line, s.below) &&
      (s.below.Push? ==> s.below.indent < s.indent)
  }

  lemma {:induction false} OfLinesGrows<E>(lines: seq<Line<E>>, m: nat, n: nat, s: Stack)
    requires m <= n <= |lines| && OfLines(lines, m, s)
    ensures OfLines(lines, n, s)
  {
  }

  /** Popping keeps exactly the lines shallower than the new one. */
  lemma {:induction false} PoppedKeepsShallower<E>(lines: seq<Line<E>>, n: nat, s: Stack, indent: nat, k: nat)
    requires n <= |lines| && OfLines(lines, n, s)
    ensures OfLines(lines, n, Popped(s, indent))
    ensures On(s, k) ==> k < n
    ensures On(Popped(s, indent), k) <==> On(s, k) && lines[k].indent < indent
    ensures On(s, k) && s.Push? ==> lines[k].indent <= s.indent
    ensures Popped(s, indent).Push? ==> Popped(s, indent).indent < indent
    decreases s
  {
    if s.Push? {
      PoppedKeepsShallower(lines, s.line, s.below, indent, k);
      if indent <= s.indent {
        OfLinesGrows(lines, s.line, n, Popped(s.below, indent));
      }
    }
  }

  /** A line is on the stack exactly while every line since is deeper than it. */
  lemma {:induction false} StackHoldsOpenLines<E>(lines: seq<Line<E>>, n: nat, k: nat)
    requires n <= |lines|
    ensures OfLines(lines, n, Before(lines, n))
    ensures On(Before(lines, n), k) <==> OpenUntil(lines, k, n)
  {
    if n > 0 {
      StackHoldsOpenLines(lines, n - 1, k);
      PoppedKeepsShallower(lines, n - 1, Before(lines, n - 1), lines[n - 1].indent, k);
    }
  }

  ghost function OnLines(s: Stack, n: nat): set<nat> {
    set k: nat | k < n && On(s, k)
  }

  /** The lines of a stack are as many as it is high. */
  lemma {:induction false} HeightCounts<E>(lines: seq<Line<E>>, n: nat, s: Stack)
    requires n <= |lines| && OfLines(lines, n, s)
    ensures |OnLines(s, n)| == Height(s)
    decreases s
  {
    if s.Bottom? {
      assert OnLines(s, n) == {};
    } else {
      HeightCounts(lines, s.line, s.below);
      var lower := OnLines(s.below, s.line);
      forall k: nat ensures k in OnLines(s, n) <==> k in lower + {s.line} {
        PoppedKeepsShallower(lines, s.line, s.below, 0, k);
      }
      assert OnLines(s, n) == lower + {s.line};
    }
  }

  lemma {:induction false} DepthFromStack<E>(lines: seq<Line<E>>, n: nat, j: nat)
    requires n <= j < |lines|
    ensures DepthsFrom(lines[n..], n, Before(lines, n))[j - n] ==
      Placed(lines[j], Height(Popped(Before(lines, j), lines[j].indent)))
    decreases |lines| - n
  {
    StepIs(lines, n, Before(lines, n));
    if j > n { DepthFromStack(lines, n + 1, j); }
  }

  ghost function Enclosers<E>(lines: seq<Line<E>>, j: nat): set<nat> {
    set i: nat | i < j && Encloses(lines, i, j)
  }

  /** Each line's depth is the number of lines that enclose it. */
  lemma DepthCountsEnclosingLines<E>(lines: seq<Line<E>>, j: nat)
    requires j < |lines|
    ensures Depths(lines)[j] == Placed(lines[j], |Enclosers(lines, j)|)
  {
    assert lines[0..] == lines;
    DepthFromStack(lines, 0, j);
    var s := Before(lines, j);
    var open := Popped(s, lines[j].indent);
    StackHoldsOpenLines(lines, j, 0);
    PoppedKeepsShallower(lines, j, s, lines[j].indent, 0);
    HeightCounts(lines, j, open);
    forall i: nat ensures i in OnLines(open, j) <==> i in Enclosers(lines, j) {
      StackHoldsOpenLines(lines, j, i);
      PoppedKeepsShallower(lines, j, s, lines[j].indent, i);
    }
    assert OnLines(open, j) == Enclosers(lines, j);
  }

  /** p is the nearest earlier line with a smaller indent. */
  predicate IsParent<E>(lines: seq<Line<E>>, p: nat, j: nat) {
    p < j < |lines| && lines[p].indent < lines[j].indent &&
    forall k :: p < k < j ==> lines[k].indent >= lines[j].indent
  }

  lemma ParentsEnclosers<E>(lines: seq<Line<E>>, p: nat, j: nat)
    requires IsParent(lines, p, j)
    ensures Enclosers(lines, j) == Enclosers(lines, p) + {p} && p !in Enclosers(lines, p)
  {
    forall i: nat ensures i in Enclosers(lines, j) <==> i in Enclosers(lines, p) + {p} {
      if i in Enclosers(lines, p) {
        assert lines[p].indent > lines[i].indent;
        forall k | i < k < j + 1 ensures lines[k].indent > lines[i].indent {
          if k > p { assert k == j || lines[k].indent >= lines[j].indent; }
        }
      }
      if i in Enclosers(lines, j) {
        assert lines[j].indent > lines[i].indent;
        assert i <= p;
        if i < p { assert OpenUntil(lines, i, p + 1); }
      }
      if i == p { assert OpenUntil(lines, p, j + 1); }
    }
    assert Enclosers(lines, j) == Enclosers(lines, p) + {p};
  }

  /** A line stands one level below its parent, and at the top without one. */
  lemma DepthIsOneBelowParent<E>(lines: seq<Line<E>>, j: nat)
    requires j < |lines|
    ensures forall p: nat :: IsParent(lines, p, j) ==> Depths(lines)[j].depth == Depths(lines)[p].depth + 1
    ensures (forall p :: 0 <= p < j ==> lines[p].indent >= lines[j].indent) ==> Depths(lines)[j].depth == 0
  {
    DepthCountsEnclosingLines(lines, j);
    forall p: nat | IsParent(lines, p, j) ensures Depths(lines)[j].depth == Depths(lines)[p].depth + 1 {
      DepthCountsEnclosingLines(lines, p);
      ParentsEnclosers(lines, p, j);
    }
    if forall p :: 0 <= p < j ==> lines[p].indent >= lines[j].indent {
      assert Enclosers(lines, j) == {};
    }
  }

  // ---- printed trees ---------------------------------------------------------

  /** The lines of a printed forest, in document order. */
  function Lines<E>(f: Forest<Line<E>>): seq<Line<E>> {
    if f.Empty? then [] else [f.elem] + Lines(f.kids) + Lines(f.next)
  }

  /**
   * Indentation that carries the nesting: children deeper than their parent by
   * any amount, and no sibling deeper than the one before it.
   */
  predicate WellIndented<E>(f: Forest<Line<E>>, floor: int, ceiling: Option<nat>) {
    f.Empty? ||
    (floor < f.elem.indent && (ceiling.Some? ==> f.elem.indent <= ceiling.value) &&
     WellIndented(f.kids, f.elem.indent, None) && WellIndented(f.next, floor, Some(f.elem.indent)))
  }

  function Top(s: Stack): int {
    if s.Push? then s.indent else -1
  }

  /** s is what is left of st when enough is popped. */
  predicate Extends(st: Stack, s: Stack) {
    st == s || (st.Push? && Extends(st.below, s))
  }

  /** The indent standing directly on s in st. */
  function Over(st: Stack, s: Stack): Option<nat>
    requires Extends(st, s)
  {
    if st == s then None else if st.below == s then Some(st.indent) else Over(st.below, s)
  }

  predicate Climbs(s: Stack) {
    s.Push? ==> Climbs(s.below) && Top(s.below) < s.indent
  }

  lemma {:induction false} ExtendsIsHigher(st: Stack, s: Stack)
    requires Extends(st, s) && Climbs(st)
    ensures Height(st) >= Height(s) && (Height(st) == Height(s) ==> st == s) && Climbs(s) && Top(s) <= Top(st)
    ensures Over(st, s).Some? ==> Top(s) < Over(st, s).value <= Top(st)
  {
    if st != s { ExtendsIsHigher(st.below, s); }
  }

  lemma {:induction false} PoppedIsLower(s: Stack, x: nat)
    requires Climbs(s)
    ensures Climbs(Popped(s, x)) && Top(Popped(s, x)) < x && Height(Popped(s, x)) <= Height(s)
    ensures Top(s) < x <==> Popped(s, x) == s
    ensures Top(s) >= x ==> Height(Popped(s, x)) < Height(s)
  {
    if s.Push? && x <= s.indent { PoppedIsLower(s.below, x); }
  }

  /** A line pops back to exactly s when it is deeper than s and no deeper than what stands on s. */
  lemma {:induction false} PopsBackExactlyWhen(st: Stack, s: Stack, x: nat)
    requires Extends(st, s) && Climbs(st)
    ensures Height(Popped(st, x)) == Height(s) <==> Top(s) < x && (Over(st, s).Some? ==> x <= Over(st, s).value)
    ensures Height(Popped(st, x)) == Height(s) ==> Popped(st, x) == s
  {
    ExtendsIsHigher(st, s);
    PoppedIsLower(st, x);
    if st != s {
      PopsBackExactlyWhen(st.below, s, x);
      ExtendsIsHigher(st.below, s);
    }
  }

  /** The indent of the last root of the forest. */
  function LastRoot<E>(f: Forest<Line<E>>, over: Option<nat>): Option<nat> {
    if f.Empty? then over else LastRoot(f.next, Some(f.elem.indent))
  }

  lemma HeadStep<E>(f: Forest<Line<E>>, n: nat, st: Stack, rest: seq<Line<E>>)
    requires f.Tree?
    ensures var open := Popped(st, f.elem.indent); var after := Lines(f.next) + rest;
      DepthsFrom(Lines(f) + rest, n, st) ==
        [Placed(f.elem, Height(open))] + DepthsFrom(Lines(f.kids) + after, n + 1, Push(n, f.elem.indent, open))
  {
    var tail := Lines(f.kids) + (Lines(f.next) + rest);
    assert Lines(f) + rest == [f.elem] + tail;
    assert ([f.elem] + tail)[1..] == tail;
  }

  /**
   * The loop, on a printed forest standing on s, gives every line its true
   * depth exactly when the forest is well indented, and leaves a stack on
   * which the forest's next sibling will stand.
   */
  lemma {:induction false} Recovers<E>(f: Forest<Line<E>>, s: Stack, n: nat, st: Stack, rest: seq<Line<E>>) returns (st': Stack)
    requires Extends(st, s) && Climbs(st)
    ensures WellIndented(f, Top(s), Over(st, s)) ==>
      Extends(st', s) && Climbs(st') && Over(st', s) == LastRoot(f, Over(st, s)) &&
      DepthsFrom(Lines(f) + rest, n, st) == Preorder(f, Height(s)) + DepthsFrom(rest, n + |Lines(f)|, st')
    ensures Preorder(f, Height(s)) <= DepthsFrom(Lines(f) + rest, n, st) ==> WellIndented(f, Top(s), Over(st, s))
    decreases f
  {
    hide DepthsFrom, Popped, Lines, Preorder;
    st' := st;
    if f.Empty? {
      RecoversNothing(s, n, st, rest);
    } else {
      var x := f.elem.indent;
      var after := Lines(f.next) + rest;
      var open := Popped(st, x);
      HeadStep(f, n, st, rest);
      PopsBackExactlyWhen(st, s, x);
      PreorderIs(f, Height(s));
      LinesAre(f);
      if Height(open) == Height(s) {
        var base := Push(n, x, s);
        PoppedIsLower(st, x);
        var st1 := Recovers(f.kids, base, n + 1, base, after);
        OverBase(st1, base, s);
        var kids := DepthsFrom(Lines(f.kids) + after, n + 1, base);
        if WellIndented(f.kids, x, None) {
          var st2 := Recovers(f.next, s, n + 1 + |Lines(f.kids)|, st1, rest);
          st' := st2;
          var next := DepthsFrom(after, n + 1 + |Lines(f.kids)|, st1);
          Splits(Placed(f.elem, Height(s)), Preorder(f.kids, Height(base)), Preorder(f.next, Height(s)), next);
          Joins(Placed(f.elem, Height(s)), Preorder(f.kids, Height(base)), Preorder(f.next, Height(s)),
                DepthsFrom(rest, n + |Lines(f)|, st2));
        } else {
          Prefix(Placed(f.elem, Height(s)), Preorder(f.kids, Height(base)), Preorder(f.next, Height(s)), kids);
        }
      } else {
        Prefix0(Placed(f.elem, Height(s)), Preorder(f.kids, Height(s) + 1) , Preorder(f.next, Height(s)),
                Placed(f.elem, Height(open)), DepthsFrom(Lines(f.kids) + after, n + 1, Push(n, x, open)));
      }
    }
  }

  lemma RecoversNothing<E>(s: Stack, n: nat, st: Stack, rest: seq<Line<E>>)
    ensures Lines<E>(Empty) == [] && [] + rest == rest && Preorder<Line<E>>(Empty, Height(s)) == []
    ensures [] + DepthsFrom(rest, n, st) == DepthsFrom(rest, n, st)
  {
  }

  lemma LinesAre<E>(f: Forest<Line<E>>)
    requires f.Tree?
    ensures |Lines(f)| == 1 + |Lines(f.kids)| + |Lines(f.next)|
  {
  }

  lemma {:induction false} OverBase(st: Stack, base: Stack, s: Stack)
    requires base.Push? && base.below == s && Climbs(base)
    ensures Extends(st, base) && Climbs(st) ==> Extends(st, s) && Over(st, s) == Some(base.indent)
  {
    if Extends(st, base) && Climbs(st) {
      ExtendsIsHigher(st, base);
      if st != base {
        ExtendsIsHigher(st.below, base);
        OverBase(st.below, base, s);
      }
    }
  }

  // Four facts about a root's entry a, its children's b, and what follows.

  lemma Splits<T>(a: T, b: seq<T>, c: seq<T>, d: seq<T>)
    ensures [a] + b + c <= [a] + (b + d) ==> c <= d
  {
    if [a] + b + c <= [a] + (b + d) {
      assert forall i :: 0 <= i < |c| ==> ([a] + b + c)[1 + |b| + i] == c[i];
      assert forall i :: 0 <= i < |c| ==> ([a] + (b + d))[1 + |b| + i] == d[i];
    }
  }

  lemma Joins<T>(a: T, b: seq<T>, c: seq<T>, d: seq<T>)
    ensures [a] + b + c + d == [a] + (b + (c + d))
  {
  }

  lemma Prefix<T>(a: T, b: seq<T>, c: seq<T>, d: seq<T>)
    ensures [a] + b + c <= [a] + d ==> b <= d
  {
    if [a] + b + c <= [a] + d {
      assert forall i :: 0 <= i < |b| ==> ([a] + b + c)[1 + i] == b[i];
      assert forall i :: 0 <= i < |d| ==> ([a] + d)[1 + i] == d[i];
    }
  }

  lemma Prefix0<T>(a: T, b: seq<T>, c: seq<T>, a': T, d: seq<T>)
    requires a != a'
    ensures !([a] + b + c <= [a'] + d)
  {
    assert ([a] + b + c)[0] == a && ([a'] + d)[0] == a';
  }

  /** The parser recovers a printed tree exactly when its indentation carries the nesting. */
  lemma IndentationIsRecoveredExactlyWhen<E>(f: Forest<Line<E>>)
    ensures Depths(Lines(f)) == Preorder(f, 0) <==> WellIndented(f, -1, None)
  {
    var st' := Recovers(f, Bottom, 0, Bottom, []);
    assert Lines(f) + [] == Lines(f);
    if WellIndented(f, -1, None) {
      assert Preorder(f, 0) + DepthsFrom([], |Lines(f)|, st') == Preorder(f, 0);
    }
  }
}
