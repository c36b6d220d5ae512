// Transactions: withTransaction of collector/src/db.ts on a SQLite savepoint
// stack, against the semantics a caller expects of it.
//
// Handles are positions in conns; position 0 is the module's own database, the
// others are handles a caller began for itself.  The depth counter is one for
// all of them, as it is in the source.

module Transactions {

  type Data = map<string, string>

  // ---- SQLite ----------------------------------------------------------------

  /** What one open BEGIN or SAVEPOINT would roll back to. */
  datatype Frame = Begun(before: Data) | Saved(name: int, before: Data)

  datatype Conn = Open(data: Data, stack: seq<Frame>) | Shut(data: Data)

  datatype Statement =
    | Begin | Commit | Rollback
    | Savepoint(name: int) | Release(name: int) | RollbackTo(name: int)

  /** The newest savepoint of this name, counting from the bottom, or -1. */
  function LastNamed(stack: seq<Frame>, name: int): (i: int)
    ensures -1 <= i < |stack|
    ensures i >= 0 ==> stack[i].Saved? && stack[i].name == name
  {
    if stack == [] then -1
    else
      var top := stack[|stack| - 1];
      if top.Saved? && top.name == name then |stack| - 1 else LastNamed(stack[..|stack| - 1], name)
  }

  datatype Executed = Executed(conn: Conn, ok: bool)

  /** One statement; a statement that fails changes nothing. */
  function Exec(c: Conn, s: Statement): Executed {
    if c.Shut? then Executed(c, false)
    else
      var refused := Executed(c, false);
      match s
      case Begin => if c.stack == [] then Executed(c.(stack := [Begun(c.data)]), true) else refused
      case Commit => if c.stack == [] then refused else Executed(c.(stack := []), true)
      case Rollback => if c.stack == [] then refused else Executed(Open(c.stack[0].before, []), true)
      case Savepoint(n) => Executed(c.(stack := c.stack + [Saved(n, c.data)]), true)
      case Release(n) =>
        var i := LastNamed(c.stack, n);
        if i < 0 then refused else Executed(c.(stack := c.stack[..i]), true)
      case RollbackTo(n) =>
        var i := LastNamed(c.stack, n);
        if i < 0 then refused else Executed(Open(c.stack[i].before, c.stack[..i + 1]), true)
  }

  // ---- programs --------------------------------------------------------------

  /** How the statements of one withTransaction call go: opening, committing, cleaning up. */
  datatype Fate = Fate(openFails: bool, closeFails: bool, undoFails: bool)

  datatype Error = SqlError | Thrown(code: int)

  datatype Act =
    | Put(h: nat, key: string, value: string)
    | Throw(code: int)
    | Transact(h: nat, body: Body, fate: Fate)
    | Attempt(tried: Body)                     // try { tried } catch {}
    | IfSet(h: nat, key: string, yes: Body, no: Body)
    | CloseDb

  datatype Body = Done | Do(act: Act, rest: Body)

  datatype Outcome = Finished | Failed(error: Error)

  // ---- what the code does ----------------------------------------------------

  datatype Machine = Machine(conns: seq<Conn>, depth: int)

  /** A run: where it ends, how, whether closeDb closed anything, and every machine it stood in on the way. */
  datatype Ran = Ran(m: Machine, out: Outcome, closed: bool, trace: seq<Machine>)

  predicate IsOpen(m: Machine, h: nat) {
    h < |m.conns| && m.conns[h].Open?
  }

  function ExecOn(m: Machine, h: nat, s: Statement, fails: bool): (r: (Machine, bool))
    ensures |r.0.conns| == |m.conns| && r.0.depth == m.depth
    ensures !r.1 ==> r.0 == m
  {
    if h >= |m.conns| || fails then (m, false)
    else
      var e := Exec(m.conns[h], s);
      if e.ok then (m.(conns := m.conns[h := e.conn]), true) else (m, false)
  }

  /** The catch block: undo, and never let a failed undo replace the error. */
  function CleanUp(m: Machine, h: nat, nested: bool, name: int, fails: bool): (m': Machine)
    ensures m'.depth == m.depth && |m'.conns| == |m.conns|
  {
    if !nested then ExecOn(m, h, Rollback, fails).0
    else
      var back := ExecOn(m, h, RollbackTo(name), fails);
      if back.1 then ExecOn(back.0, h, Release(name), false).0 else back.0
  }

  function Run(m: Machine, b: Body): Ran
    decreases b
  {
    match b
    case Done => Ran(m, Finished, false, [m])
    case Do(act, rest) =>
      var first := RunAct(m, act);
      if first.out.Failed? then first.(trace := [m] + first.trace)
      else
        var after := Run(first.m, rest);
        Ran(after.m, after.out, first.closed || after.closed, [m] + first.trace + after.trace)
  }

  function RunAct(m: Machine, a: Act): Ran
    decreases a
  {
    match a
    case Put(h, key, value) =>
      if IsOpen(m, h)
      then Ran(m.(conns := m.conns[h := m.conns[h].(data := m.conns[h].data[key := value])]), Finished, false, [])
      else Ran(m, Failed(SqlError), false, [])
    case Throw(code) => Ran(m, Failed(Thrown(code)), false, [])
    case Attempt(tried) => Run(m, tried).(out := Finished)
    case IfSet(h, key, yes, no) =>
      if !IsOpen(m, h) then Ran(m, Failed(SqlError), false, [])
      else if key in m.conns[h].data then Run(m, yes) else Run(m, no)
    case CloseDb =>
      if IsOpen(m, 0)
      then Ran(Machine(m.conns[0 := Shut(Committed(m.conns[0]))], 0), Finished, true, [])
      else Ran(m, Finished, false, [])
    case Transact(h, body, fate) =>
      var nested := m.depth > 0;
      var name := m.depth;
      var began := ExecOn(m, h, if nested then Savepoint(name) else Begin, fate.openFails);
      if !began.1 then Ran(m, Failed(SqlError), false, [])
      else
        var ran := Run(began.0.(depth := m.depth + 1), body);
        var closing := ExecOn(ran.m, h, if nested then Release(name) else Commit, fate.closeFails);
        if ran.out.Finished? && closing.1 then ran.(m := closing.0.(depth := closing.0.depth - 1))
        else
          var undone := CleanUp(ran.m, h, nested, name, fate.undoFails);
          ran.(m := undone.(depth := undone.depth - 1),
               out := if ran.out.Failed? then ran.out else Failed(SqlError))
  }

  /** What closing a connection leaves in its file: the open transaction is gone. */
  function Committed(c: Conn): Data {
    if c.Open? && c.stack != [] then c.stack[0].before else c.data
  }

  // ---- what a caller expects -------------------------------------------------

  datatype Expected = Expected(data: seq<Data>, out: Outcome)

  /** A transaction whose body throws, or which cannot commit, leaves no trace in its database. */
  function Expect(d: seq<Data>, b: Body): (r: Expected)
    ensures |r.data| == |d|
    decreases b
  {
    match b
    case Done => Expected(d, Finished)
    case Do(act, rest) =>
      var first := ExpectAct(d, act);
      if first.out.Failed? then first else Expect(first.data, rest)
  }

  function ExpectAct(d: seq<Data>, a: Act): (r: Expected)
    ensures |r.data| == |d|
    decreases a
  {
    match a
    case Put(h, key, value) =>
      if h < |d| then Expected(d[h := d[h][key := value]], Finished) else Expected(d, Failed(SqlError))
    case Throw(code) => Expected(d, Failed(Thrown(code)))
    case Attempt(tried) => Expect(d, tried).(out := Finished)
    case IfSet(h, key, yes, no) =>
      if h >= |d| then Expected(d, Failed(SqlError))
      else if key in d[h] then Expect(d, yes) else Expect(d, no)
    case CloseDb => Expected(d, Finished)
    case Transact(h, body, fate) =>
      if h >= |d| || fate.openFails then Expected(d, Failed(SqlError))
      else
        var r := Expect(d, body);
        if r.out.Finished? && !fate.closeFails then r
        else Expected(r.data[h := d[h]], if r.out.Failed? then r.out else Failed(SqlError))
  }

  // ---- the counter and the stacks --------------------------------------------

  function Height(c: Conn): nat {
    if c.Open? then |c.stack| else 0
  }

  /** Open frames over all the handles. */
  function Heights(conns: seq<Conn>): nat {
    if conns == [] then 0 else Height(conns[0]) + Heights(conns[1..])
  }

  /** The counter is the number of open frames, and every handle is open. */
  ghost predicate Balanced(m: Machine) {
    m.depth == Heights(m.conns) && forall h :: 0 <= h < |m.conns| ==> m.conns[h].Open?
  }

  function DataOf(conns: seq<Conn>): (d: seq<Data>)
    ensures |d| == |conns|
    ensures forall h :: 0 <= h < |conns| ==> d[h] == conns[h].data
  {
    seq(|conns|, h requires 0 <= h < |conns| => conns[h].data)
  }

  /** No handle's frames have changed. */
  ghost predicate SameStacks(a: seq<Conn>, b: seq<Conn>) {
    |a| == |b| && forall h :: 0 <= h < |a| ==> a[h].Open? && b[h].Open? && a[h].stack == b[h].stack
  }

  /** No cleanup of the program fails. */
  predicate CleansUp(b: Body) {
    match b
    case Done => true
    case Do(act, rest) => CleansUpAct(act) && CleansUp(rest)
  }

  predicate CleansUpAct(a: Act) {
    match a
    case Transact(_, body, fate) => !fate.undoFails && CleansUp(body)
    case Attempt(tried) => CleansUp(tried)
    case IfSet(_, _, yes, no) => CleansUp(yes) && CleansUp(no)
    case _ => true
  }

  /** As a caller expects the program to go, it comes to a closeDb while the database is open. */
  predicate Closes(d: seq<Data>, b: Body)
    decreases b
  {
    match b
    case Done => false
    case Do(act, rest) => ClosesAct(d, act) || (ExpectAct(d, act).out.Finished? && Closes(ExpectAct(d, act).data, rest))
  }

  predicate ClosesAct(d: seq<Data>, a: Act)
    decreases a
  {
    match a
    case Put(_, _, _) => false
    case Throw(_) => false
    case Attempt(tried) => Closes(d, tried)
    case IfSet(h, key, yes, no) => h < |d| && if key in d[h] then Closes(d, yes) else Closes(d, no)
    case CloseDb => d != []
    case Transact(h, body, fate) => h < |d| && !fate.openFails && Closes(d, body)
  }

  lemma {:induction false} HeightsUpdate(conns: seq<Conn>, h: nat, c: Conn)
    requires h < |conns|
    ensures Heights(conns[h := c]) == Heights(conns) - Height(conns[h]) + Height(c)
  {
    if h == 0 {
      assert conns[h := c][1..] == conns[1..];
    } else {
      HeightsUpdate(conns[1..], h - 1, c);
      assert conns[h := c][1..] == conns[1..][h - 1 := c];
    }
  }

  lemma {:induction false} HeightsSame(a: seq<Conn>, b: seq<Conn>)
    requires SameStacks(a, b)
    ensures Heights(a) == Heights(b)
  {
    if a != [] {
      assert SameStacks(a[1..], b[1..]);
      HeightsSame(a[1..], b[1..]);
    }
  }

  lemma {:induction false} HeightWithin(conns: seq<Conn>, h: nat)
    requires h < |conns|
    ensures Height(conns[h]) <= Heights(conns)
  {
    if h > 0 { HeightWithin(conns[1..], h - 1); }
  }

  // ---- one transaction's statements ------------------------------------------

  /** The frame withTransaction pushes at this depth. */
  function FrameAt(depth: int, before: Data): Frame {
    if depth > 0 then Saved(depth, before) else Begun(before)
  }

  function OpenedBy(m: Machine, h: nat): Machine
    requires IsOpen(m, h)
  {
    var c := m.conns[h];
    Machine(m.conns[h := c.(stack := c.stack + [FrameAt(m.depth, c.data)])], m.depth + 1)
  }

  /** BEGIN at depth 0 and SAVEPOINT above it are always accepted, and push one frame. */
  lemma Opens(m: Machine, h: nat)
    requires Balanced(m) && h < |m.conns|
    ensures ExecOn(m, h, if m.depth > 0 then Savepoint(m.depth) else Begin, false) == (OpenedBy(m, h).(depth := m.depth), true)
    ensures Balanced(OpenedBy(m, h))
  {
    HeightWithin(m.conns, h);
    var c := m.conns[h];
    assert m.depth == 0 ==> c.stack == [] && [] + [Begun(c.data)] == [Begun(c.data)];
    HeightsUpdate(m.conns, h, c.(stack := c.stack + [FrameAt(m.depth, c.data)]));
  }

  /** With the transaction's own frame on top, its COMMIT or RELEASE pops exactly that frame. */
  lemma PopsItsFrame(m: Machine, h: nat, stack: seq<Frame>, depth: int, before: Data)
    requires h < |m.conns| && m.conns[h].Open? && m.conns[h].stack == stack + [FrameAt(depth, before)]
    requires depth <= 0 ==> stack == []
    ensures ExecOn(m, h, if depth > 0 then Release(depth) else Commit, false) ==
      (m.(conns := m.conns[h := m.conns[h].(stack := stack)]), true)
  {
    var full := stack + [FrameAt(depth, before)];
    assert full[..|full| - 1] == stack;
  }

  /** The same frame on top, the catch block restores what the frame remembered and pops it. */
  lemma Undoes(m: Machine, h: nat, stack: seq<Frame>, depth: int, before: Data)
    requires h < |m.conns| && m.conns[h].Open? && m.conns[h].stack == stack + [FrameAt(depth, before)]
    requires depth <= 0 ==> stack == []
    ensures CleanUp(m, h, depth > 0, depth, false) == m.(conns := m.conns[h := Open(before, stack)])
  {
    var full := stack + [FrameAt(depth, before)];
    assert full[..|full| - 1] == stack;
    assert full[..|full| - 1 + 1] == full;
    if depth > 0 {
      var back := m.(conns := m.conns[h := Open(before, full)]);
      assert ExecOn(m, h, RollbackTo(depth), false) == (back, true);
      PopsItsFrame(back, h, stack, depth, before);
      assert back.conns[h := Open(before, stack)] == m.conns[h := Open(before, stack)];
    } else {
      assert full == [FrameAt(depth, before)];
    }
  }

  // ---- refinement ------------------------------------------------------------

  /** A run ended as expected, with every stack and the counter as they were, and balanced throughout. */
  ghost predicate Meets(m: Machine, r: Ran, e: Expected) {
    r.out == e.out && DataOf(r.m.conns) == e.data && !r.closed &&
    r.m.depth == m.depth && SameStacks(m.conns, r.m.conns) &&
    forall x :: x in r.trace ==> Balanced(x)
  }

  lemma MeetsStaysBalanced(m: Machine, r: Ran, e: Expected)
    requires Balanced(m) && Meets(m, r, e)
    ensures Balanced(r.m)
  {
    HeightsSame(m.conns, r.m.conns);
  }

  /** The state a transaction ends in once its own frame is gone. */
  lemma Settled(m: Machine, ran: Machine, end: Machine, h: nat, data: Data)
    requires Balanced(m) && h < |m.conns| && SameStacks(OpenedBy(m, h).conns, ran.conns)
    requires ran.depth == m.depth + 1 && end.depth == m.depth
    requires end.conns == ran.conns[h := Open(data, m.conns[h].stack)]
    ensures SameStacks(m.conns, end.conns)
    ensures DataOf(end.conns) == DataOf(ran.conns)[h := data]
  {
    assert OpenedBy(m, h).conns[h].Open?;
  }

  lemma TransactMeets(m: Machine, h: nat, body: Body, fate: Fate)
    requires Balanced(m) && h < |m.conns| && !fate.openFails && !fate.undoFails
    requires Meets(OpenedBy(m, h), Run(OpenedBy(m, h), body), Expect(DataOf(m.conns), body))
    ensures Meets(m, RunAct(m, Transact(h, body, fate)), ExpectAct(DataOf(m.conns), Transact(h, body, fate)))
  {
    var a := Transact(h, body, fate);
    var ran := Run(OpenedBy(m, h), body);
    var c := m.conns[h];
    HeightWithin(m.conns, h);
    Opens(m, h);
    assert ran.m.conns[h].stack == c.stack + [FrameAt(m.depth, c.data)];
    var end := RunAct(m, a).m;
    if ran.out.Finished? && !fate.closeFails {
      PopsItsFrame(ran.m, h, c.stack, m.depth, c.data);
      Settled(m, ran.m, end, h, ran.m.conns[h].data);
      assert DataOf(ran.m.conns)[h := ran.m.conns[h].data] == DataOf(ran.m.conns);
    } else {
      Undoes(ran.m, h, c.stack, m.depth, c.data);
      Settled(m, ran.m, end, h, c.data);
    }
  }

  lemma OpenedIsReady(m: Machine, h: nat)
    requires Balanced(m) && h < |m.conns|
    ensures Balanced(OpenedBy(m, h)) && DataOf(OpenedBy(m, h).conns) == DataOf(m.conns)
  {
    Opens(m, h);
  }

  lemma PutRefines(m: Machine, h: nat, key: string, value: string)
    requires Balanced(m)
    ensures Meets(m, RunAct(m, Put(h, key, value)), ExpectAct(DataOf(m.conns), Put(h, key, value)))
  {
    if h < |m.conns| {
      var a := Put(h, key, value);
      assert DataOf(RunAct(m, a).m.conns) == DataOf(m.conns)[h := m.conns[h].data[key := value]];
    }
  }

  lemma RefusedRefines(m: Machine, h: nat, body: Body, fate: Fate)
    requires Balanced(m) && (h >= |m.conns| || fate.openFails)
    ensures Meets(m, RunAct(m, Transact(h, body, fate)), ExpectAct(DataOf(m.conns), Transact(h, body, fate)))
  {
  }

  lemma {:induction false} ActRefines(m: Machine, a: Act)
    requires Balanced(m) && CleansUpAct(a) && !ClosesAct(DataOf(m.conns), a)
    ensures Meets(m, RunAct(m, a), ExpectAct(DataOf(m.conns), a))
    decreases a, 0
  {
    hide Heights, OpenedBy, CleanUp, ExecOn;
    match a
    case Put(h, key, value) => PutRefines(m, h, key, value);
    case Throw(_) =>
    case CloseDb =>
    case Attempt(tried) => TransactionsRefine(m, tried);
    case IfSet(h, key, yes, no) =>
      if h < |m.conns| {
        if key in m.conns[h].data { TransactionsRefine(m, yes); } else { TransactionsRefine(m, no); }
      }
    case Transact(h, body, fate) =>
      if h < |m.conns| && !fate.openFails {
        OpenedIsReady(m, h);
        TransactionsRefine(OpenedBy(m, h), body);
        TransactMeets(m, h, body, fate);
      } else {
        RefusedRefines(m, h, body, fate);
      }
  }

  /**
   * For every tree of nested transactions over any number of handles, with
   * writes, throws, caught throws and failing BEGIN, COMMIT and RELEASE, that
   * does not come to close the open database, the code ends in the state and
   * with the outcome a caller expects, every stack is as it was, and the counter
   * is the number of open frames at every step.
   */
  lemma {:induction false} TransactionsRefine(m: Machine, b: Body)
    requires Balanced(m) && CleansUp(b) && !Closes(DataOf(m.conns), b)
    ensures Meets(m, Run(m, b), Expect(DataOf(m.conns), b))
    decreases b, 1
  {
    if b.Do? {
      ActRefines(m, b.act);
      var first := RunAct(m, b.act);
      var e := ExpectAct(DataOf(m.conns), b.act);
      if first.out.Finished? {
        MeetsStaysBalanced(m, first, e);
        TransactionsRefine(first.m, b.rest);
      }
    }
  }

  /** A transaction that ends in an error leaves its own database as it found it. */
  lemma ThrowLeavesNoTrace(m: Machine, h: nat, body: Body, fate: Fate)
    requires Balanced(m) && h < |m.conns| && CleansUpAct(Transact(h, body, fate)) && !Closes(DataOf(m.conns), body)
    ensures var r := RunAct(m, Transact(h, body, fate));
      |r.m.conns| == |m.conns| && (r.out.Failed? ==> r.m.conns[h] == m.conns[h])
  {
    var a := Transact(h, body, fate);
    ActRefines(m, a);
    var e := ExpectAct(DataOf(m.conns), a);
    assert e.out.Failed? ==> e.data[h] == m.conns[h].data;
    assert DataOf(RunAct(m, a).m.conns)[h] == RunAct(m, a).m.conns[h].data;
  }

  // ---- the counter and closeDb -----------------------------------------------

  /** Whatever fails, a run that closes nothing leaves the counter alone; one that does leaves it at 0 or below. */
  lemma {:induction false} CounterAfter(m: Machine, b: Body)
    ensures var r := Run(m, b); if r.closed then r.m.depth <= 0 else r.m.depth == m.depth
    decreases b, 1
  {
    if b.Do? {
      CounterAfterAct(m, b.act);
      if RunAct(m, b.act).out.Finished? { CounterAfter(RunAct(m, b.act).m, b.rest); }
    }
  }

  lemma {:induction false} CounterAfterAct(m: Machine, a: Act)
    ensures var r := RunAct(m, a); if r.closed then r.m.depth <= 0 else r.m.depth == m.depth
    ensures var r := RunAct(m, a); a.Transact? && r.closed ==> r.m.depth < 0
    decreases a, 0
  {
    match a
    case Put(_, _, _) =>
    case Throw(_) =>
    case Attempt(tried) => CounterAfter(m, tried);
    case IfSet(h, key, yes, no) =>
      CounterAfter(m, yes);
      CounterAfter(m, no);
    case CloseDb =>
    case Transact(h, body, fate) =>
      var began := ExecOn(m, h, if m.depth > 0 then Savepoint(m.depth) else Begin, fate.openFails);
      CounterAfter(began.0.(depth := m.depth + 1), body);
  }

  lemma CloseIsSeen(m: Machine, h: nat, body: Body, fate: Fate)
    requires Balanced(m) && h < |m.conns| && !fate.openFails
    ensures RunAct(m, Transact(h, body, fate)).closed == Run(OpenedBy(m, h), body).closed
  {
    hide Run, CleanUp;
    Opens(m, h);
  }

  lemma {:induction false} ActClosesExactlyWhenExpected(m: Machine, a: Act)
    requires Balanced(m) && CleansUpAct(a)
    ensures RunAct(m, a).closed <==> ClosesAct(DataOf(m.conns), a)
    decreases a, 0
  {
    if !ClosesAct(DataOf(m.conns), a) {
      ActRefines(m, a);
    } else {
      match a
      case Attempt(tried) => ClosesExactlyWhenExpected(m, tried);
      case IfSet(h, key, yes, no) =>
        ClosesExactlyWhenExpected(m, yes);
        ClosesExactlyWhenExpected(m, no);
      case CloseDb =>
      case Transact(h, body, fate) =>
        Opens(m, h);
        assert DataOf(OpenedBy(m, h).conns) == DataOf(m.conns);
        ClosesExactlyWhenExpected(OpenedBy(m, h), body);
        CloseIsSeen(m, h, body, fate);
    }
  }

  /** A program closes the database exactly when, as a caller expects it to go, it comes to a closeDb. */
  lemma {:induction false} ClosesExactlyWhenExpected(m: Machine, b: Body)
    requires Balanced(m) && CleansUp(b)
    ensures Run(m, b).closed <==> Closes(DataOf(m.conns), b)
    decreases b, 1
  {
    if b.Do? {
      ActClosesExactlyWhenExpected(m, b.act);
      if !ClosesAct(DataOf(m.conns), b.act) {
        ActRefines(m, b.act);
        var first := RunAct(m, b.act);
        MeetsStaysBalanced(m, first, ExpectAct(DataOf(m.conns), b.act));
        if first.out.Finished? { ClosesExactlyWhenExpected(first.m, b.rest); }
      }
    }
  }

  /** The counter returns to its starting value exactly when the transaction does not come to a closeDb of the open database. */
  lemma CounterReturnsExactlyWhenNothingCloses(m: Machine, h: nat, body: Body, fate: Fate)
    requires Balanced(m) && CleansUpAct(Transact(h, body, fate))
    ensures RunAct(m, Transact(h, body, fate)).m.depth == m.depth <==>
      !ClosesAct(DataOf(m.conns), Transact(h, body, fate))
  {
    ActClosesExactlyWhenExpected(m, Transact(h, body, fate));
    CounterAfterAct(m, Transact(h, body, fate));
  }

  /** With cleanups that fail it still returns, if the program has no closeDb to come to. */
  lemma {:induction false} NothingClosesWithoutCloseDb(m: Machine, b: Body)
    requires NeverCloses(b)
    ensures !Run(m, b).closed && Run(m, b).m.depth == m.depth
    decreases b, 1
  {
    CounterAfter(m, b);
    if b.Do? {
      NoActClosesWithoutCloseDb(m, b.act);
      if RunAct(m, b.act).out.Finished? { NothingClosesWithoutCloseDb(RunAct(m, b.act).m, b.rest); }
    }
  }

  lemma {:induction false} NoActClosesWithoutCloseDb(m: Machine, a: Act)
    requires NeverClosesAct(a)
    ensures !RunAct(m, a).closed && RunAct(m, a).m.depth == m.depth
    decreases a, 0
  {
    CounterAfterAct(m, a);
    match a
    case Put(_, _, _) =>
    case Throw(_) =>
    case Attempt(tried) => NothingClosesWithoutCloseDb(m, tried);
    case IfSet(h, key, yes, no) =>
      NothingClosesWithoutCloseDb(m, yes);
      NothingClosesWithoutCloseDb(m, no);
    case Transact(h, body, fate) =>
      var began := ExecOn(m, h, if m.depth > 0 then Savepoint(m.depth) else Begin, fate.openFails);
      NothingClosesWithoutCloseDb(began.0.(depth := m.depth + 1), body);
  }

  /** The program holds no closeDb at all. */
  predicate NeverCloses(b: Body) {
    match b
    case Done => true
    case Do(act, rest) => NeverClosesAct(act) && NeverCloses(rest)
  }

  predicate NeverClosesAct(a: Act) {
    match a
    case Transact(_, body, _) => NeverCloses(body)
    case Attempt(tried) => NeverCloses(tried)
    case IfSet(_, _, yes, no) => NeverCloses(yes) && NeverCloses(no)
    case CloseDb => false
    case _ => true
  }

  /** After a closeDb inside a transaction the counter is -1, and from then on no transaction can hold another. */
  lemma ClosingInsideLeavesTheCounterShort(data: Data, own: Data)
    ensures var m := Machine([Open(data, []), Open(own, [])], 0);
      var r := RunAct(m, Transact(0, Do(CloseDb, Done), Fate(false, false, false)));
      r.m == Machine([Shut(data), Open(own, [])], -1) && r.out == Failed(SqlError)
  {
    var m := Machine([Open(data, []), Open(own, [])], 0);
    var body := Do(CloseDb, Done);
    var m1 := Machine([Open(data, [Begun(data)]), Open(own, [])], 1);
    var m2 := Machine([Shut(data), Open(own, [])], 0);
    assert m.conns[0 := Open(data, [Begun(data)])] == m1.conns;
    assert m1.conns[0 := Shut(data)] == m2.conns;
    assert RunAct(m1, CloseDb).m == m2;
    assert Run(m1, body).m == m2 && Run(m1, body).out == Finished;
    assert ExecOn(m2, 0, Commit, false) == (m2, false);
  }

  lemma NestingFailsFromAShortCounter(m: Machine, h: nat, inner: Body, f: Fate, rest: Body, fate: Fate)
    requires m.depth == -1 && IsOpen(m, h)
    ensures RunAct(m, Transact(h, Do(Transact(h, inner, f), rest), fate)).out == Failed(SqlError)
  {
    var began := ExecOn(m, h, Begin, fate.openFails);
    if began.1 {
      var m1 := began.0.(depth := 0);
      assert m1.conns[h].stack != [];
      assert !ExecOn(m1, h, Begin, f.openFails).1;
      assert RunAct(m1, Transact(h, inner, f)).out == Failed(SqlError);
    }
  }

  // ---- a cleanup that fails --------------------------------------------------

  /** What a caller can tell beforehand: this transaction's cleanup fails, and it will be needed. */
  predicate FailsToUndo(d: seq<Data>, body: Body, fate: Fate) {
    fate.undoFails && (fate.closeFails || Expect(d, body).out.Failed?)
  }

  /** What the body leaves when it ends, before the transaction closes or cleans up. */
  lemma BodyLeaves(m: Machine, h: nat, body: Body) returns (ran: Ran)
    requires Balanced(m) && h < |m.conns| && CleansUp(body) && !Closes(DataOf(m.conns), body)
    ensures ran == Run(OpenedBy(m, h), body) && Meets(OpenedBy(m, h), ran, Expect(DataOf(m.conns), body))
    ensures |ran.m.conns| == |m.conns| && ran.m.conns[h].Open?
    ensures ran.m.conns[h].stack == m.conns[h].stack + [FrameAt(m.depth, m.conns[h].data)]
  {
    hide Run, CleansUp, Closes, Expect;
    OpenedIsReady(m, h);
    TransactionsRefine(OpenedBy(m, h), body);
    ran := Run(OpenedBy(m, h), body);
  }

  /** Where the transaction ends when its cleanup fails and was needed: where its body left off, one frame too high. */
  lemma LeftAsTheBodyEnded(m: Machine, h: nat, body: Body, fate: Fate)
    requires Balanced(m) && h < |m.conns| && !fate.openFails && FailsToUndo(DataOf(m.conns), body, fate)
    requires CleansUp(body) && !Closes(DataOf(m.conns), body)
    ensures RunAct(m, Transact(h, body, fate)).m == Run(OpenedBy(m, h), body).m.(depth := m.depth)
    ensures RunAct(m, Transact(h, body, fate)).out == ExpectAct(DataOf(m.conns), Transact(h, body, fate)).out
  {
    hide Run, CleansUp, Closes, Expect, Heights;
    Opens(m, h);
    var ran := BodyLeaves(m, h, body);
  }

  lemma UnclosedIsUnbalanced(m: Machine, h: nat, end: Machine)
    requires Balanced(m) && h < |m.conns| && SameStacks(OpenedBy(m, h).conns, end.conns) && end.depth == m.depth
    ensures !Balanced(end) && Height(end.conns[h]) == Height(m.conns[h]) + 1
  {
    HeightsSame(OpenedBy(m, h).conns, end.conns);
    Opens(m, h);
  }

  /** A cleanup that works, or is not needed, changes nothing for this transaction. */
  lemma OtherwiseItMeets(m: Machine, h: nat, body: Body, fate: Fate)
    requires Balanced(m) && h < |m.conns| && !fate.openFails && !FailsToUndo(DataOf(m.conns), body, fate)
    requires CleansUp(body) && !Closes(DataOf(m.conns), body)
    ensures Meets(m, RunAct(m, Transact(h, body, fate)), ExpectAct(DataOf(m.conns), Transact(h, body, fate)))
  {
    hide CleansUp, Closes, Heights, Balanced;
    OpenedIsReady(m, h);
    var ran := BodyLeaves(m, h, body);
    Opens(m, h);
    var f := fate.(undoFails := false);
    TransactMeets(m, h, body, f);
    SameWithoutUndo(m, h, body, fate);
  }

  lemma SameWithoutUndo(m: Machine, h: nat, body: Body, fate: Fate)
    requires Balanced(m) && h < |m.conns| && !fate.openFails && !FailsToUndo(DataOf(m.conns), body, fate)
    requires CleansUp(body) && !Closes(DataOf(m.conns), body)
    ensures var f := fate.(undoFails := false);
      RunAct(m, Transact(h, body, fate)) == RunAct(m, Transact(h, body, f)) &&
      ExpectAct(DataOf(m.conns), Transact(h, body, fate)) == ExpectAct(DataOf(m.conns), Transact(h, body, f))
  {
    hide Run, CleansUp, Closes, Expect, Heights;
    Opens(m, h);
    var ran := BodyLeaves(m, h, body);
    if fate.undoFails {
      HeightWithin(m.conns, h);
      PopsItsFrame(ran.m, h, m.conns[h].stack, m.depth, m.conns[h].data);
    }
  }

  /** A failed ROLLBACK or ROLLBACK TO never masks the error that caused it, nor makes one. */
  lemma CleanupFailureKeepsTheOutcome(m: Machine, h: nat, body: Body, fate: Fate)
    requires Balanced(m) && h < |m.conns| && CleansUp(body) && !Closes(DataOf(m.conns), body)
    ensures RunAct(m, Transact(h, body, fate)).out == ExpectAct(DataOf(m.conns), Transact(h, body, fate)).out
  {
    hide Run, RunAct, ExpectAct, CleansUp, Closes, Expect, Balanced;
    if fate.openFails {
      RefusedRefines(m, h, body, fate);
    } else if FailsToUndo(DataOf(m.conns), body, fate) {
      LeftAsTheBodyEnded(m, h, body, fate);
    } else {
      OtherwiseItMeets(m, h, body, fate);
    }
  }

  /**
   * A failed cleanup unbalances the counter, at any depth, exactly when the body
   * was going to throw or the transaction could not close: then the frame stays,
   * and with it what the body wrote.
   */
  lemma CleanupFailureUnbalancesExactlyWhen(m: Machine, h: nat, body: Body, fate: Fate)
    requires Balanced(m) && h < |m.conns| && !fate.openFails
    requires CleansUp(body) && !Closes(DataOf(m.conns), body)
    ensures Balanced(RunAct(m, Transact(h, body, fate)).m) <==> !FailsToUndo(DataOf(m.conns), body, fate)
    ensures var end := RunAct(m, Transact(h, body, fate)).m; FailsToUndo(DataOf(m.conns), body, fate) ==>
      DataOf(end.conns) == Expect(DataOf(m.conns), body).data && |end.conns| == |m.conns| &&
      Height(end.conns[h]) == Height(m.conns[h]) + 1
  {
    hide Run, RunAct, ExpectAct, CleansUp, Closes, Expect, Balanced, Heights;
    var end := RunAct(m, Transact(h, body, fate)).m;
    if FailsToUndo(DataOf(m.conns), body, fate) {
      var ran := BodyLeaves(m, h, body);
      LeftAsTheBodyEnded(m, h, body, fate);
      UnclosedIsUnbalanced(m, h, end);
    } else {
      OtherwiseItMeets(m, h, body, fate);
      MeetsStaysBalanced(m, RunAct(m, Transact(h, body, fate)), ExpectAct(DataOf(m.conns), Transact(h, body, fate)));
    }
  }

  // ---- what closing leaves in the file ---------------------------------------

  /** The module's database is inside a transaction it began on b0, or was closed in one and holds b0. */
  predicate HoldsBack(m: Machine, b0: Data) {
    m.conns != [] &&
    if m.conns[0].Open? then m.depth >= 1 && m.conns[0].stack != [] && m.conns[0].stack[0] == Begun(b0)
    else m.conns[0].data == b0
  }

  predicate IsShut(m: Machine) {
    m.conns != [] && m.conns[0].Shut?
  }

  lemma NamedAboveTheBottom(stack: seq<Frame>, name: int)
    requires stack != [] && stack[0].Begun?
    ensures LastNamed(stack, name) != 0
  {
  }

  /** A nested transaction's own statements, on any handle, keep the bottom frame. */
  lemma ExecHoldsBack(m: Machine, h: nat, s: Statement, fails: bool, b0: Data)
    requires HoldsBack(m, b0) && (s.Savepoint? || s.Release? || s.RollbackTo?)
    ensures HoldsBack(ExecOn(m, h, s, fails).0, b0)
  {
    if h == 0 && m.conns[0].Open? && !s.Savepoint? { NamedAboveTheBottom(m.conns[0].stack, s.name); }
  }

  /** Once the module's database is shut, no statement on it does anything, and other handles are other databases. */
  lemma ShutHoldsBack(m: Machine, h: nat, s: Statement, fails: bool, b0: Data)
    requires HoldsBack(m, b0) && IsShut(m)
    ensures HoldsBack(ExecOn(m, h, s, fails).0, b0) && IsShut(ExecOn(m, h, s, fails).0)
  {
  }

  lemma CleanUpHoldsBack(m: Machine, h: nat, nested: bool, name: int, fails: bool, b0: Data)
    requires HoldsBack(m, b0) && (nested || IsShut(m))
    ensures HoldsBack(CleanUp(m, h, nested, name, fails), b0)
    ensures IsShut(m) ==> IsShut(CleanUp(m, h, nested, name, fails))
  {
    hide ExecOn, HoldsBack, IsShut;
    if IsShut(m) { ShutHoldsBack(m, h, if nested then RollbackTo(name) else Rollback, fails, b0); }
    if nested {
      ExecHoldsBack(m, h, RollbackTo(name), fails, b0);
      var back := ExecOn(m, h, RollbackTo(name), fails);
      ExecHoldsBack(back.0, h, Release(name), false, b0);
      if IsShut(m) { ShutHoldsBack(back.0, h, Release(name), false, b0); }
    }
  }

  /** However a body runs inside the transaction, whatever fails, this stays so; and what is shut stays shut. */
  lemma {:induction false} RunHoldsBack(m: Machine, b: Body, b0: Data)
    requires HoldsBack(m, b0)
    ensures var r := Run(m, b); HoldsBack(r.m, b0) && (r.closed || IsShut(m) ==> IsShut(r.m))
    decreases b, 1
  {
    hide HoldsBack, IsShut;
    if b.Do? {
      ActHoldsBack(m, b.act, b0);
      if RunAct(m, b.act).out.Finished? { RunHoldsBack(RunAct(m, b.act).m, b.rest, b0); }
    }
  }

  lemma {:induction false} ActHoldsBack(m: Machine, a: Act, b0: Data)
    requires HoldsBack(m, b0)
    ensures var r := RunAct(m, a); HoldsBack(r.m, b0) && (r.closed || IsShut(m) ==> IsShut(r.m))
    decreases a, 0
  {
    match a
    case Put(_, _, _) =>
    case Throw(_) =>
    case CloseDb =>
    case Attempt(tried) => RunHoldsBack(m, tried, b0);
    case IfSet(h, key, yes, no) =>
      RunHoldsBack(m, yes, b0);
      RunHoldsBack(m, no, b0);
    case Transact(h, body, fate) =>
      BeginHoldsBack(m, h, fate.openFails, b0);
      var began := ExecOn(m, h, if m.depth > 0 then Savepoint(m.depth) else Begin, fate.openFails);
      if began.1 {
        var m1 := began.0.(depth := m.depth + 1);
        RunHoldsBack(m1, body, b0);
        CounterAfter(m1, body);
        EndHoldsBack(m, h, Run(m1, body), fate, b0);
      }
  }

  lemma BeginHoldsBack(m: Machine, h: nat, fails: bool, b0: Data)
    requires HoldsBack(m, b0)
    ensures var began := ExecOn(m, h, if m.depth > 0 then Savepoint(m.depth) else Begin, fails).0;
      HoldsBack(began.(depth := m.depth + 1), b0) && (IsShut(m) ==> IsShut(began))
  {
    hide ExecOn;
    var s := if m.depth > 0 then Savepoint(m.depth) else Begin;
    if IsShut(m) { ShutHoldsBack(m, h, s, fails, b0); } else { ExecHoldsBack(m, h, s, fails, b0); }
  }

  /** How a nested transaction ends, from where its body left off. */
  lemma EndHoldsBack(m: Machine, h: nat, ran: Ran, fate: Fate, b0: Data)
    requires HoldsBack(m, b0) && HoldsBack(ran.m, b0) && (ran.closed || IsShut(m) ==> IsShut(ran.m))
    requires !ran.closed ==> ran.m.depth == m.depth + 1
    ensures var nested := m.depth > 0;
      var closing := ExecOn(ran.m, h, if nested then Release(m.depth) else Commit, fate.closeFails);
      var undone := CleanUp(ran.m, h, nested, m.depth, fate.undoFails);
      HoldsBack(closing.0.(depth := closing.0.depth - 1), b0) && HoldsBack(undone.(depth := undone.depth - 1), b0) &&
      (IsShut(ran.m) ==> IsShut(closing.0) && IsShut(undone))
  {
    hide ExecOn, CleanUp;
    var s := if m.depth > 0 then Release(m.depth) else Commit;
    if IsShut(ran.m) { ShutHoldsBack(ran.m, h, s, fate.closeFails, b0); } else { ExecHoldsBack(ran.m, h, s, fate.closeFails, b0); }
    CleanUpHoldsBack(ran.m, h, m.depth > 0, m.depth, fate.undoFails, b0);
  }

  /**
   * A closeDb inside a transaction of the module's database, however deep and
   * whatever fails around it, leaves in the file exactly what was there when the
   * transaction began.
   */
  lemma ClosedInsideIsRolledBack(m: Machine, body: Body, fate: Fate)
    requires m.depth == 0 && m.conns != [] && m.conns[0].Open? && m.conns[0].stack == []
    requires RunAct(m, Transact(0, body, fate)).closed
    ensures var r := RunAct(m, Transact(0, body, fate));
      r.m.conns != [] && r.m.conns[0] == Shut(m.conns[0].data) && r.m.depth < 0 && r.out.Failed?
  {
    hide Run, CleanUp;
    var b0 := m.conns[0].data;
    var m1 := ExecOn(m, 0, Begin, false).0.(depth := 1);
    assert HoldsBack(m1, b0);
    RunHoldsBack(m1, body, b0);
    var ran := Run(m1, body);
    ShutHoldsBack(ran.m, 0, Commit, fate.closeFails, b0);
    CleanUpHoldsBack(ran.m, 0, false, 0, fate.undoFails, b0);
    CounterAfterAct(m, Transact(0, body, fate));
  }

  // ---- the module as it runs -------------------------------------------------

  class Database {
    var conns: seq<Conn>
    var depth: int

    constructor (conns: seq<Conn>)
      ensures M() == Machine(conns, 0)
    {
      this.conns, depth := conns, 0;
    }

    function M(): Machine
      reads this
    {
      Machine(conns, depth)
    }

    method ExecSql(h: nat, s: Statement, fails: bool) returns (ok: bool)
      modifies this`conns
      ensures (M(), ok) == ExecOn(old(M()), h, s, fails)
    {
      if h >= |conns| || fails { return false; }
      var e := Exec(conns[h], s);
      if e.ok { conns := conns[h := e.conn]; }
      return e.ok;
    }

    method CloseDatabase() returns (did: bool)
      modifies this
      ensures var r := RunAct(old(M()), CloseDb); M() == r.m && did == r.closed
    {
      if |conns| == 0 || conns[0].Shut? { return false; }
      conns := conns[0 := Shut(Committed(conns[0]))];
      depth := 0;
      return true;
    }

    /** withTransaction, applied to fn's body. */
    method WithTransaction(h: nat, body: Body, fate: Fate) returns (out: Outcome)
      modifies this
      ensures var r := RunAct(old(M()), Transact(h, body, fate)); M() == r.m && out == r.out
      decreases body, 3
    {
      var nested := depth > 0;
      var name := depth;
      var ok := ExecSql(h, if nested then Savepoint(name) else Begin, fate.openFails);
      if !ok { return Failed(SqlError); }
      depth := depth + 1;
      out := RunBody(body);
      if out.Finished? {
        ok := ExecSql(h, if nested then Release(name) else Commit, fate.closeFails);
        if !ok { out := Failed(SqlError); }
      }
      if out.Failed? {
        if nested {
          ok := ExecSql(h, RollbackTo(name), fate.undoFails);
          if ok { ok := ExecSql(h, Release(name), false); }
        } else {
          ok := ExecSql(h, Rollback, fate.undoFails);
        }
      }
      depth := depth - 1;
    }

    method Perform(a: Act) returns (out: Outcome)
      modifies this
      ensures var r := RunAct(old(M()), a); M() == r.m && out == r.out
      decreases a, 1
    {
      match a
      case Put(h, key, value) =>
        if h >= |conns| || conns[h].Shut? { return Failed(SqlError); }
        conns := conns[h := conns[h].(data := conns[h].data[key := value])];
        return Finished;
      case Throw(code) => return Failed(Thrown(code));
      case Attempt(tried) =>
        out := RunBody(tried);
        out := Finished;
      case IfSet(h, key, yes, no) =>
        if h >= |conns| || conns[h].Shut? { return Failed(SqlError); }
        if key in conns[h].data { out := RunBody(yes); } else { out := RunBody(no); }
      case CloseDb =>
        var did := CloseDatabase();
        return Finished;
      case Transact(h, body, fate) => out := WithTransaction(h, body, fate);
    }

    method RunBody(b: Body) returns (out: Outcome)
      modifies this
      ensures var r := Run(old(M()), b); M() == r.m && out == r.out
      decreases b, 2
    {
      match b
      case Done => return Finished;
      case Do(act, rest) =>
        out := Perform(act);
        if out.Finished? { out := RunBody(rest); }
    }
  }
}
