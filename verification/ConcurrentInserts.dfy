/**
 The concurrent database test: branches A and B insert rows in an order that is forced only by a two-party
 barrier, crossed partly in the branch's own loop and partly inside a command interceptor.  The protocol is a
 state machine whose steps are the branches' atomic actions, interleaved in any way.

 The test alternates the two roles from one iteration to the next.  Nothing in the argument needs that, so the
 results are for every assignment of roles: roles[i] is the branch whose insert contains the other branch's two
 inserts in iteration i, and |roles| is the number of iterations.  Alternating() is the test's own assignment.
 */
module ConcurrentInserts {

  // ---------------------------------------------------------------- the two programs

  datatype Branch = A | B

  type Roles = seq<Branch>

  function Other(branch: Branch): Branch {
    if branch == A then B else A
  }

  /** The suffix of a row's name: ".before", ".after" or nothing. */
  datatype Part = Before | Whole | After

  /** The row named "branch.iteration" followed by the suffix. */
  datatype Row = Row(branch: Branch, iteration: nat, part: Part)

  datatype Op =
    | Wait                   // Barrier.SignalAndWait
    | BeginInsert            // the command starts executing
    | EndInsert(row: Row)    // the command has executed and its row is in the table

  predicate IsContained(roles: Roles, branch: Branch, i: nat) {
    i < |roles| && roles[i] != branch
  }

  /** One pass of the j-loop in the contained role: the loop itself waits on both sides of the insert. */
  function ContainedInsert(branch: Branch, i: nat, j: nat): seq<Op> {
    var row := Row(branch, i, if j == 0 then Before else After);
    [Wait] + [BeginInsert, EndInsert(row)] + [Wait]
  }

  /** The interceptor's work for a command of the containing role, on Executing and again on Executed. */
  const INTERCEPTED: seq<Op> := [Wait, Wait]

  /** What one branch does in iteration i: two inserts in the contained role, one in the containing role. */
  function Body(roles: Roles, branch: Branch, i: nat): seq<Op> {
    if IsContained(roles, branch, i) then
      ContainedInsert(branch, i, 0) + ContainedInsert(branch, i, 1)
    else
      INTERCEPTED + [BeginInsert, EndInsert(Row(branch, i, Whole))] + INTERCEPTED
  }

  /** The same program by position: how long an iteration is, and its operation at pc. */
  function Length(contained: bool): nat {
    if contained then 8 else 6
  }

  function OpAt(contained: bool, branch: Branch, i: nat, pc: nat): Op {
    if contained then
      if pc == 1 || pc == 5 then BeginInsert
      else if pc == 2 then EndInsert(Row(branch, i, Before))
      else if pc == 6 then EndInsert(Row(branch, i, After))
      else Wait
    else
      if pc == 2 then BeginInsert
      else if pc == 3 then EndInsert(Row(branch, i, Whole))
      else Wait
  }

  lemma BodyByPosition(roles: Roles, branch: Branch, i: nat)
    ensures var contained := IsContained(roles, branch, i);
            && |Body(roles, branch, i)| == Length(contained)
            && forall pc :: 0 <= pc < Length(contained) ==>
                 Body(roles, branch, i)[pc] == OpAt(contained, branch, i, pc)
  {}

  // ---------------------------------------------------------------- state and steps

  /** A thread that has arrived at the barrier stays parked, in the phase it arrived in, until it wakes up. */
  datatype Standing = Running | Parked(phase: nat)

  /** A branch's thread: its iteration and its position in it. */
  datatype Thread = Thread(i: nat, pc: nat, standing: Standing)

  /** A barrier for two participants; the last to arrive starts the next phase. */
  datatype Barrier = Barrier(phase: nat, arrived: nat)

  /** The two threads, what they share, and how often each has crossed the barrier. */
  datatype State = State(a: Thread, b: Thread, barrier: Barrier, rows: seq<Row>, crossedA: nat, crossedB: nat)

  predicate IsIdle(t: Thread) {
    t.i == 0 && t.pc == 0 && t.standing.Running?
  }

  predicate IsStart(s: State) {
    && s.rows == []
    && IsIdle(s.a) && IsIdle(s.b) && s.crossedA == 0 && s.crossedB == 0
    && s.barrier.phase == 0 && s.barrier.arrived == 0
  }

  function Of(s: State, branch: Branch): Thread {
    if branch == A then s.a else s.b
  }

  predicate Finished(roles: Roles, t: Thread) {
    t.i >= |roles|
  }

  predicate Done(roles: Roles, s: State) {
    Finished(roles, s.a) && Finished(roles, s.b)
  }

  predicate WellPlaced(roles: Roles, branch: Branch, t: Thread) {
    t.pc < Length(IsContained(roles, branch, t.i))
  }

  function Current(roles: Roles, branch: Branch, t: Thread): Op {
    OpAt(IsContained(roles, branch, t.i), branch, t.i, t.pc)
  }

  /** A thread is held up only by a barrier whose phase has not moved on since it arrived. */
  predicate CanAct(roles: Roles, branch: Branch, t: Thread, barrier: Barrier) {
    && !Finished(roles, t)
    && WellPlaced(roles, branch, t)
    && (t.standing.Parked? ==> barrier.phase != t.standing.phase)
  }

  /** The thread past its current operation, in the next iteration if this one is over. */
  function Advance(roles: Roles, branch: Branch, t: Thread): Thread {
    if t.pc + 1 < Length(IsContained(roles, branch, t.i)) then Thread(t.i, t.pc + 1, Running)
    else Thread(t.i + 1, 0, Running)
  }

  function Arrive(barrier: Barrier): Barrier {
    if barrier.arrived + 1 == 2 then Barrier(barrier.phase + 1, 0) else barrier.(arrived := barrier.arrived + 1)
  }

  /** What one step of a branch touches: its own thread, the barrier, the table and its crossings. */
  datatype Effect = Effect(t: Thread, barrier: Barrier, rows: seq<Row>, crossed: nat)

  function Act(roles: Roles, branch: Branch, t: Thread, barrier: Barrier, rows: seq<Row>): Effect {
    if t.standing.Parked? then
      Effect(Advance(roles, branch, t), barrier, rows, 1)
    else
      match Current(roles, branch, t)
      case Wait => Effect(t.(standing := Parked(barrier.phase)), Arrive(barrier), rows, 0)
      case BeginInsert => Effect(Advance(roles, branch, t), barrier, rows, 0)
      case EndInsert(row) => Effect(Advance(roles, branch, t), barrier, rows + [row], 0)
  }

  predicate Enabled(roles: Roles, s: State, branch: Branch) {
    CanAct(roles, branch, Of(s, branch), s.barrier)
  }

  function Step(roles: Roles, s: State, branch: Branch): State
    requires Enabled(roles, s, branch)
  {
    var e := Act(roles, branch, Of(s, branch), s.barrier, s.rows);
    var s' := s.(barrier := e.barrier, rows := e.rows);
    if branch == A then s'.(a := e.t, crossedA := s.crossedA + e.crossed)
    else s'.(b := e.t, crossedB := s.crossedB + e.crossed)
  }

  ghost predicate Next(roles: Roles, s: State, s': State) {
    exists branch: Branch :: Enabled(roles, s, branch) && s' == Step(roles, s, branch)
  }

  /** A run of the two branches under any scheduler. */
  ghost predicate IsRun(roles: Roles, run: seq<State>) {
    && 0 < |run|
    && IsStart(run[0])
    && forall k :: 0 <= k < |run| - 1 ==> Next(roles, run[k], run[k + 1])
  }

  /** The branch's command has started and its row is not yet in the table. */
  predicate Inserting(roles: Roles, s: State, branch: Branch) {
    var t := Of(s, branch);
    !Finished(roles, t) && Current(roles, branch, t).EndInsert?
  }

  // ---------------------------------------------------------------- the order the test demands

  function Triple(containing: Branch, i: nat): seq<Row> {
    [Row(Other(containing), i, Before), Row(containing, i, Whole), Row(Other(containing), i, After)]
  }

  function Expected(roles: Roles): (rows: seq<Row>)
    ensures |rows| == 3 * |roles|
  {
    if roles == [] then [] else
      var last := |roles| - 1;
      Expected(roles[..last]) + Triple(roles[last], last)
  }

  lemma {:induction false} ExpectedAt(roles: Roles, i: nat)
    requires i < |roles|
    ensures Expected(roles)[3 * i..3 * i + 3] == Triple(roles[i], i)
  {
    var last := |roles| - 1;
    if i < last {
      ExpectedAt(roles[..last], i);
      assert Expected(roles)[3 * i..3 * i + 3] == Expected(roles[..last])[3 * i..3 * i + 3];
    } else {
      assert Expected(roles)[3 * i..3 * i + 3] == Triple(roles[i], i);
    }
  }

  /** The test's own roles: A contains B in even iterations, B contains A in odd ones. */
  function Alternating(n: nat): (roles: Roles)
    ensures |roles| == n
    ensures forall i :: 0 <= i < n ==> roles[i] == if i % 2 == 0 then A else B
  {
    seq(n, i => if i % 2 == 0 then A else B)
  }

  /** The rows the final check reads back, compared group by group as the test does. */
  method CheckRows(n: nat, rows: seq<Row>) returns (passes: bool)
    ensures passes <==> rows == Expected(Alternating(n))
  {
    ghost var demanded := Expected(Alternating(n));
    if |rows| != 3 * n {
      return false;
    }
    for i := 0 to n
      invariant rows[..3 * i] == demanded[..3 * i]
    {
      ExpectedAt(Alternating(n), i);
      var (containing, contained) := if i % 2 == 0 then (A, B) else (B, A);
      var expected := [Row(contained, i, Before), Row(containing, i, Whole), Row(contained, i, After)];
      var actual := [rows[3 * i], rows[3 * i + 1], rows[3 * i + 2]];
      assert actual == rows[3 * i..3 * i + 3];
      if actual != expected {
        return false;
      }
      assert rows[..3 * (i + 1)] == rows[..3 * i] + rows[3 * i..3 * i + 3];
      assert demanded[..3 * (i + 1)] == demanded[..3 * i] + demanded[3 * i..3 * i + 3];
    }
    assert rows[..3 * n] == rows && demanded[..3 * n] == demanded;
    return true;
  }

  // ---------------------------------------------------------------- what a thread has done so far

  function Waits(ops: seq<Op>): nat {
    if ops == [] then 0 else Waits(ops[..|ops| - 1]) + if ops[|ops| - 1] == Wait then 1 else 0
  }

  function Inserts(ops: seq<Op>): nat {
    if ops == [] then 0 else Inserts(ops[..|ops| - 1]) + if ops[|ops| - 1].EndInsert? then 1 else 0
  }

  /** Per role, the barriers crossed and the rows inserted before position pc of an iteration. */
  function WaitsAt(contained: bool, pc: nat): nat {
    if contained then
      if pc == 0 then 0 else if pc <= 3 then 1 else if pc == 4 then 2 else if pc <= 7 then 3 else 4
    else
      if pc <= 2 then pc else if pc <= 4 then 2 else if pc == 5 then 3 else 4
  }

  function InsertsAt(contained: bool, pc: nat): nat {
    if contained then if pc <= 2 then 0 else if pc <= 6 then 1 else 2
    else if pc <= 3 then 0 else 1
  }

  /** One more operation, in the tables. */
  lemma TablesStep(contained: bool, branch: Branch, i: nat, pc: nat)
    requires pc < Length(contained)
    ensures
      WaitsAt(contained, pc + 1) == WaitsAt(contained, pc) + if OpAt(contained, branch, i, pc) == Wait then 1 else 0
    ensures
      InsertsAt(contained, pc + 1) == InsertsAt(contained, pc) + Added(OpAt(contained, branch, i, pc))
  {}

  lemma CountsStep(ops: seq<Op>, pc: nat)
    requires pc < |ops|
    ensures Waits(ops[..pc + 1]) == Waits(ops[..pc]) + if ops[pc] == Wait then 1 else 0
    ensures Inserts(ops[..pc + 1]) == Inserts(ops[..pc]) + if ops[pc].EndInsert? then 1 else 0
  {
    assert ops[..pc + 1][..pc] == ops[..pc];
  }

  /** The two tables count the operations of the program text. */
  lemma {:induction false} TablesCount(roles: Roles, branch: Branch, i: nat, pc: nat)
    requires pc <= |Body(roles, branch, i)|
    ensures Waits(Body(roles, branch, i)[..pc]) == WaitsAt(IsContained(roles, branch, i), pc)
    ensures Inserts(Body(roles, branch, i)[..pc]) == InsertsAt(IsContained(roles, branch, i), pc)
  {
    if pc > 0 {
      TablesCount(roles, branch, i, pc - 1);
      BodyByPosition(roles, branch, i);
      TablesStep(IsContained(roles, branch, i), branch, i, pc - 1);
      CountsStep(Body(roles, branch, i), pc - 1);
    }
  }

  /** Every iteration of either branch crosses the barrier exactly four times; the two insert three rows. */
  lemma FourWaitsPerIteration(roles: Roles, i: nat)
    requires i < |roles|
    ensures Waits(Body(roles, A, i)) == Waits(Body(roles, B, i)) == 4
    ensures Inserts(Body(roles, A, i)) + Inserts(Body(roles, B, i)) == 3
  {
    forall branch: Branch
      ensures Waits(Body(roles, branch, i)) == 4
      ensures Inserts(Body(roles, branch, i)) == if IsContained(roles, branch, i) then 2 else 1
    {
      var ops := Body(roles, branch, i);
      assert ops[..|ops|] == ops;
      BodyByPosition(roles, branch, i);
      TablesCount(roles, branch, i, |ops|);
    }
  }

  function Held(t: Thread): nat {
    if t.standing.Parked? then 1 else 0
  }

  function Crossed(roles: Roles, branch: Branch, t: Thread): nat {
    4 * t.i + WaitsAt(IsContained(roles, branch, t.i), t.pc)
  }

  /** How often the thread has arrived at the barrier. */
  function Arrivals(roles: Roles, branch: Branch, t: Thread): nat {
    Crossed(roles, branch, t) + Held(t)
  }

  function Inserted(roles: Roles, branch: Branch, t: Thread): nat {
    InsertsAt(IsContained(roles, branch, t.i), t.pc)
  }

  /** The rows in the table when the branches are at t and o; they are never more than one iteration apart. */
  function RowCount(roles: Roles, branch: Branch, t: Thread, o: Thread): nat {
    if t.i == o.i then 3 * t.i + Inserted(roles, branch, t) + Inserted(roles, Other(branch), o)
    else if t.i < o.i then 3 * o.i
    else 3 * t.i
  }

  // ---------------------------------------------------------------- the invariant

  /** A thread runs in the barrier's phase, or is parked in it, or has yet to notice that its phase is over. */
  predicate InStep(roles: Roles, branch: Branch, t: Thread, barrier: Barrier) {
    if Arrivals(roles, branch, t) == barrier.phase + 1 then t.standing == Parked(barrier.phase)
    else Arrivals(roles, branch, t) == barrier.phase && (t.standing.Parked? ==> t.standing.phase + 1 == barrier.phase)
  }

  predicate ThreadInv(roles: Roles, branch: Branch, t: Thread, barrier: Barrier) {
    && t.i <= |roles|
    && WellPlaced(roles, branch, t)
    && (t.i == |roles| ==> t.pc == 0 && t.standing.Running?)
    && (t.standing.Parked? ==> Current(roles, branch, t) == Wait)
    && InStep(roles, branch, t, barrier)
  }

  function Ahead(roles: Roles, branch: Branch, t: Thread, barrier: Barrier): nat {
    if Arrivals(roles, branch, t) == barrier.phase + 1 then 1 else 0
  }

  /** The synchronisation invariant as seen by one branch: its own thread t, and the other branch's thread o. */
  predicate PairInv(roles: Roles, branch: Branch, t: Thread, o: Thread, barrier: Barrier) {
    && ThreadInv(roles, branch, t, barrier)
    && ThreadInv(roles, Other(branch), o, barrier)
    && barrier.arrived == Ahead(roles, branch, t, barrier) + Ahead(roles, Other(branch), o, barrier)
    && barrier.arrived <= 1
  }

  predicate Inv(roles: Roles, s: State) {
    && PairInv(roles, A, s.a, s.b, s.barrier)
    && s.crossedA == Crossed(roles, A, s.a)
    && s.crossedB == Crossed(roles, B, s.b)
    && |s.rows| == RowCount(roles, A, s.a, s.b)
    && s.rows <= Expected(roles)
  }

  lemma PairInvSymmetric(roles: Roles, t: Thread, o: Thread, barrier: Barrier)
    ensures PairInv(roles, A, t, o, barrier) <==> PairInv(roles, B, o, t, barrier)
    ensures RowCount(roles, A, t, o) == RowCount(roles, B, o, t)
  {}

  lemma InvStart(roles: Roles, s: State)
    requires IsStart(s)
    ensures Inv(roles, s)
  {}

  /** The demanded order, row by row. */
  predicate SpellsOut(roles: Roles, expected: seq<Row>) {
    && |expected| == 3 * |roles|
    && forall i :: 0 <= i < |roles| ==>
         && expected[3 * i] == Row(Other(roles[i]), i, Before)
         && expected[3 * i + 1] == Row(roles[i], i, Whole)
         && expected[3 * i + 2] == Row(Other(roles[i]), i, After)
  }

  lemma ExpectedSpellsOut(roles: Roles)
    ensures SpellsOut(roles, Expected(roles))
  {}

  /** A branch working on an insert: the other one is in the same iteration, and not working on an insert. */
  lemma OneInserter(roles: Roles, branch: Branch, t: Thread, o: Thread, barrier: Barrier)
    requires PairInv(roles, branch, t, o, barrier)
    requires !Finished(roles, t) && Current(roles, branch, t) != Wait
    ensures t.standing.Running? && o.i == t.i
    ensures !Current(roles, Other(branch), o).EndInsert?
    ensures RowCount(roles, branch, t, o)
         == 3 * t.i + if !IsContained(roles, branch, t.i) then 1 else if t.pc <= 3 then 0 else 2
  {}

  /** A branch about to insert holds exactly the row that comes next in the demanded order. */
  lemma NextRow(roles: Roles, branch: Branch, t: Thread, o: Thread, barrier: Barrier, expected: seq<Row>)
    requires PairInv(roles, branch, t, o, barrier) && SpellsOut(roles, expected)
    requires !Finished(roles, t) && Current(roles, branch, t).EndInsert?
    ensures RowCount(roles, branch, t, o) < 3 * |roles|
    ensures Current(roles, branch, t).row == expected[RowCount(roles, branch, t, o)]
  {
    OneInserter(roles, branch, t, o, barrier);
    assert roles[t.i] == if IsContained(roles, branch, t.i) then Other(branch) else branch;
  }

  /** The rows an operation adds. */
  function Added(op: Op): nat {
    if op.EndInsert? then 1 else 0
  }

  /** An effect of one step that keeps the branches in step and counts its crossing and its row. */
  predicate Kept(roles: Roles, branch: Branch, t: Thread, o: Thread, e: Effect, added: nat) {
    && PairInv(roles, branch, e.t, o, e.barrier)
    && Crossed(roles, branch, e.t) == Crossed(roles, branch, t) + e.crossed
    && RowCount(roles, branch, e.t, o) == RowCount(roles, branch, t, o) + added
  }

  /** Arriving: the thread parks, and if it is the last to arrive the phase moves on under the other one. */
  lemma ArrivalKeeps(roles: Roles, branch: Branch, t: Thread, o: Thread, barrier: Barrier, rows: seq<Row>)
    requires PairInv(roles, branch, t, o, barrier) && CanAct(roles, branch, t, barrier)
    requires t.standing.Running? && Current(roles, branch, t) == Wait
    ensures Kept(roles, branch, t, o, Act(roles, branch, t, barrier, rows), 0)
  {
    var t' := t.(standing := Parked(barrier.phase));
    assert Arrivals(roles, branch, t) == barrier.phase;
    assert Arrivals(roles, branch, t') == barrier.phase + 1;
  }

  /** Passing a wait counts as one crossing; passing anything else counts as none. */
  lemma AdvanceCrosses(roles: Roles, branch: Branch, t: Thread)
    requires !Finished(roles, t) && WellPlaced(roles, branch, t)
    ensures
      Crossed(roles, branch, Advance(roles, branch, t))
      == Crossed(roles, branch, t) + if Current(roles, branch, t) == Wait then 1 else 0
  {}

  lemma AdvanceWellPlaced(roles: Roles, branch: Branch, t: Thread)
    requires !Finished(roles, t) && WellPlaced(roles, branch, t)
    ensures
      var t' := Advance(roles, branch, t);
      t'.i <= |roles| && WellPlaced(roles, branch, t') && t'.standing.Running? && (t'.i == |roles| ==> t'.pc == 0)
  {}

  /** A thread past a wait that it has woken from adds no row, and counts as many as before. */
  lemma WakingCounts(roles: Roles, branch: Branch, t: Thread, o: Thread, barrier: Barrier)
    requires PairInv(roles, branch, t, o, barrier) && CanAct(roles, branch, t, barrier)
    requires t.standing.Parked?
    ensures RowCount(roles, branch, Advance(roles, branch, t), o) == RowCount(roles, branch, t, o)
  {
    assert Arrivals(roles, branch, t) == barrier.phase;
  }

  /** Waking up: the phase the thread parked in is over. */
  lemma WakingKeeps(roles: Roles, branch: Branch, t: Thread, o: Thread, barrier: Barrier, rows: seq<Row>)
    requires PairInv(roles, branch, t, o, barrier) && CanAct(roles, branch, t, barrier)
    requires t.standing.Parked?
    ensures Kept(roles, branch, t, o, Act(roles, branch, t, barrier, rows), 0)
  {
    AdvanceCrosses(roles, branch, t);
    AdvanceWellPlaced(roles, branch, t);
    WakingCounts(roles, branch, t, o, barrier);
  }

  /** Working on an insert: nothing about the barrier changes, and EndInsert adds one row. */
  lemma InsertKeeps(roles: Roles, branch: Branch, t: Thread, o: Thread, barrier: Barrier, rows: seq<Row>)
    requires PairInv(roles, branch, t, o, barrier) && CanAct(roles, branch, t, barrier)
    requires t.standing.Running? && Current(roles, branch, t) != Wait
    ensures Kept(roles, branch, t, o, Act(roles, branch, t, barrier, rows), Added(Current(roles, branch, t)))
  {
    var t' := Advance(roles, branch, t);
    OneInserter(roles, branch, t, o, barrier);
    assert Crossed(roles, branch, t') == Crossed(roles, branch, t) == barrier.phase;
  }

  /** Only the end of an insert adds a row, and it adds its own. */
  lemma ActRows(roles: Roles, branch: Branch, t: Thread, barrier: Barrier, rows: seq<Row>)
    ensures
      var op := Current(roles, branch, t);
      Act(roles, branch, t, barrier, rows).rows
      == if t.standing.Running? && op.EndInsert? then rows + [op.row] else rows
  {}

  /** A branch's step keeps the branches in step, and counts the rows it adds. */
  lemma ActCountsRows(roles: Roles, branch: Branch, t: Thread, o: Thread, barrier: Barrier, rows: seq<Row>)
    requires PairInv(roles, branch, t, o, barrier) && CanAct(roles, branch, t, barrier)
    ensures
      Kept(roles, branch, t, o, Act(roles, branch, t, barrier, rows),
           if t.standing.Running? then Added(Current(roles, branch, t)) else 0)
  {
    if t.standing.Parked? {
      WakingKeeps(roles, branch, t, o, barrier, rows);
    } else if Current(roles, branch, t) == Wait {
      ArrivalKeeps(roles, branch, t, o, barrier, rows);
    } else {
      InsertKeeps(roles, branch, t, o, barrier, rows);
    }
  }

  /** The rows after a step are again the first rows of the demanded order. */
  lemma ActKeeps(roles: Roles, branch: Branch, t: Thread, o: Thread, barrier: Barrier, rows: seq<Row>,
                 expected: seq<Row>)
    requires PairInv(roles, branch, t, o, barrier) && CanAct(roles, branch, t, barrier)
    requires |rows| == RowCount(roles, branch, t, o) && rows <= expected && SpellsOut(roles, expected)
    ensures var e := Act(roles, branch, t, barrier, rows);
            && Kept(roles, branch, t, o, e, |e.rows| - |rows|)
            && e.rows <= expected
  {
    ActRows(roles, branch, t, barrier, rows);
    ActCountsRows(roles, branch, t, o, barrier, rows);
    if t.standing.Running? && Current(roles, branch, t).EndInsert? {
      NextRow(roles, branch, t, o, barrier, expected);
      PrefixGrows(rows, Current(roles, branch, t).row, expected);
    }
  }

  lemma PrefixGrows(rows: seq<Row>, row: Row, expected: seq<Row>)
    requires rows <= expected && |rows| < |expected| && expected[|rows|] == row
    ensures rows + [row] <= expected
  {}

  lemma InvStep(roles: Roles, s: State, branch: Branch)
    requires Inv(roles, s)
    requires Enabled(roles, s, branch)
    ensures Inv(roles, Step(roles, s, branch))
  {
    PairInvSymmetric(roles, s.a, s.b, s.barrier);
    ExpectedSpellsOut(roles);
    ActKeeps(roles, branch, Of(s, branch), Of(s, Other(branch)), s.barrier, s.rows, Expected(roles));
    var s' := Step(roles, s, branch);
    PairInvSymmetric(roles, s'.a, s'.b, s'.barrier);
  }

  // ---------------------------------------------------------------- every run

  function Begun(roles: Roles, branch: Branch, t: Thread): nat {
    if !Finished(roles, t) && Current(roles, branch, t).EndInsert? then 1 else 0
  }

  /** How many steps have been taken: a crossing takes two, an insert takes two. */
  function Steps(roles: Roles, s: State): nat {
    2 * (s.crossedA + s.crossedB) + Held(s.a) + Held(s.b)
    + 2 * |s.rows| + Begun(roles, A, s.a) + Begun(roles, B, s.b)
  }

  lemma ActCounts(roles: Roles, branch: Branch, t: Thread, barrier: Barrier, rows: seq<Row>)
    requires CanAct(roles, branch, t, barrier)
    requires t.standing.Parked? ==> Current(roles, branch, t) == Wait
    ensures var e := Act(roles, branch, t, barrier, rows);
            2 * e.crossed + Held(e.t) + 2 * |e.rows| + Begun(roles, branch, e.t)
            == Held(t) + 2 * |rows| + Begun(roles, branch, t) + 1
  {}

  lemma StepCounts(roles: Roles, s: State, branch: Branch)
    requires Inv(roles, s)
    requires Enabled(roles, s, branch)
    ensures Steps(roles, Step(roles, s, branch)) == Steps(roles, s) + 1
  {
    ActCounts(roles, branch, Of(s, branch), s.barrier, s.rows);
  }

  lemma {:induction false} InvAlong(roles: Roles, run: seq<State>, k: nat)
    requires IsRun(roles, run) && k < |run|
    ensures Inv(roles, run[k]) && Steps(roles, run[k]) == k
  {
    if k == 0 {
      InvStart(roles, run[0]);
    } else {
      InvAlong(roles, run, k - 1);
      assert Next(roles, run[k - 1], run[k]);
      var branch :| Enabled(roles, run[k - 1], branch) && run[k] == Step(roles, run[k - 1], branch);
      InvStep(roles, run[k - 1], branch);
      StepCounts(roles, run[k - 1], branch);
    }
  }

  /**
   Safety, at every moment of every run: the rows so far begin the demanded sequence, the two branches are never
   inserting at once, and the barrier is never signalled by more parties than it has.
   */
  lemma RunsAreOrdered(roles: Roles, run: seq<State>, k: nat)
    requires IsRun(roles, run) && k < |run|
    ensures run[k].rows <= Expected(roles)
    ensures !(Inserting(roles, run[k], A) && Inserting(roles, run[k], B))
    ensures run[k].barrier.arrived < 2
  {
    var s := run[k];
    InvAlong(roles, run, k);
    if Inserting(roles, s, A) {
      OneInserter(roles, A, s.a, s.b, s.barrier);
    }
  }

  /** While a branch has work left, one of the two can move. */
  lemma NoDeadlock(roles: Roles, s: State)
    requires Inv(roles, s) && !Done(roles, s)
    ensures Enabled(roles, s, A) || Enabled(roles, s, B)
  {}

  lemma StepsWithin(roles: Roles, branch: Branch, t: Thread, barrier: Barrier)
    requires ThreadInv(roles, branch, t, barrier)
    ensures var steps := 2 * Crossed(roles, branch, t) + Held(t) + Begun(roles, branch, t);
            steps <= 8 * |roles| && (steps == 8 * |roles| <==> Finished(roles, t))
  {}

  lemma StepsBounded(roles: Roles, s: State)
    requires Inv(roles, s)
    ensures Steps(roles, s) <= 22 * |roles|
    ensures Done(roles, s) ==> Steps(roles, s) == 22 * |roles| && s.rows == Expected(roles)
  {
    StepsWithin(roles, A, s.a, s.barrier);
    StepsWithin(roles, B, s.b, s.barrier);
  }

  lemma StuckOnlyWhenDone(roles: Roles, s: State)
    requires Inv(roles, s)
    requires forall s' :: !Next(roles, s, s')
    ensures Done(roles, s)
  {
    if !Done(roles, s) {
      NoDeadlock(roles, s);
      var branch := if Enabled(roles, s, A) then A else B;
      assert Next(roles, s, Step(roles, s, branch));
    }
  }

  /** Nothing can happen any more. */
  ghost predicate Stuck(roles: Roles, s: State) {
    forall s' :: !Next(roles, s, s')
  }

  /** Both branches done, each after four crossings an iteration, with three rows an iteration in the demanded order. */
  predicate Complete(roles: Roles, s: State) {
    && Done(roles, s)
    && s.crossedA == s.crossedB == 4 * |roles|
    && s.rows == Expected(roles) && |s.rows| == 3 * |roles|
  }

  lemma DoneIsComplete(roles: Roles, s: State)
    requires Inv(roles, s) && Done(roles, s)
    ensures Complete(roles, s) && Steps(roles, s) == 22 * |roles|
  {
    StepsBounded(roles, s);
  }

  /** Every run stops, after exactly 22 steps an iteration, and only by completing the protocol. */
  lemma RunsComplete(roles: Roles, run: seq<State>)
    requires IsRun(roles, run)
    ensures |run| <= 22 * |roles| + 1
    ensures Stuck(roles, run[|run| - 1]) ==> Complete(roles, run[|run| - 1]) && |run| == 22 * |roles| + 1
  {
    var s := run[|run| - 1];
    InvAlong(roles, run, |run| - 1);
    StepsBounded(roles, s);
    if Stuck(roles, s) {
      StuckOnlyWhenDone(roles, s);
      DoneIsComplete(roles, s);
    }
  }

  lemma SomeStep(roles: Roles, s: State) returns (s': State)
    requires Inv(roles, s) && !Done(roles, s)
    ensures Next(roles, s, s')
  {
    NoDeadlock(roles, s);
    s' := Step(roles, s, if Enabled(roles, s, A) then A else B);
  }

  lemma RunGrows(roles: Roles, run: seq<State>, s': State)
    requires IsRun(roles, run) && Next(roles, run[|run| - 1], s')
    ensures IsRun(roles, run + [s'])
  {}

  lemma InvAtEnd(roles: Roles, run: seq<State>)
    requires IsRun(roles, run)
    ensures Inv(roles, run[|run| - 1])
  {
    InvAlong(roles, run, |run| - 1);
  }

  /** A run is complete, or goes on. */
  lemma OneMoreStep(roles: Roles, run: seq<State>) returns (longer: seq<State>)
    requires IsRun(roles, run) && !Complete(roles, run[|run| - 1])
    ensures IsRun(roles, longer) && |longer| == |run| + 1 && run <= longer
  {
    InvAtEnd(roles, run);
    var s := run[|run| - 1];
    if Done(roles, s) {
      DoneIsComplete(roles, s);
    }
    var s' := SomeStep(roles, s);
    RunGrows(roles, run, s');
    longer := run + [s'];
  }

  lemma PrefixOfPrefix(a: seq<State>, b: seq<State>, c: seq<State>)
    requires a <= b && b <= c
    ensures a <= c
  {}

  /** Any run, however it has been scheduled so far, can be continued to completion. */
  lemma {:induction false} RunsContinue(roles: Roles, run: seq<State>) returns (full: seq<State>)
    requires IsRun(roles, run)
    ensures IsRun(roles, full) && run <= full && Complete(roles, full[|full| - 1])
    decreases 22 * |roles| + 1 - |run|
  {
    if Complete(roles, run[|run| - 1]) {
      full := run;
    } else {
      var longer := OneMoreStep(roles, run);
      RunsComplete(roles, longer);
      full := RunsContinue(roles, longer);
      PrefixOfPrefix(run, longer, full);
    }
  }
}
