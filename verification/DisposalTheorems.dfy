/**
 What disposing amounts to, over every run of any number of threads.
 */
module DisposalTheorems {
  import opened Sequences
  import opened Disposal
  import opened DisposalRuns

  datatype Event = Call(t: nat, c: nat) | Move(t: nat, stale: bool)

  ghost predicate Possible(g: Graph, s: State, event: Event)
    requires Fits(g, s)
  {
    match event
    case Call(t, c) => t < |s.stacks| && s.stacks[t] == [] && c < |g|
    case Move(t, _) => CanStep(g, s, t)
  }

  ghost function Next(g: Graph, s: State, event: Event): State
    requires Fits(g, s) && Possible(g, s, event)
  {
    match event
    case Call(t, c) => Called(g, s, t, c)
    case Move(t, stale) => Step(g, s, t, stale)
  }

  lemma CallKeeps(g: Graph, s: State, t: nat, c: nat)
    requires Inv(g, s) && t < |s.stacks| && s.stacks[t] == [] && c < |g|
    ensures Inv(g, Called(g, s, t, c)) && MarkedOrSoon(Called(g, s, t, c), c)
  {
    var s' := Called(g, s, t, c);
    SoonByFrame(s', t, Frame(c, Entering));
    forall t', f | 0 <= t' < |s'.stacks| && f in s'.stacks[t'] ensures FrameFits(g, f) {
      assert f == Frame(c, Entering) || f in s.stacks[t'];
    }
    CallKeepsOwners(g, s, t, c);
    LogSame(g, s, s');
    forall d: nat | MarkedOrSoon(s, d) ensures MarkedOrSoon(s', d) {
      CallKeepsSoon(g, s, t, c, d);
    }
    assert NestedOk(g, s') by {
      forall d: nat, k: nat | IsReached(g, s', d, k) && g[d][k].Composite? ensures MarkedOrSoon(s', g[d][k].c) {
        assert IsReached(g, s, d, k);
      }
    }
  }

  lemma CallKeepsOwners(g: Graph, s: State, t: nat, c: nat)
    requires OwnersHold(s) && LoopsRun(s) && t < |s.stacks| && s.stacks[t] == []
    ensures OwnersHold(Called(g, s, t, c)) && LoopsRun(Called(g, s, t, c))
  {}

  lemma CallKeepsSoon(g: Graph, s: State, t: nat, c: nat, d: nat)
    requires t < |s.stacks| && s.stacks[t] == [] && MarkedOrSoon(s, d)
    ensures MarkedOrSoon(Called(g, s, t, c), d)
  {
    var s' := Called(g, s, t, c);
    if !(d < |s.isDisposed| && s.isDisposed[d]) {
      var t', f :| 0 <= t' < |s.stacks| && f in s.stacks[t'] && f.c == d && !f.phase.Disposing?;
      assert f in s'.stacks[t'];
    }
  }

  /** A composite whose disposal has been asked for stays marked, or on its way to be. */
  lemma StepKeepsSoon(g: Graph, s: State, t: nat, stale: bool, d: nat)
    requires Inv(g, s) && CanStep(g, s, t) && MarkedOrSoon(s, d)
    ensures MarkedOrSoon(Step(g, s, t, stale), d)
  {
    var f, s' := Top(s, t), Step(g, s, t, stale);
    var c := f.c;
    assert FrameOk(g, s, t, f);
    match f.phase {
      case Entering =>
        if s.isDisposed[c] && !stale {
          SoonStill(s, s', t, c, [], d);
        } else {
          NewFrame(s, s', t, c, [Frame(c, Locking)], Frame(c, Locking));
          SoonStill(s, s', t, c, [Frame(c, Locking)], d);
        }
      case Locking =>
        NewFrame(s, s', t, c, [Frame(c, Checking)], Frame(c, Checking));
        SoonStill(s, s', t, c, [Frame(c, Checking)], d);
      case Checking =>
        if s.isDisposed[c] {
          SoonStill(s, s', t, c, [], d);
        } else {
          NewFrame(s, s', t, c, [Frame(c, Marking)], Frame(c, Marking));
          SoonStill(s, s', t, c, [Frame(c, Marking)], d);
        }
      case Marking =>
        SoonStill(s, s', t, c, [Frame(c, Disposing(0))], d);
      case Disposing(i) =>
        LoopKeepsSoon(g, s, t, stale, d, i);
    }
  }

  lemma LoopKeepsSoon(g: Graph, s: State, t: nat, stale: bool, d: nat, i: nat)
    requires Inv(g, s) && CanStep(g, s, t) && MarkedOrSoon(s, d) && Top(s, t).phase == Disposing(i)
    ensures MarkedOrSoon(Step(g, s, t, stale), d)
  {
    var f, s' := Top(s, t), Step(g, s, t, stale);
    var c := f.c;
    assert FrameOk(g, s, t, f);
    if i == |g[c]| {
      SoonStill(s, s', t, c, [], d);
    } else if g[c][i].Leaf? {
      SoonStill(s, s', t, c, [Frame(c, Disposing(i + 1))], d);
    } else {
      SoonStill(s, s', t, c, [Frame(c, Disposing(i + 1)), Frame(g[c][i].c, Entering)], d);
    }
  }

  // ---------------------------------------------------------------- what is asked for

  /** c is r, or is held by r at some depth. */
  ghost predicate Under(g: Graph, r: nat, c: nat)
    decreases r
  {
    r < |g| && (r == c || exists k :: 0 <= k < |g[r]| && g[r][k].Composite? && g[r][k].c < r && Under(g, g[r][k].c, c))
  }

  lemma {:induction false} UnderHeld(g: Graph, r: nat, c: nat, k: nat)
    requires Under(g, r, c) && c < |g| && k < |g[c]| && g[c][k].Composite? && g[c][k].c < c
    ensures Under(g, r, g[c][k].c)
    decreases r
  {
    if r == c {
      assert Under(g, g[c][k].c, g[c][k].c);
    } else {
      var j :| 0 <= j < |g[r]| && g[r][j].Composite? && g[r][j].c < r && Under(g, g[r][j].c, c);
      UnderHeld(g, g[r][j].c, c, k);
    }
  }

  ghost predicate Wanted(g: Graph, roots: set<nat>, c: nat) {
    exists r :: r in roots && Under(g, r, c)
  }

  /** Nothing is disposed, or being disposed, that was not asked for. */
  ghost predicate OnlyWanted(g: Graph, s: State, roots: set<nat>) {
    && (forall t, f :: 0 <= t < |s.stacks| && f in s.stacks[t] ==> Wanted(g, roots, f.c))
    && (forall c :: 0 <= c < |s.isDisposed| && s.isDisposed[c] ==> Wanted(g, roots, c))
  }

  lemma CallKeepsWanted(g: Graph, s: State, roots: set<nat>, t: nat, c: nat)
    requires OnlyWanted(g, s, roots) && t < |s.stacks| && s.stacks[t] == [] && c < |g|
    ensures OnlyWanted(g, Called(g, s, t, c), roots + {c})
  {}

  lemma FramesWanted(g: Graph, s: State, s': State, t: nat, c: nat, frames: seq<Frame>, roots: set<nat>)
    requires StacksDescend(s) && Changed(s, s', t, c, frames) && OnlyWanted(g, s, roots)
    requires forall f :: f in frames ==> Wanted(g, roots, f.c)
    ensures OnlyWanted(g, s', roots)
  {}

  /** The frames a step puts in place of the top one. */
  ghost function NewFrames(g: Graph, s: State, t: nat, stale: bool): seq<Frame>
    requires Fits(g, s) && CanStep(g, s, t)
  {
    var c := Top(s, t).c;
    match Top(s, t).phase
    case Entering => if s.isDisposed[c] && !stale then [] else [Frame(c, Locking)]
    case Locking => [Frame(c, Checking)]
    case Checking => if s.isDisposed[c] then [] else [Frame(c, Marking)]
    case Marking => [Frame(c, Disposing(0))]
    case Disposing(i) =>
      if i == |g[c]| then []
      else if g[c][i].Leaf? then [Frame(c, Disposing(i + 1))]
      else [Frame(c, Disposing(i + 1)), Frame(g[c][i].c, Entering)]
  }

  lemma StepChanges(g: Graph, s: State, t: nat, stale: bool)
    requires Fits(g, s) && CanStep(g, s, t)
    ensures Changed(s, Step(g, s, t, stale), t, Top(s, t).c, NewFrames(g, s, t, stale))
  {}

  lemma StepKeepsWanted(g: Graph, s: State, t: nat, stale: bool, roots: set<nat>)
    requires Inv(g, s) && CanStep(g, s, t) && OnlyWanted(g, s, roots)
    ensures OnlyWanted(g, Step(g, s, t, stale), roots)
  {
    StepChanges(g, s, t, stale);
    var f := Top(s, t);
    forall f' | f' in NewFrames(g, s, t, stale) ensures Wanted(g, roots, f'.c) {
      if f'.c != f.c {
        var r :| r in roots && Under(g, r, f.c);
        UnderHeld(g, r, f.c, f.phase.i);
      }
    }
    FramesWanted(g, s, Step(g, s, t, stale), t, f.c, NewFrames(g, s, t, stale), roots);
  }

  // ---------------------------------------------------------------- runs

  ghost predicate IsRun(g: Graph, s: State, events: seq<Event>)
    requires Inv(g, s)
    decreases |events|
  {
    events == [] ||
    (Possible(g, s, events[0]) &&
     (NextKeeps(g, s, events[0]);
      IsRun(g, Next(g, s, events[0]), events[1..])))
  }

  ghost function After(g: Graph, s: State, events: seq<Event>): State
    requires Inv(g, s) && IsRun(g, s, events)
    decreases |events|
  {
    if events == [] then s
    else
      NextKeeps(g, s, events[0]);
      After(g, Next(g, s, events[0]), events[1..])
  }

  lemma NextKeeps(g: Graph, s: State, event: Event)
    requires Inv(g, s) && Possible(g, s, event)
    ensures Inv(g, Next(g, s, event))
  {
    match event {
      case Call(t, c) => CallKeeps(g, s, t, c);
      case Move(t, stale) => StepKeeps(g, s, t, stale);
    }
  }

  /** Any number of threads, none of which has called Dispose yet. */
  ghost predicate IsStart(g: Graph, s: State) {
    && Acyclic(g) && |s.isDisposed| == |s.owner| == |s.loops| == |g| && s.log == []
    && (forall t :: 0 <= t < |s.stacks| ==> s.stacks[t] == [])
    && (forall c :: 0 <= c < |g| ==> !s.isDisposed[c] && s.owner[c].None? && s.loops[c].NotStarted?)
  }

  lemma StartInv(g: Graph, s: State)
    requires IsStart(g, s)
    ensures Inv(g, s)
  {}

  ghost predicate RunsFrom(g: Graph, start: State, events: seq<Event>) {
    IsStart(g, start) && (StartInv(g, start); IsRun(g, start, events))
  }

  ghost function End(g: Graph, start: State, events: seq<Event>): State
    requires RunsFrom(g, start, events)
  {
    StartInv(g, start);
    After(g, start, events)
  }

  /** The composites Dispose was called for. */
  function Roots(events: seq<Event>): set<nat> {
    if events == [] then {}
    else (if events[0].Call? then {events[0].c} else {}) + Roots(events[1..])
  }

  /** Everything asked for is marked or on its way, and nothing else is. */
  ghost predicate AsAsked(g: Graph, s: State, roots: set<nat>) {
    && Inv(g, s) && OnlyWanted(g, s, roots)
    && forall r :: r in roots ==> r < |g| && MarkedOrSoon(s, r)
  }

  lemma CallAsAsked(g: Graph, s: State, t: nat, c: nat, roots: set<nat>)
    requires AsAsked(g, s, roots) && t < |s.stacks| && s.stacks[t] == [] && c < |g|
    ensures AsAsked(g, Called(g, s, t, c), roots + {c})
  {
    CallKeeps(g, s, t, c);
    CallKeepsWanted(g, s, roots, t, c);
    forall r | r in roots ensures MarkedOrSoon(Called(g, s, t, c), r) {
      CallKeepsSoon(g, s, t, c, r);
    }
  }

  lemma MoveAsAsked(g: Graph, s: State, t: nat, stale: bool, roots: set<nat>)
    requires AsAsked(g, s, roots) && CanStep(g, s, t)
    ensures AsAsked(g, Step(g, s, t, stale), roots)
  {
    StepKeeps(g, s, t, stale);
    StepKeepsWanted(g, s, t, stale, roots);
    forall r | r in roots ensures MarkedOrSoon(Step(g, s, t, stale), r) {
      StepKeepsSoon(g, s, t, stale, r);
    }
  }

  lemma NextAsAsked(g: Graph, s: State, event: Event, roots: set<nat>)
    requires AsAsked(g, s, roots) && Possible(g, s, event)
    ensures AsAsked(g, Next(g, s, event), roots + (if event.Call? then {event.c} else {}))
  {
    match event {
      case Call(t, c) => CallAsAsked(g, s, t, c, roots);
      case Move(t, stale) =>
        MoveAsAsked(g, s, t, stale, roots);
        assert roots + {} == roots;
    }
  }

  lemma {:induction false} RunAsAsked(g: Graph, s: State, events: seq<Event>, roots: set<nat>)
    requires AsAsked(g, s, roots) && IsRun(g, s, events)
    ensures AsAsked(g, After(g, s, events), roots + Roots(events))
    decreases |events|
  {
    if events == [] {
      assert roots + {} == roots;
    } else {
      var more := if events[0].Call? then {events[0].c} else {};
      NextAsAsked(g, s, events[0], roots);
      RunAsAsked(g, Next(g, s, events[0]), events[1..], roots + more);
      assert roots + more + Roots(events[1..]) == roots + Roots(events);
    }
  }

  // ---------------------------------------------------------------- the theorems

  /** No thread is working on c or on anything under it. */
  ghost predicate SettledBelow(g: Graph, s: State, c: nat) {
    forall d :: 0 <= d < |s.loops| && Under(g, c, d) ==> !s.loops[d].At? && !OnItsWay(s, d)
  }

  lemma {:induction false} AllBelowDone(g: Graph, s: State, c: nat, d: nat)
    requires Inv(g, s) && c < |g| && s.isDisposed[c] && SettledBelow(g, s, c) && Under(g, c, d)
    ensures d < |g| && s.loops[d].Over?
    decreases c
  {
    assert Under(g, c, c);
    if d != c {
      var k :| 0 <= k < |g[c]| && g[c][k].Composite? && g[c][k].c < c && Under(g, g[c][k].c, d);
      var inner := g[c][k].c;
      assert IsReached(g, s, c, k) && Under(g, inner, inner) && Under(g, c, inner);
      forall e | 0 <= e < |s.loops| && Under(g, inner, e) ensures !s.loops[e].At? && !OnItsWay(s, e) {
        assert Under(g, c, e);
      }
      AllBelowDone(g, s, inner, d);
    }
  }

  /** In any run, no leaf is disposed twice. */
  lemma NoLeafTwice(g: Graph, s: State, events: seq<Event>)
    requires RunsFrom(g, s, events)
    ensures NoRepeats(End(g, s, events).log)
  {
    StartInv(g, s);
    RunAsAsked(g, s, events, {});
  }

  predicate LeafAt(g: Graph, place: Place) {
    place.c < |g| && place.k < |g[place.c]| && g[place.c][place.k].Leaf?
  }

  /** Once the call that marked c, and those under it, are done, each leaf under c has been disposed, exactly once. */
  lemma WinnersDisposeAll(g: Graph, s: State, c: nat, place: Place)
    requires Inv(g, s) && c < |g| && s.isDisposed[c] && SettledBelow(g, s, c)
    requires Under(g, c, place.c) && LeafAt(g, place)
    ensures place in s.log && NoRepeats(s.log)
  {
    AllBelowDone(g, s, c, place.c);
    assert IsReached(g, s, place.c, place.k);
  }

  ghost predicate Quiet(s: State) {
    forall t :: 0 <= t < |s.stacks| ==> s.stacks[t] == []
  }

  /** When all calls have returned, the leaves disposed are exactly those under the composites disposed of. */
  lemma QuietMeansDisposed(g: Graph, s: State, events: seq<Event>, place: Place)
    requires RunsFrom(g, s, events) && Quiet(End(g, s, events))
    ensures place in End(g, s, events).log <==> LeafAt(g, place) && Wanted(g, Roots(events), place.c)
  {
    StartInv(g, s);
    RunAsAsked(g, s, events, {});
    var s', roots := After(g, s, events), Roots(events);
    assert {} + roots == roots;
    if LeafAt(g, place) && Wanted(g, roots, place.c) {
      var r :| r in roots && Under(g, r, place.c);
      QuietSettled(g, s', r);
      WinnersDisposeAll(g, s', r, place);
    }
    if place in s'.log {
      assert IsReached(g, s', place.c, place.k) && s'.isDisposed[place.c];
    }
  }

  lemma QuietSettled(g: Graph, s: State, c: nat)
    requires Inv(g, s) && Quiet(s)
    ensures SettledBelow(g, s, c) && (MarkedOrSoon(s, c) ==> c < |g| && s.isDisposed[c])
  {}

  /** There is no deadlock: at any point of a run, while some call has not returned, some thread can go on. */
  lemma NoDeadlock(g: Graph, s: State, events: seq<Event>)
    requires RunsFrom(g, s, events) && !Quiet(End(g, s, events))
    ensures Inv(g, End(g, s, events)) && exists t :: CanStep(g, End(g, s, events), t)
  {
    StartInv(g, s);
    RunAsAsked(g, s, events, {});
    var t :| 0 <= t < |End(g, s, events).stacks| && End(g, s, events).stacks[t] != [];
    var t' := SomeThreadCanStep(g, End(g, s, events), t);
  }

  lemma {:induction false} SomeThreadCanStep(g: Graph, s: State, t: nat) returns (t': nat)
    requires Inv(g, s) && Busy(s, t)
    ensures CanStep(g, s, t')
    decreases Top(s, t).c
  {
    if CanStep(g, s, t) {
      return t;
    }
    var c := Top(s, t).c;
    t' := s.owner[c].value;
    var f :| f in s.stacks[t'] && f.c == c && InLock(f);
    if !CanStep(g, s, t') {
      assert f != Top(s, t') && Descending(s.stacks[t']);
      var p :| 0 <= p < |s.stacks[t']| && s.stacks[t'][p] == f;
      assert s.stacks[t'][p].c > s.stacks[t'][|s.stacks[t']| - 1].c;
      t' := SomeThreadCanStep(g, s, t');
    }
  }

  // ---------------------------------------------------------------- every call returns

  /** The most steps a composite's loop takes from its i-th item on, with all the calls it makes. */
  ghost function LoopWork(g: Graph, c: nat, i: nat): (work: nat)
    requires c < |g| && i <= |g[c]|
    decreases c, |g[c]| - i
  {
    if i == |g[c]| then 0
    else (if g[c][i].Composite? && g[c][i].c < c then 6 + LoopWork(g, g[c][i].c, 0) else 1) + LoopWork(g, c, i + 1)
  }

  ghost function FrameWork(g: Graph, f: Frame): nat
    requires FrameFits(g, f)
  {
    match f.phase
    case Entering => 5 + LoopWork(g, f.c, 0)
    case Locking => 4 + LoopWork(g, f.c, 0)
    case Checking => 3 + LoopWork(g, f.c, 0)
    case Marking => 2 + LoopWork(g, f.c, 0)
    case Disposing(i) => 1 + LoopWork(g, f.c, i)
  }

  ghost predicate AllFit(g: Graph, stack: seq<Frame>) {
    forall f :: f in stack ==> FrameFits(g, f)
  }

  ghost function StackWork(g: Graph, stack: seq<Frame>): nat
    requires AllFit(g, stack)
  {
    if stack == [] then 0 else FrameWork(g, stack[0]) + StackWork(g, stack[1..])
  }

  ghost function Work(g: Graph, stacks: seq<seq<Frame>>): nat
    requires forall t :: 0 <= t < |stacks| ==> AllFit(g, stacks[t])
  {
    if stacks == [] then 0 else StackWork(g, stacks[0]) + Work(g, stacks[1..])
  }

  lemma {:induction false} StackWorkPlus(g: Graph, a: seq<Frame>, b: seq<Frame>)
    requires AllFit(g, a) && AllFit(g, b)
    ensures AllFit(g, a + b) && StackWork(g, a + b) == StackWork(g, a) + StackWork(g, b)
  {
    if a == [] {
      assert a + b == b;
    } else {
      assert a[0] in a && (a + b)[1..] == a[1..] + b;
      StackWorkPlus(g, a[1..], b);
    }
  }

  lemma {:induction false} WorkWith(g: Graph, stacks: seq<seq<Frame>>, t: nat, stack: seq<Frame>)
    requires t < |stacks| && AllFit(g, stack) && forall t' :: 0 <= t' < |stacks| ==> AllFit(g, stacks[t'])
    ensures Work(g, stacks[t := stack]) == Work(g, stacks) - StackWork(g, stacks[t]) + StackWork(g, stack)
  {
    var changed := stacks[t := stack];
    if t == 0 {
      assert changed[1..] == stacks[1..];
    } else {
      assert changed[1..] == stacks[1..][t - 1 := stack];
      WorkWith(g, stacks[1..], t - 1, stack);
    }
  }

  lemma NewFramesWork(g: Graph, s: State, t: nat, stale: bool)
    requires Acyclic(g) && Fits(g, s) && CanStep(g, s, t)
    ensures FrameFits(g, Top(s, t)) && AllFit(g, NewFrames(g, s, t, stale))
    ensures StackWork(g, NewFrames(g, s, t, stale)) < FrameWork(g, Top(s, t))
  {
    var c := Top(s, t).c;
    match Top(s, t).phase {
      case Entering => WorkOfOne(g, Frame(c, Locking));
      case Locking => WorkOfOne(g, Frame(c, Checking));
      case Checking => WorkOfOne(g, Frame(c, Marking));
      case Marking => WorkOfOne(g, Frame(c, Disposing(0)));
      case Disposing(i) =>
        if i < |g[c]| {
          WorkOfOne(g, Frame(c, Disposing(i + 1)));
          if g[c][i].Composite? {
            WorkOfTwo(g, Frame(c, Disposing(i + 1)), Frame(g[c][i].c, Entering));
          }
        }
    }
  }

  lemma WorkOfOne(g: Graph, f: Frame)
    requires FrameFits(g, f)
    ensures AllFit(g, [f]) && StackWork(g, [f]) == FrameWork(g, f)
  {}

  lemma WorkOfTwo(g: Graph, f: Frame, inner: Frame)
    requires FrameFits(g, f) && FrameFits(g, inner)
    ensures AllFit(g, [f, inner]) && StackWork(g, [f, inner]) == FrameWork(g, f) + FrameWork(g, inner)
  {
    WorkOfOne(g, inner);
    assert [f, inner][1..] == [inner];
  }

  lemma StepWorks(g: Graph, s: State, t: nat, stale: bool)
    requires Inv(g, s) && CanStep(g, s, t)
    ensures Inv(g, Step(g, s, t, stale)) && Work(g, Step(g, s, t, stale).stacks) < Work(g, s.stacks)
  {
    StepKeeps(g, s, t, stale);
    StepChanges(g, s, t, stale);
    NewFramesWork(g, s, t, stale);
    var stack, frames := s.stacks[t], NewFrames(g, s, t, stale);
    var below, top := Below(s, t), Top(s, t);
    assert stack == below + [top];
    WorkOfOne(g, top);
    StackWorkPlus(g, below, [top]);
    StackWorkPlus(g, below, frames);
    WorkWith(g, s.stacks, t, below + frames);
  }

  function Moves(events: seq<Event>): nat {
    if events == [] then 0 else (if events[0].Move? then 1 else 0) + Moves(events[1..])
  }

  ghost function CallsWork(g: Graph, events: seq<Event>): nat {
    if events == [] then 0
    else (if events[0].Call? && events[0].c < |g| then 5 + LoopWork(g, events[0].c, 0) else 0) + CallsWork(g, events[1..])
  }

  lemma {:induction false} RunWorks(g: Graph, s: State, events: seq<Event>)
    requires Inv(g, s) && IsRun(g, s, events)
    ensures Moves(events) <= Work(g, s.stacks) + CallsWork(g, events)
    decreases |events|
  {
    if events != [] {
      NextKeeps(g, s, events[0]);
      RunWorks(g, Next(g, s, events[0]), events[1..]);
      match events[0] {
        case Call(t, c) =>
          WorkOfOne(g, Frame(c, Entering));
          WorkWith(g, s.stacks, t, [Frame(c, Entering)]);
        case Move(t, stale) => StepWorks(g, s, t, stale);
      }
    }
  }

  lemma {:induction false} NoWorkAtRest(g: Graph, stacks: seq<seq<Frame>>)
    requires forall t :: 0 <= t < |stacks| ==> stacks[t] == []
    ensures Work(g, stacks) == 0
  {
    if stacks != [] {
      NoWorkAtRest(g, stacks[1..]);
    }
  }

  /** However the threads take turns, finitely many calls of Dispose take boundedly many steps: every call returns. */
  lemma StepsBounded(g: Graph, s: State, events: seq<Event>)
    requires RunsFrom(g, s, events)
    ensures Moves(events) <= CallsWork(g, events)
  {
    StartInv(g, s);
    RunWorks(g, s, events);
    NoWorkAtRest(g, s.stacks);
  }
}
