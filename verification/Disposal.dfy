/**
 Composite disposables, disposed by any number of threads at once.  A composite checks whether it has been disposed,
 without its lock and again with it, marks itself, and disposes what it holds while it keeps the lock; what it holds
 can be composites that others hold as well.
 */
module Disposal {
  import opened Sequences
  import opened Wrappers

  /** Something a composite holds: something else, known by its place, or another composite. */
  datatype Item = Leaf | Composite(c: nat)

  /** What each composite holds, in the order it was added.  Contained composites have the lower numbers. */
  type Graph = seq<seq<Item>>

  ghost predicate Acyclic(g: Graph) {
    forall c, k :: 0 <= c < |g| && 0 <= k < |g[c]| && g[c][k].Composite? ==> g[c][k].c < c
  }

  datatype Place = Place(c: nat, k: nat)

  /** Where a call of Dispose is. */
  datatype Phase = Entering | Locking | Checking | Marking | Disposing(i: nat)

  datatype Frame = Frame(c: nat, phase: Phase)

  /** How far the disposal loop of a composite has got; no step looks at it. */
  datatype Loop = NotStarted | At(thread: nat, i: nat) | Over

  datatype State = State(
    stacks: seq<seq<Frame>>,
    isDisposed: seq<bool>,
    owner: seq<Option<nat>>,
    loops: seq<Loop>,
    log: seq<Place>)

  ghost predicate Fits(g: Graph, s: State) {
    && |s.isDisposed| == |s.owner| == |s.loops| == |g|
    && forall t, f :: 0 <= t < |s.stacks| && f in s.stacks[t] ==>
         f.c < |g| && (f.phase.Disposing? ==> f.phase.i <= |g[f.c]|)
  }

  // ---------------------------------------------------------------- the steps

  predicate Busy(s: State, t: nat) {
    t < |s.stacks| && s.stacks[t] != []
  }

  function Top(s: State, t: nat): (f: Frame)
    requires Busy(s, t)
    ensures f in s.stacks[t]
  {
    s.stacks[t][|s.stacks[t]| - 1]
  }

  function Below(s: State, t: nat): seq<Frame>
    requires Busy(s, t)
  {
    s.stacks[t][..|s.stacks[t]| - 1]
  }

  /** s with the top frame of a thread replaced. */
  function Replaced(s: State, t: nat, frames: seq<Frame>): State
    requires Busy(s, t)
  {
    s.(stacks := s.stacks[t := Below(s, t) + frames])
  }

  ghost predicate CanStep(g: Graph, s: State, t: nat)
    requires Fits(g, s)
  {
    && Busy(s, t)
    && (Top(s, t).phase.Locking? ==> s.owner[Top(s, t).c].None? || s.owner[Top(s, t).c] == Some(t))
  }

  function Released(s: State, c: nat): State
    requires c < |s.owner|
  {
    s.(owner := s.owner[c := None])
  }

  /**
   One step of a thread.  The first check is made without the lock, so it may miss that the composite has been disposed:
   stale says whether it does.
   */
  ghost function Step(g: Graph, s: State, t: nat, stale: bool): State
    requires Fits(g, s) && CanStep(g, s, t)
  {
    var c := Top(s, t).c;
    match Top(s, t).phase
    case Entering =>
      if s.isDisposed[c] && !stale then Replaced(s, t, []) else Replaced(s, t, [Frame(c, Locking)])
    case Locking =>
      Replaced(s, t, [Frame(c, Checking)]).(owner := s.owner[c := Some(t)])
    case Checking =>
      if s.isDisposed[c] then Released(Replaced(s, t, []), c) else Replaced(s, t, [Frame(c, Marking)])
    case Marking =>
      Replaced(s, t, [Frame(c, Disposing(0))]).(isDisposed := s.isDisposed[c := true], loops := s.loops[c := At(t, 0)])
    case Disposing(i) =>
      if i == |g[c]| then Released(Replaced(s, t, []), c).(loops := s.loops[c := Over])
      else if g[c][i].Leaf? then
        Replaced(s, t, [Frame(c, Disposing(i + 1))]).(loops := s.loops[c := At(t, i + 1)], log := s.log + [Place(c, i)])
      else
        Replaced(s, t, [Frame(c, Disposing(i + 1)), Frame(g[c][i].c, Entering)]).(loops := s.loops[c := At(t, i + 1)])
  }

  /** A thread that is doing nothing calls Dispose. */
  ghost function Called(g: Graph, s: State, t: nat, c: nat): State
    requires t < |s.stacks|
  {
    s.(stacks := s.stacks[t := [Frame(c, Entering)]])
  }

  // ---------------------------------------------------------------- what every step keeps

  predicate InLock(f: Frame) {
    f.phase.Checking? || f.phase.Marking? || f.phase.Disposing?
  }

  /** What a frame of thread t says about its composite. */
  ghost predicate FrameOk(g: Graph, s: State, t: nat, f: Frame)
    requires Fits(g, s)
  {
    f.c < |g| ==>
      && (InLock(f) ==> s.owner[f.c] == Some(t))
      && (f.phase.Marking? ==> !s.isDisposed[f.c])
      && (f.phase.Disposing? ==> s.loops[f.c] == At(t, f.phase.i))
  }

  ghost predicate FramesOk(g: Graph, s: State)
    requires Fits(g, s)
  {
    forall t, f :: 0 <= t < |s.stacks| && f in s.stacks[t] ==> FrameOk(g, s, t, f)
  }

  /** Nested calls go down in the composites' order, and every call but the last is in its loop. */
  predicate Descending(stack: seq<Frame>) {
    && (forall p, q :: 0 <= p < q < |stack| ==> stack[p].c > stack[q].c)
    && (forall p :: 0 <= p < |stack| - 1 ==> stack[p].phase.Disposing?)
  }

  predicate StacksDescend(s: State) {
    forall t :: 0 <= t < |s.stacks| ==> Descending(s.stacks[t])
  }

  ghost predicate Holds(s: State, t: nat, c: nat) {
    t < |s.stacks| && exists f :: f in s.stacks[t] && f.c == c && InLock(f)
  }

  ghost predicate OwnersHold(s: State) {
    forall c :: 0 <= c < |s.owner| && s.owner[c].Some? ==> Holds(s, s.owner[c].value, c)
  }

  /** A composite is marked exactly when its loop has started; a loop under way has the lock. */
  ghost predicate LoopsOk(g: Graph, s: State)
    requires Fits(g, s)
  {
    forall c :: 0 <= c < |g| ==>
      && (s.isDisposed[c] <==> !s.loops[c].NotStarted?)
      && (s.loops[c].At? ==> s.loops[c].i <= |g[c]| && s.owner[c] == Some(s.loops[c].thread))
  }

  /** A loop under way is run by a call of Dispose. */
  ghost predicate LoopsRun(s: State) {
    forall c :: 0 <= c < |s.loops| && s.loops[c].At? ==> RunBy(s, c, s.loops[c].thread, s.loops[c].i)
  }

  ghost predicate RunBy(s: State, c: nat, t: nat, i: nat) {
    t < |s.stacks| && Frame(c, Disposing(i)) in s.stacks[t]
  }

  /** How many of its items a composite's loop has dealt with, or is dealing with. */
  function Reached(g: Graph, loops: seq<Loop>, c: nat): nat
    requires c < |g| == |loops|
  {
    match loops[c]
    case NotStarted => 0
    case At(_, i) => i
    case Over => |g[c]|
  }

  predicate IsReached(g: Graph, s: State, c: nat, k: nat) {
    c < |g| == |s.loops| && k < |g[c]| && k < Reached(g, s.loops, c)
  }

  /** The leaves disposed are those the loops have reached, each once. */
  ghost predicate LogOk(g: Graph, s: State) {
    && NoRepeats(s.log)
    && forall place: Place :: place in s.log <==> IsReached(g, s, place.c, place.k) && g[place.c][place.k].Leaf?
  }

  /** Some call of Dispose for c is on its way to mark it. */
  ghost predicate OnItsWay(s: State, c: nat) {
    exists t, f :: 0 <= t < |s.stacks| && f in s.stacks[t] && f.c == c && !f.phase.Disposing?
  }

  ghost predicate MarkedOrSoon(s: State, c: nat) {
    (c < |s.isDisposed| && s.isDisposed[c]) || OnItsWay(s, c)
  }

  ghost predicate NestedOk(g: Graph, s: State) {
    forall c: nat, k: nat :: IsReached(g, s, c, k) && g[c][k].Composite? ==> MarkedOrSoon(s, g[c][k].c)
  }

  ghost predicate Inv(g: Graph, s: State) {
    && Acyclic(g) && Fits(g, s) && FramesOk(g, s) && StacksDescend(s) && OwnersHold(s)
    && LoopsOk(g, s) && LoopsRun(s) && LogOk(g, s) && NestedOk(g, s)
  }
}
