/**
 Every interleaving of disposing threads: the invariant, no leaf disposed twice, none forgotten, no deadlock.
 */
module DisposalRuns {
  import opened Wrappers
  import opened Disposal

  // ---------------------------------------------------------------- replacing the top frame

  /** s' has s's stacks with the top frame of thread t, for composite c, replaced, and changes nothing but c's state. */
  ghost predicate Changed(s: State, s': State, t: nat, c: nat, frames: seq<Frame>) {
    && Busy(s, t) && Top(s, t).c == c && s'.stacks == s.stacks[t := Below(s, t) + frames]
    && |s'.isDisposed| == |s.isDisposed| && |s'.owner| == |s.owner| && |s'.loops| == |s.loops|
    && (forall d :: 0 <= d < |s.isDisposed| && d != c ==> s'.isDisposed[d] == s.isDisposed[d])
    && (forall d :: 0 <= d < |s.owner| && d != c ==> s'.owner[d] == s.owner[d])
    && (forall d :: 0 <= d < |s.loops| && d != c ==> s'.loops[d] == s.loops[d])
  }

  /** A frame of s' is one of the new ones, or was there before; below the top, all are for other composites. */
  lemma FrameBefore(s: State, s': State, t: nat, c: nat, frames: seq<Frame>, t': nat, f: Frame)
    requires Changed(s, s', t, c, frames) && StacksDescend(s)
    requires t' < |s'.stacks| && f in s'.stacks[t']
    ensures (t' == t && f in frames) || (f in s.stacks[t'] && (t' == t ==> f.c != c))
  {}

  lemma FrameAfter(s: State, s': State, t: nat, c: nat, frames: seq<Frame>, t': nat, f: Frame)
    requires Changed(s, s', t, c, frames) && t' < |s.stacks|
    requires f in s.stacks[t'] && (t' != t || f != Top(s, t))
    ensures f in s'.stacks[t']
  {}

  lemma NewFrame(s: State, s': State, t: nat, c: nat, frames: seq<Frame>, f: Frame)
    requires Changed(s, s', t, c, frames) && f in frames
    ensures f in s'.stacks[t]
  {}

  // ---------------------------------------------------------------- the parts of the invariant

  ghost predicate FrameFits(g: Graph, f: Frame) {
    f.c < |g| && (f.phase.Disposing? ==> f.phase.i <= |g[f.c]|)
  }

  lemma FitsNext(g: Graph, s: State, s': State, t: nat, c: nat, frames: seq<Frame>)
    requires Fits(g, s) && StacksDescend(s) && Changed(s, s', t, c, frames)
    requires forall f :: f in frames ==> FrameFits(g, f)
    ensures Fits(g, s')
  {}

  lemma FramesOkNext(g: Graph, s: State, s': State, t: nat, c: nat, frames: seq<Frame>)
    requires Fits(g, s) && Fits(g, s') && StacksDescend(s) && FramesOk(g, s) && Changed(s, s', t, c, frames)
    requires forall f :: f in frames ==> FrameOk(g, s', t, f)
    requires s.owner[c].None? || s.owner[c] == Some(t) || SameAt(s, s', c)
    ensures FramesOk(g, s')
  {
    forall t', f | 0 <= t' < |s'.stacks| && f in s'.stacks[t'] ensures FrameOk(g, s', t', f) {
      FrameBefore(s, s', t, c, frames, t', f);
      assert (t' == t && f in frames) || FrameOk(g, s, t', f);
    }
  }

  ghost predicate SameAt(s: State, s': State, c: nat) {
    && c < |s.owner| == |s'.owner| == |s.isDisposed| == |s'.isDisposed| == |s.loops| == |s'.loops|
    && s.owner[c] == s'.owner[c] && s.isDisposed[c] == s'.isDisposed[c] && s.loops[c] == s'.loops[c]
  }

  lemma DescendNext(s: State, s': State, t: nat, c: nat, frames: seq<Frame>)
    requires StacksDescend(s) && Changed(s, s', t, c, frames) && Descending(frames)
    requires forall f :: f in frames ==> f.c <= c
    ensures StacksDescend(s')
  {}

  lemma OwnersNext(s: State, s': State, t: nat, c: nat, frames: seq<Frame>)
    requires OwnersHold(s) && Changed(s, s', t, c, frames) && c < |s.owner|
    requires s'.owner[c].Some? ==> Holds(s', s'.owner[c].value, c)
    ensures OwnersHold(s')
  {}

  lemma HoldsStill(s: State, s': State, t: nat, c: nat, frames: seq<Frame>, t': nat, d: nat)
    requires Changed(s, s', t, c, frames) && Holds(s, t', d) && (d == c ==> !InLock(Top(s, t)))
    ensures Holds(s', t', d)
  {}

  lemma LoopsRunNext(s: State, s': State, t: nat, c: nat, frames: seq<Frame>)
    requires LoopsRun(s) && Changed(s, s', t, c, frames) && c < |s.loops|
    requires s'.loops[c].At? ==> RunBy(s', c, s'.loops[c].thread, s'.loops[c].i)
    ensures LoopsRun(s')
  {}

  /** While a composite's top frame is not in its loop, nor is any other frame of that thread. */
  lemma NotLooping(s: State, t: nat, f: Frame)
    requires StacksDescend(s) && Busy(s, t) && f in s.stacks[t] && f.c == Top(s, t).c
    ensures f == Top(s, t)
  {}

  lemma SoonStill(s: State, s': State, t: nat, c: nat, frames: seq<Frame>, d: nat)
    requires Changed(s, s', t, c, frames) && MarkedOrSoon(s, d)
    requires MarkedOrSoon(s', c)
    ensures MarkedOrSoon(s', d)
  {
    if d != c && !(d < |s.isDisposed| && s.isDisposed[d]) {
      var t', f :| 0 <= t' < |s.stacks| && f in s.stacks[t'] && f.c == d && !f.phase.Disposing?;
      FrameAfter(s, s', t, c, frames, t', f);
    }
  }

  lemma SoonByFrame(s: State, t: nat, f: Frame)
    requires t < |s.stacks| && f in s.stacks[t] && !f.phase.Disposing?
    ensures OnItsWay(s, f.c)
  {}

  /** Steps that let no loop advance. */
  ghost predicate SameReach(g: Graph, s: State, s': State) {
    && |s.loops| == |s'.loops| == |g| && s'.log == s.log
    && forall c :: 0 <= c < |g| ==> Reached(g, s'.loops, c) == Reached(g, s.loops, c)
  }

  lemma LogSame(g: Graph, s: State, s': State)
    requires LogOk(g, s) && SameReach(g, s, s')
    ensures LogOk(g, s')
  {}

  lemma NestedSame(g: Graph, s: State, s': State, t: nat, c: nat, frames: seq<Frame>)
    requires NestedOk(g, s) && SameReach(g, s, s') && Changed(s, s', t, c, frames) && MarkedOrSoon(s', c)
    ensures NestedOk(g, s')
  {
    forall d: nat, k: nat | IsReached(g, s', d, k) && g[d][k].Composite? ensures MarkedOrSoon(s', g[d][k].c) {
      assert IsReached(g, s, d, k);
      SoonStill(s, s', t, c, frames, g[d][k].c);
    }
  }

  // ---------------------------------------------------------------- the steps

  /** The thread's call returns: the composite is marked. */
  lemma ReturnKeeps(g: Graph, s: State, s': State, t: nat, c: nat)
    requires Inv(g, s) && Busy(s, t) && Top(s, t) == Frame(c, Entering) && s.isDisposed[c]
    requires s' == Replaced(s, t, [])
    ensures Inv(g, s')
  {
    FitsNext(g, s, s', t, c, []);
    FramesOkNext(g, s, s', t, c, []);
    DescendNext(s, s', t, c, []);
    if s.owner[c].Some? {
      HoldsStill(s, s', t, c, [], s.owner[c].value, c);
    }
    OwnersNext(s, s', t, c, []);
    if s.loops[c].At? {
      FrameAfter(s, s', t, c, [], s.loops[c].thread, Frame(c, Disposing(s.loops[c].i)));
    }
    LoopsRunNext(s, s', t, c, []);
    LogSame(g, s, s');
    NestedSame(g, s, s', t, c, []);
  }

  lemma PassKeeps(g: Graph, s: State, s': State, t: nat, c: nat, f: Frame)
    requires Inv(g, s) && Busy(s, t) && Top(s, t) == Frame(c, Entering) && f == Frame(c, Locking)
    requires s' == Replaced(s, t, [f])
    ensures Inv(g, s')
  {
    FitsNext(g, s, s', t, c, [f]);
    FramesOkNext(g, s, s', t, c, [f]);
    DescendNext(s, s', t, c, [f]);
    if s.owner[c].Some? {
      HoldsStill(s, s', t, c, [f], s.owner[c].value, c);
    }
    OwnersNext(s, s', t, c, [f]);
    if s.loops[c].At? {
      FrameAfter(s, s', t, c, [f], s.loops[c].thread, Frame(c, Disposing(s.loops[c].i)));
    }
    LoopsRunNext(s, s', t, c, [f]);
    LogSame(g, s, s');
    NewFrame(s, s', t, c, [f], f);
    SoonByFrame(s', t, f);
    NestedSame(g, s, s', t, c, [f]);
  }

  lemma LockKeeps(g: Graph, s: State, s': State, t: nat, c: nat, f: Frame)
    requires Inv(g, s) && Busy(s, t) && Top(s, t) == Frame(c, Locking) && f == Frame(c, Checking)
    requires s.owner[c].None? || s.owner[c] == Some(t)
    requires s' == Replaced(s, t, [f]).(owner := s.owner[c := Some(t)])
    ensures Inv(g, s')
  {
    FitsNext(g, s, s', t, c, [f]);
    FramesOkNext(g, s, s', t, c, [f]);
    DescendNext(s, s', t, c, [f]);
    NewFrame(s, s', t, c, [f], f);
    assert Holds(s', t, c);
    OwnersNext(s, s', t, c, [f]);
    LoopsRunNext(s, s', t, c, [f]);
    LogSame(g, s, s');
    SoonByFrame(s', t, f);
    NestedSame(g, s, s', t, c, [f]);
  }

  lemma FoundKeeps(g: Graph, s: State, s': State, t: nat, c: nat)
    requires Inv(g, s) && Busy(s, t) && Top(s, t) == Frame(c, Checking) && s.isDisposed[c]
    requires s' == Released(Replaced(s, t, []), c)
    ensures Inv(g, s')
  {
    assert FrameOk(g, s, t, Top(s, t));
    if s.loops[c].At? {
      NotLooping(s, t, Frame(c, Disposing(s.loops[c].i)));
    }
    FitsNext(g, s, s', t, c, []);
    FramesOkNext(g, s, s', t, c, []);
    DescendNext(s, s', t, c, []);
    OwnersNext(s, s', t, c, []);
    LoopsRunNext(s, s', t, c, []);
    LogSame(g, s, s');
    NestedSame(g, s, s', t, c, []);
  }

  lemma CheckedKeeps(g: Graph, s: State, s': State, t: nat, c: nat, f: Frame)
    requires Inv(g, s) && Busy(s, t) && Top(s, t) == Frame(c, Checking) && !s.isDisposed[c] && f == Frame(c, Marking)
    requires s' == Replaced(s, t, [f])
    ensures Inv(g, s')
  {
    assert FrameOk(g, s, t, Top(s, t));
    FitsNext(g, s, s', t, c, [f]);
    FramesOkNext(g, s, s', t, c, [f]);
    DescendNext(s, s', t, c, [f]);
    NewFrame(s, s', t, c, [f], f);
    assert Holds(s', t, c);
    OwnersNext(s, s', t, c, [f]);
    LoopsRunNext(s, s', t, c, [f]);
    LogSame(g, s, s');
    SoonByFrame(s', t, f);
    NestedSame(g, s, s', t, c, [f]);
  }

  lemma MarkKeeps(g: Graph, s: State, s': State, t: nat, c: nat, f: Frame)
    requires Inv(g, s) && Busy(s, t) && Top(s, t) == Frame(c, Marking) && f == Frame(c, Disposing(0))
    requires s' == Replaced(s, t, [f]).(isDisposed := s.isDisposed[c := true], loops := s.loops[c := At(t, 0)])
    ensures Inv(g, s')
  {
    assert FrameOk(g, s, t, Top(s, t));
    FitsNext(g, s, s', t, c, [f]);
    FramesOkNext(g, s, s', t, c, [f]);
    DescendNext(s, s', t, c, [f]);
    NewFrame(s, s', t, c, [f], f);
    assert Holds(s', t, c);
    OwnersNext(s, s', t, c, [f]);
    LoopsRunNext(s, s', t, c, [f]);
    LogSame(g, s, s');
    NestedSame(g, s, s', t, c, [f]);
  }

  lemma FinishKeeps(g: Graph, s: State, s': State, t: nat, c: nat)
    requires Inv(g, s) && Busy(s, t) && c < |g| && Top(s, t) == Frame(c, Disposing(|g[c]|))
    requires s' == Released(Replaced(s, t, []), c).(loops := s.loops[c := Over])
    ensures Inv(g, s')
  {
    assert FrameOk(g, s, t, Top(s, t));
    FitsNext(g, s, s', t, c, []);
    FramesOkNext(g, s, s', t, c, []);
    DescendNext(s, s', t, c, []);
    OwnersNext(s, s', t, c, []);
    LoopsRunNext(s, s', t, c, []);
    LogSame(g, s, s');
    NestedSame(g, s, s', t, c, []);
  }

  // ---------------------------------------------------------------- the loop advances

  lemma LogAdvances(g: Graph, s: State, s': State, c: nat, i: nat)
    requires LogOk(g, s) && |s.loops| == |s'.loops| == |g| && c < |g| && i < |g[c]| && g[c][i].Leaf?
    requires Reached(g, s.loops, c) == i && Reached(g, s'.loops, c) == i + 1
    requires forall d :: 0 <= d < |g| && d != c ==> s'.loops[d] == s.loops[d]
    requires s'.log == s.log + [Place(c, i)]
    ensures LogOk(g, s')
  {}

  lemma NestedLeaf(g: Graph, s: State, s': State, t: nat, c: nat, i: nat, frames: seq<Frame>)
    requires NestedOk(g, s) && |s.loops| == |s'.loops| == |g| && c < |g| && i < |g[c]|
    requires Changed(s, s', t, c, frames) && MarkedOrSoon(s', c)
    requires Reached(g, s.loops, c) == i && Reached(g, s'.loops, c) == i + 1
    requires g[c][i].Composite? ==> MarkedOrSoon(s', g[c][i].c)
    ensures NestedOk(g, s')
  {
    forall d: nat, k: nat | IsReached(g, s', d, k) && g[d][k].Composite? ensures MarkedOrSoon(s', g[d][k].c) {
      if d != c || k < i {
        assert IsReached(g, s, d, k);
        SoonStill(s, s', t, c, frames, g[d][k].c);
      }
    }
  }

  lemma LeafKeeps(g: Graph, s: State, s': State, t: nat, c: nat, i: nat, f: Frame)
    requires Inv(g, s) && Busy(s, t) && Top(s, t) == Frame(c, Disposing(i)) && f == Frame(c, Disposing(i + 1))
    requires c < |g| && i < |g[c]| && g[c][i].Leaf?
    requires s' == Replaced(s, t, [f]).(loops := s.loops[c := At(t, i + 1)], log := s.log + [Place(c, i)])
    ensures Inv(g, s')
  {
    assert FrameOk(g, s, t, Top(s, t));
    FitsNext(g, s, s', t, c, [f]);
    FramesOkNext(g, s, s', t, c, [f]);
    DescendNext(s, s', t, c, [f]);
    NewFrame(s, s', t, c, [f], f);
    assert Holds(s', t, c);
    OwnersNext(s, s', t, c, [f]);
    LoopsRunNext(s, s', t, c, [f]);
    LogAdvances(g, s, s', c, i);
    NestedLeaf(g, s, s', t, c, i, [f]);
  }

  lemma NestedKeeps(g: Graph, s: State, s': State, t: nat, c: nat, i: nat, f: Frame, inner: Frame)
    requires Inv(g, s) && Busy(s, t) && Top(s, t) == Frame(c, Disposing(i)) && f == Frame(c, Disposing(i + 1))
    requires c < |g| && i < |g[c]| && g[c][i].Composite? && inner == Frame(g[c][i].c, Entering)
    requires s' == Replaced(s, t, [f, inner]).(loops := s.loops[c := At(t, i + 1)])
    ensures Inv(g, s')
  {
    assert FrameOk(g, s, t, Top(s, t));
    FitsNext(g, s, s', t, c, [f, inner]);
    FramesOkNext(g, s, s', t, c, [f, inner]);
    DescendNext(s, s', t, c, [f, inner]);
    NewFrame(s, s', t, c, [f, inner], f);
    assert Holds(s', t, c);
    OwnersNext(s, s', t, c, [f, inner]);
    LoopsRunNext(s, s', t, c, [f, inner]);
    NestedLog(g, s, s', c, i);
    NewFrame(s, s', t, c, [f, inner], inner);
    SoonByFrame(s', t, inner);
    NestedLeaf(g, s, s', t, c, i, [f, inner]);
  }

  lemma NestedLog(g: Graph, s: State, s': State, c: nat, i: nat)
    requires LogOk(g, s) && |s.loops| == |s'.loops| == |g| && c < |g| && i < |g[c]| && g[c][i].Composite?
    requires Reached(g, s.loops, c) == i && Reached(g, s'.loops, c) == i + 1
    requires forall d :: 0 <= d < |g| && d != c ==> s'.loops[d] == s.loops[d]
    requires s'.log == s.log
    ensures LogOk(g, s')
  {}

  lemma StepKeeps(g: Graph, s: State, t: nat, stale: bool)
    requires Inv(g, s) && CanStep(g, s, t)
    ensures Inv(g, Step(g, s, t, stale))
  {
    var c, s' := Top(s, t).c, Step(g, s, t, stale);
    match Top(s, t).phase {
      case Entering =>
        if s.isDisposed[c] && !stale {
          ReturnKeeps(g, s, s', t, c);
        } else {
          PassKeeps(g, s, s', t, c, Frame(c, Locking));
        }
      case Locking => LockKeeps(g, s, s', t, c, Frame(c, Checking));
      case Checking =>
        if s.isDisposed[c] { FoundKeeps(g, s, s', t, c); } else { CheckedKeeps(g, s, s', t, c, Frame(c, Marking)); }
      case Marking => MarkKeeps(g, s, s', t, c, Frame(c, Disposing(0)));
      case Disposing(i) =>
        if i == |g[c]| {
          FinishKeeps(g, s, s', t, c);
        } else if g[c][i].Leaf? {
          LeafKeeps(g, s, s', t, c, i, Frame(c, Disposing(i + 1)));
        } else {
          NestedKeeps(g, s, s', t, c, i, Frame(c, Disposing(i + 1)), Frame(g[c][i].c, Entering));
        }
    }
  }
}
