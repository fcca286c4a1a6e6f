/**
 Whole runs of the validator: fields checked, forms submitted, answers arriving in any order or never, and calls of
 stopRequest that match no request.
 */
module RemoteRuns {
  import opened RemoteValidator

  datatype Event =
    | CheckField(e: Element)
    | CheckAll(elements: seq<Element>)
    | Cancel
    | Submit(elements: seq<Element>)
    | Response(name: string, valid: bool, elements: seq<Element>)
    | Stray(name: string, valid: bool, elements: seq<Element>)

  /** Only a request that is under way can be answered. */
  predicate Possible(s: State, event: Event) {
    event.Response? ==> event.name in s.inFlight
  }

  function Next(s: State, event: Event): State {
    match event
    case CheckField(e) => Checked(s, e)
    case CheckAll(elements) => Form(s, elements).0
    case Cancel => s.(cancelSubmit := true)
    case Submit(elements) => Submitted(s, elements)
    case Response(name, valid, elements) => Answered(s, name, valid, elements)
    case Stray(name, valid, elements) => Stopped(s, name, valid, elements)
  }

  predicate IsRun(s: State, events: seq<Event>)
    decreases |events|
  {
    events == [] || (Possible(s, events[0]) && IsRun(Next(s, events[0]), events[1..]))
  }

  function After(s: State, events: seq<Event>): State
    decreases |events|
  {
    if events == [] then s else After(Next(s, events[0]), events[1..])
  }

  const START := ValidatorState({}, 0, false, false, map[], {}, [])

  // ---------------------------------------------------------------- the counter

  /** In any run: the counter is from zero to the number of names pending, and each of those has a request. */
  predicate Bounded(s: State) {
    0 <= s.pendingRequest <= |s.pending| && s.pending <= s.inFlight
  }

  /** While every stop matches a request: the counter counts the names pending, which are those with a request. */
  predicate Exact(s: State) {
    s.pendingRequest == |s.pending| && s.pending == s.inFlight
  }

  /** A submit that was validated went through with the counter at zero. */
  predicate HandledAtZero(handled: seq<Handling>) {
    forall i :: 0 <= i < |handled| ==> !handled[i].cancelled ==> handled[i].pendingRequest == 0
  }

  /** A submit that was validated went through with no request under way. */
  predicate HandledAlone(handled: seq<Handling>) {
    forall i :: 0 <= i < |handled| ==> !handled[i].cancelled ==> handled[i].inFlight == {}
  }

  predicate Sound(s: State) {
    Bounded(s) && HandledAtZero(s.handled)
  }

  predicate Strict(s: State) {
    Exact(s) && HandledAlone(s.handled)
  }

  /** One invariant or the other, as the runs allow stray stops or not. */
  predicate Invariant(s: State, stray: bool) {
    if stray then Sound(s) else Strict(s)
  }

  lemma CheckedKeeps(s: State, e: Element, stray: bool)
    requires Invariant(s, stray)
    ensures Invariant(Checked(s, e), stray)
  {}

  lemma {:induction false} FormKeeps(s: State, elements: seq<Element>, stray: bool)
    requires Invariant(s, stray)
    ensures Invariant(Form(s, elements).0, stray)
    decreases |elements|
  {
    if elements != [] {
      CheckedKeeps(s, elements[0], stray);
      FormKeeps(Checked(s, elements[0]), elements[1..], stray);
    }
  }

  lemma HandleKeeps(s: State, cancelled: bool, stray: bool)
    requires Invariant(s, stray) && (!cancelled ==> s.pendingRequest == 0)
    ensures Invariant(Handle(s, cancelled), stray)
  {}

  lemma SubmittedKeeps(s: State, elements: seq<Element>, stray: bool)
    requires Invariant(s, stray)
    ensures Invariant(Submitted(s, elements), stray)
  {
    if s.cancelSubmit {
      HandleKeeps(s.(cancelSubmit := false), true, stray);
    } else {
      FormKeeps(s, elements, stray);
      var t := Form(s, elements).0;
      if t.pendingRequest == 0 {
        HandleKeeps(t, false, stray);
      }
    }
  }

  lemma RestOfStopKeeps(s: State, name: string, valid: bool, elements: seq<Element>, stray: bool)
    requires Invariant(Released(s, name), stray)
    ensures Invariant(Stopped(s, name, valid, elements), stray)
  {
    var t := Released(s, name);
    if t.pendingRequest == 0 && t.formSubmitted && valid {
      FormKeeps(t, elements, stray);
      SubmittedKeeps(Form(t, elements).0, elements, stray);
    }
  }

  lemma ReleasedStaysSound(s: State, name: string)
    requires Sound(s)
    ensures Sound(Released(s, name))
  {}

  lemma NotedReleased(s: State, name: string, valid: bool, stray: bool)
    requires Invariant(s, stray) && name in s.inFlight
    ensures Invariant(Released(Noted(s, name, valid), name), stray)
  {}

  lemma NextKeeps(s: State, event: Event, stray: bool)
    requires Invariant(s, stray) && Possible(s, event) && (stray || Harmless(s, event))
    ensures Invariant(Next(s, event), stray)
  {
    match event {
      case CheckField(e) => CheckedKeeps(s, e, stray);
      case CheckAll(elements) => FormKeeps(s, elements, stray);
      case Cancel =>
      case Submit(elements) => SubmittedKeeps(s, elements, stray);
      case Response(name, valid, elements) =>
        NotedReleased(s, name, valid, stray);
        RestOfStopKeeps(Noted(s, name, valid), name, valid, elements, stray);
      case Stray(name, valid, elements) =>
        if stray {
          ReleasedStaysSound(s, name);
        } else {
          assert s.pending - {name} == {};
        }
        RestOfStopKeeps(s, name, valid, elements, stray);
    }
  }

  lemma {:induction false} RunKeeps(s: State, events: seq<Event>, stray: bool)
    requires Invariant(s, stray) && IsRun(s, events)
    requires stray || AllHarmless(s, events)
    ensures Invariant(After(s, events), stray)
    decreases |events|
  {
    if events != [] {
      NextKeeps(s, events[0], stray);
      RunKeeps(Next(s, events[0]), events[1..], stray);
    }
  }

  /** A stray stop that finds nothing pending. */
  predicate Harmless(s: State, event: Event) {
    event.Stray? ==> s.pending == {}
  }

  predicate AllHarmless(s: State, events: seq<Event>)
    decreases |events|
  {
    events == [] || (Harmless(s, events[0]) && AllHarmless(Next(s, events[0]), events[1..]))
  }

  /** Any other stray stop puts the counter wrong, or forgets the name of a request that is under way. */
  lemma HarmlessIff(s: State, name: string)
    requires Exact(s)
    ensures Exact(Released(s, name)) <==> s.pending == {}
  {
    if name in s.pending {
      assert name !in Released(s, name).pending;
    } else {
      assert s.pending - {name} == s.pending;
    }
  }

  /** With stray stops anywhere, the counter stays between zero and the number of names pending. */
  lemma AnyRunBounded(events: seq<Event>)
    requires IsRun(START, events)
    ensures Bounded(After(START, events)) && HandledAtZero(After(START, events).handled)
  {
    RunKeeps(START, events, true);
  }

  /**
   Without them, or where they find nothing pending, it is the number of names pending, these are the requests under
   way, and a validated submit goes through only when there is none.
   */
  lemma MatchedRunExact(events: seq<Event>)
    requires IsRun(START, events) && AllHarmless(START, events)
    ensures Exact(After(START, events)) && HandledAlone(After(START, events).handled)
  {
    RunKeeps(START, events, false);
  }

  // ---------------------------------------------------------------- validating twice

  predicate DistinctNames(elements: seq<Element>) {
    forall i, j :: 0 <= i < j < |elements| ==> elements[i].name != elements[j].name
  }

  /** Two states in which the check of a field goes the same way. */
  predicate SameFor(s: State, t: State, name: string) {
    && (name in s.pending <==> name in t.pending)
    && (name in s.previous <==> name in t.previous)
    && (name in s.previous ==> s.previous[name] == t.previous[name])
  }

  lemma CheckedElsewhere(s: State, e: Element, name: string)
    requires e.name != name
    ensures SameFor(s, Checked(s, e), name)
  {}

  predicate Others(name: string, elements: seq<Element>) {
    forall i :: 0 <= i < |elements| ==> elements[i].name != name
  }

  lemma {:induction false} FormElsewhere(s: State, elements: seq<Element>, name: string)
    requires Others(name, elements)
    ensures SameFor(s, Form(s, elements).0, name)
    decreases |elements|
  {
    if elements != [] {
      CheckedElsewhere(s, elements[0], name);
      FormElsewhere(Checked(s, elements[0]), elements[1..], name);
    }
  }

  /** After its check a field is settled: checking it again changes nothing and gives the same verdict. */
  predicate Settled(s: State, e: Element) {
    !Fresh(s, e)
  }

  lemma CheckedSettles(s: State, e: Element)
    ensures Settled(Checked(s, e), e) && Passes(Checked(s, e), e) == Passes(s, e)
  {}

  lemma {:induction false} FormSettled(s: State, elements: seq<Element>)
    requires forall i :: 0 <= i < |elements| ==> Settled(s, elements[i])
    ensures Form(s, elements).0 == s
    ensures Form(s, elements).1 <==> forall i :: 0 <= i < |elements| ==> Passes(s, elements[i])
    decreases |elements|
  {
    if elements != [] {
      FormSettled(s, elements[1..]);
      assert forall i :: 1 <= i < |elements| ==> elements[i] == elements[1..][i - 1];
    }
  }

  lemma SameVerdict(s: State, t: State, e: Element)
    requires SameFor(s, t, e.name)
    ensures Fresh(s, e) == Fresh(t, e) && Passes(s, e) == Passes(t, e)
  {}

  lemma HeadAfterForm(s: State, elements: seq<Element>)
    requires elements != [] && DistinctNames(elements)
    ensures Settled(Form(s, elements).0, elements[0])
    ensures Passes(Form(s, elements).0, elements[0]) == Passes(s, elements[0])
  {
    var e, t := elements[0], Checked(s, elements[0]);
    assert Others(e.name, elements[1..]);
    FormElsewhere(t, elements[1..], e.name);
    CheckedSettles(s, e);
    SameVerdict(t, Form(s, elements).0, e);
  }

  /** A form's verdict on a field depends only on the state before, and the form leaves every field settled. */
  lemma {:induction false} FormPointwise(s: State, elements: seq<Element>, i: nat)
    requires DistinctNames(elements) && i < |elements|
    ensures Settled(Form(s, elements).0, elements[i])
    ensures Passes(Form(s, elements).0, elements[i]) == Passes(s, elements[i])
    decreases |elements|
  {
    if i == 0 {
      HeadAfterForm(s, elements);
    } else {
      var t := Checked(s, elements[0]);
      FormPointwise(t, elements[1..], i - 1);
      CheckedElsewhere(s, elements[0], elements[i].name);
      SameVerdict(s, t, elements[i]);
    }
  }

  lemma {:induction false} FormVerdict(s: State, elements: seq<Element>)
    requires DistinctNames(elements)
    ensures Form(s, elements).1 <==> forall i :: 0 <= i < |elements| ==> Passes(s, elements[i])
    decreases |elements|
  {
    if elements != [] {
      var t := Checked(s, elements[0]);
      FormVerdict(t, elements[1..]);
      forall i | 1 <= i < |elements| ensures Passes(s, elements[i]) == Passes(t, elements[1..][i - 1]) {
        CheckedElsewhere(s, elements[0], elements[i].name);
        SameVerdict(s, t, elements[i]);
      }
    }
  }

  /** Validating the form again, with nothing changed between, sends nothing and gives the same verdict. */
  lemma FormTwice(s: State, elements: seq<Element>)
    requires DistinctNames(elements)
    ensures Form(Form(s, elements).0, elements) == Form(s, elements)
  {
    var t := Form(s, elements).0;
    forall i | 0 <= i < |elements|
      ensures Settled(t, elements[i]) && Passes(t, elements[i]) == Passes(s, elements[i])
    {
      FormPointwise(s, elements, i);
    }
    FormSettled(t, elements);
    FormVerdict(s, elements);
  }

  // ---------------------------------------------------------------- the submit that was put off

  predicate AllPass(s: State, elements: seq<Element>) {
    forall i :: 0 <= i < |elements| ==> Passes(s, elements[i])
  }

  /** Validating the form now would send a request. */
  predicate WouldSend(s: State, elements: seq<Element>) {
    exists i :: 0 <= i < |elements| && Fresh(s, elements[i])
  }

  lemma {:induction false} FormSends(s: State, elements: seq<Element>, i: nat)
    requires DistinctNames(elements) && i < |elements| && Fresh(s, elements[i])
    ensures elements[i].name in Form(s, elements).0.pending
    decreases |elements|
  {
    var t := Checked(s, elements[0]);
    if i == 0 {
      FormElsewhere(t, elements[1..], elements[0].name);
    } else {
      CheckedElsewhere(s, elements[0], elements[i].name);
      SameVerdict(s, t, elements[i]);
      FormSends(t, elements[1..], i - 1);
    }
  }

  lemma CountAfterForm(s: State, elements: seq<Element>)
    requires DistinctNames(elements) && Strict(s) && s.pending == {}
    ensures Form(s, elements).0.pendingRequest != 0 <==> WouldSend(s, elements)
    ensures Form(s, elements).0.inFlight != {} <==> WouldSend(s, elements)
  {
    FormKeeps(s, elements, false);
    var t := Form(s, elements).0;
    if WouldSend(s, elements) {
      var i :| 0 <= i < |elements| && Fresh(s, elements[i]);
      FormSends(s, elements, i);
      assert t.pending != {};
    } else {
      FormSettled(s, elements);
    }
  }

  datatype Fate = Through | Lost | Kept

  /** What has become of a submit that was put off, as the state shows it. */
  function FateOf(before: State, after: State): Fate {
    if |after.handled| > |before.handled| then Through else if after.formSubmitted then Kept else Lost
  }

  lemma ResubmittedFate(s: State, elements: seq<Element>)
    requires DistinctNames(elements) && Strict(s) && s.pending == {} && s.formSubmitted && !s.cancelSubmit
    ensures FateOf(s, Resubmitted(s, elements))
         == if !AllPass(s, elements) then Kept else if WouldSend(s, elements) then Lost else Through
    ensures FateOf(s, Resubmitted(s, elements)) == Lost ==> Resubmitted(s, elements).inFlight != {}
  {
    var (t, valid) := Form(s, elements);
    FormVerdict(s, elements);
    FormTwice(s, elements);
    FormKeepsHandled(s, elements);
    CountAfterForm(s, elements);
  }

  /**
   The good answer to the last request makes the submit again.  It goes through exactly when every field then passes
   and none needs a new request.  If one does, the submit is lost: the request is sent, but nothing remembers that a
   submit waits for it.  If a field fails, the submit stays put off.
   */
  lemma LastAnswer(s: State, name: string, elements: seq<Element>)
    requires Strict(s) && s.inFlight == {name} && s.formSubmitted && !s.cancelSubmit && DistinctNames(elements)
    ensures
      var answered, after := Noted(s, name, true).(pending := {}), Answered(s, name, true, elements);
      && FateOf(s, after)
         == (if !AllPass(answered, elements) then Kept else if WouldSend(answered, elements) then Lost else Through)
      && (FateOf(s, after) == Lost ==> after.inFlight != {})
  {
    var t := Released(Noted(s, name, true), name);
    NotedReleased(s, name, true, false);
    assert s.pending == {name} && |s.pending| == 1;
    assert t.pending == {} && t.pendingRequest == 0;
    ResubmittedFate(t, elements);
    SameStates(Noted(s, name, true).(pending := {}), t, elements);
  }

  lemma SameStates(s: State, t: State, elements: seq<Element>)
    requires s.pending == t.pending && s.previous == t.previous
    ensures AllPass(s, elements) == AllPass(t, elements) && WouldSend(s, elements) == WouldSend(t, elements)
  {}

  // ---------------------------------------------------------------- exactly when a submit goes through

  /** Checking a field never lowers the counter, and raises it when a request is sent. */
  lemma CheckedCounts(s: State, e: Element)
    ensures Checked(s, e).pendingRequest == s.pendingRequest + if Fresh(s, e) then 1 else 0
  {}

  lemma {:induction false} FormCounts(s: State, elements: seq<Element>)
    ensures Form(s, elements).0.pendingRequest >= s.pendingRequest
    decreases |elements|
  {
    if elements != [] {
      CheckedCounts(s, elements[0]);
      FormCounts(Checked(s, elements[0]), elements[1..]);
    }
  }

  lemma {:induction false} FormCountsMore(s: State, elements: seq<Element>, i: nat)
    requires DistinctNames(elements) && i < |elements| && Fresh(s, elements[i])
    ensures Form(s, elements).0.pendingRequest > s.pendingRequest
    decreases |elements|
  {
    var t := Checked(s, elements[0]);
    CheckedCounts(s, elements[0]);
    if i == 0 {
      FormCounts(t, elements[1..]);
    } else {
      CheckedElsewhere(s, elements[0], elements[i].name);
      SameVerdict(s, t, elements[i]);
      FormCountsMore(t, elements[1..], i - 1);
    }
  }

  /** The counter is at zero after a validation exactly when it was before, and nothing has been sent. */
  lemma FormAtZero(s: State, elements: seq<Element>)
    requires DistinctNames(elements) && 0 <= s.pendingRequest
    ensures Form(s, elements).0.pendingRequest == 0 <==> s.pendingRequest == 0 && !WouldSend(s, elements)
    ensures !WouldSend(s, elements) ==> Form(s, elements).0 == s
  {
    FormCounts(s, elements);
    if WouldSend(s, elements) {
      var i :| 0 <= i < |elements| && Fresh(s, elements[i]);
      FormCountsMore(s, elements, i);
    } else {
      FormSettled(s, elements);
    }
  }

  /** What can be asked before a submit: every field passes, nothing would be sent, and nothing is counted as pending. */
  predicate Ready(s: State, elements: seq<Element>) {
    AllPass(s, elements) && !WouldSend(s, elements) && s.pendingRequest == 0
  }

  /** A validated submit goes through exactly when the form is ready; what is under way then stays under way. */
  lemma ThroughIffReady(s: State, elements: seq<Element>)
    requires DistinctNames(elements) && 0 <= s.pendingRequest && !s.cancelSubmit
    ensures
      Submitted(s, elements).handled
      == if Ready(s, elements) then s.handled + [Handling(false, 0, s.inFlight)] else s.handled
  {
    FormVerdict(s, elements);
    FormAtZero(s, elements);
    FormKeepsHandled(s, elements);
  }

  /** A validated submit has gone through although a request is under way. */
  predicate WentTooEarly(before: State, after: State) {
    |after.handled| > |before.handled| && var h := after.handled[|after.handled| - 1]; !h.cancelled && h.inFlight != {}
  }

  /** Exactly when the user's submit goes through too early. */
  lemma TooEarlyIff(s: State, elements: seq<Element>)
    requires DistinctNames(elements) && 0 <= s.pendingRequest && !s.cancelSubmit
    ensures WentTooEarly(s, Submitted(s, elements)) <==> Ready(s, elements) && s.inFlight != {}
  {
    ThroughIffReady(s, elements);
  }

  /** Exactly when stopRequest sends a deferred submit through, and through too early; the stop may be stray or not. */
  lemma StopTooEarlyIff(s: State, name: string, valid: bool, elements: seq<Element>)
    requires DistinctNames(elements) && 0 <= s.pendingRequest && !s.cancelSubmit
    ensures
      var t, after := Released(s, name), Stopped(s, name, valid, elements);
      && (|after.handled| > |s.handled| <==> valid && s.formSubmitted && Ready(t, elements))
      && (WentTooEarly(s, after) <==> valid && s.formSubmitted && Ready(t, elements) && s.inFlight != {})
  {
    var t := Released(s, name);
    if t.pendingRequest == 0 && t.formSubmitted && valid {
      FormVerdict(t, elements);
      FormAtZero(t, elements);
      FormTwice(t, elements);
      FormKeepsHandled(t, elements);
      FormCounts(t, elements);
      ThroughIffReady(Form(t, elements).0, elements);
      if AllPass(t, elements) {
        ReadyAgain(t, elements);
      }
    }
  }

  lemma ReadyAgain(s: State, elements: seq<Element>)
    requires DistinctNames(elements) && 0 <= s.pendingRequest && AllPass(s, elements)
    ensures Ready(Form(s, elements).0, elements) <==> Ready(s, elements)
  {
    var t := Form(s, elements).0;
    FormAtZero(s, elements);
    forall i | 0 <= i < |elements| ensures Settled(t, elements[i]) && Passes(t, elements[i]) {
      FormPointwise(s, elements, i);
    }
  }

  // ---------------------------------------------------------------- runs that go wrong

  lemma FormOne(s: State, e: Element)
    ensures Form(s, [e]) == (Checked(s, e), Passes(s, e))
  {
    assert [e][1..] == [];
  }

  lemma FormTwo(s: State, a: Element, b: Element)
    ensures Form(s, [a, b]) == (Checked(Checked(s, a), b), Passes(s, a) && Passes(Checked(s, a), b))
  {
    assert [a, b][1..] == [b];
    FormOne(Checked(s, a), b);
  }

  lemma RunOfTwo(s: State, events: seq<Event>)
    requires |events| == 2
    ensures IsRun(s, events) <==> Possible(s, events[0]) && Possible(Next(s, events[0]), events[1])
    ensures After(s, events) == Next(Next(s, events[0]), events[1])
    ensures After(s, events[..1]) == Next(s, events[0])
  {
    var rest := events[1..];
    assert rest[0] == events[1] && rest[1..] == [];
    assert After(Next(s, events[0]), rest) == Next(Next(s, events[0]), events[1]);
    assert IsRun(Next(s, events[0]), rest) == Possible(Next(s, events[0]), events[1]);
    assert events[..1][0] == events[0] && events[..1][1..] == [];
  }

  /** Fields all of whose local rules pass, and which the server is asked about. */
  predicate AsksServer(e: Element) {
    e.before && e.remote && e.after
  }

  /** The state in which a submit waits for one field. */
  function WaitingFor(e: Element): State {
    ValidatorState({e.name}, 1, true, false, map[e.name := Previous(e.value, true)], {e.name}, [])
  }

  lemma FirstSubmit(e: Element)
    requires AsksServer(e)
    ensures Submitted(START, [e]) == WaitingFor(e)
  {
    FormOne(START, e);
    assert {} + {e.name} == {e.name};
  }

  lemma SecondFieldSent(a: Element, b: Element, s: State)
    requires AsksServer(a) && AsksServer(b) && a.name != b.name
    requires s == Released(Noted(WaitingFor(a), a.name, true), a.name)
    ensures Resubmitted(s, [a, b]).inFlight == {b.name}
  {
    FormTwo(s, a, b);
    FormTwice(s, [a, b]);
    assert Cached(s, a) && Checked(s, a) == s && Fresh(s, b);
    assert s.pending + {b.name} == {b.name} && s.inFlight + {b.name} == {b.name};
  }

  /** A run that loses a submit: it waits for one field, and another has not been asked about when the answer comes. */
  lemma LostIsReached(a: Element, b: Element, events: seq<Event>)
    requires AsksServer(a) && AsksServer(b) && a.name != b.name
    requires events == [Submit([a]), Response(a.name, true, [a, b])]
    ensures IsRun(START, events) && FateOf(After(START, events[..1]), After(START, events)) == Lost
    ensures After(START, events).inFlight == {b.name}
  {
    RunOfTwo(START, events);
    FirstSubmit(a);
    var s := WaitingFor(a);
    SecondFieldSent(a, b, Released(Noted(s, a.name, true), a.name));
    var answered := Noted(s, a.name, true).(pending := {});
    LastAnswer(s, a.name, [a, b]);
    assert Passes(answered, a) && Fresh(answered, [a, b][1]);
  }

  lemma RunOfThree(s: State, events: seq<Event>)
    requires |events| == 3 && Possible(s, events[0])
    ensures IsRun(s, events) <==> IsRun(Next(s, events[0]), events[1..])
    ensures After(s, events) == After(Next(s, events[0]), events[1..])
  {}

  /** A run in which one stray stop lets a valid form through while its field is being asked about. */
  lemma StrayLetsThrough(e: Element, valid: bool, events: seq<Event>)
    requires AsksServer(e)
    requires events == [CheckField(e), Stray(e.name, valid, [e]), Submit([e])]
    ensures IsRun(START, events) && After(START, events).handled == [Handling(false, 0, {e.name})]
  {
    RunOfThree(START, events);
    var s1 := Next(START, events[0]);
    RunOfTwo(s1, events[1..]);
    var s2 := Next(s1, events[1]);
    assert s1.pending == {e.name} && s1.pendingRequest == 1 && s1.inFlight == {e.name};
    assert s2.pendingRequest == 0 && s2.inFlight == {e.name} && s2.handled == [] && s2.pending == {};
    assert !Fresh(s2, [e][0]) && Passes(s2, [e][0]);
    ThroughIffReady(s2, [e]);
  }
}
