/**
 What an answer does to the checks and submits that come after it, and what each operation of the validator does to its
 fields, said without the functions that the validator is proved against.
 */
module RemoteAnswers {
  import opened RemoteRuns
  import opened RemoteValidator

  // ---------------------------------------------------------------- one check

  /** The last value the server was asked about for the field is this one. */
  predicate AskedLast(s: State, e: Element) {
    e.name in s.previous && s.previous[e.name].asked == e.value
  }

  /** s' is s with one request more: the name is pending, and the value remembered as the last one asked about. */
  ghost predicate RequestSent(s: State, s': State, e: Element) {
    && s'.pending == s.pending + {e.name} && s'.pendingRequest == s.pendingRequest + 1
    && s'.inFlight == s.inFlight + {e.name}
    && s'.previous.Keys == s.previous.Keys + {e.name} && s'.previous[e.name].asked == e.value
    && (forall n :: n in s.previous && n != e.name ==> s'.previous[n] == s.previous[n])
    && s'.formSubmitted == s.formSubmitted && s'.cancelSubmit == s.cancelSubmit && s'.handled == s.handled
  }

  /**
   A check asks the server when the rules before pass, no answer is awaited, and the value is another than last time;
   then, and while an answer is awaited, it passes.  Otherwise the last answer decides, and the rules after it.
   */
  lemma CheckExactly(s: State, e: Element)
    ensures
      var asks := e.before && e.remote && e.name !in s.pending && !AskedLast(s, e);
      && (if asks then RequestSent(s, Checked(s, e), e) else Checked(s, e) == s)
      && (Passes(s, e) <==>
            && e.before
            && ((e.remote && (e.name in s.pending || asks))
                || ((!e.remote || s.previous[e.name].valid) && e.after)))
  {}

  // ---------------------------------------------------------------- an answer is remembered

  /** The answer has come, it was v, and the field still has the value it was about. */
  predicate Known(s: State, e: Element, v: bool) {
    e.name !in s.pending && e.name !in s.inFlight && e.name in s.previous && s.previous[e.name] == Previous(e.value, v)
  }

  /** A field's check asks again exactly when its value is another; with the same value the answer decides it. */
  lemma KnownDecides(s: State, e: Element, v: bool)
    requires Known(s, e, v) && e.before && e.remote
    ensures Checked(s, e) == s && (Passes(s, e) <==> v && e.after)
  {}

  /** After the answer to a request, when no submit waits for it, a check of the same value gives the answer. */
  lemma AnswerIsRemembered(s: State, e: Element, v: bool, elements: seq<Element>)
    requires AskedLast(s, e) && !s.formSubmitted
    ensures Known(Answered(s, e.name, v, elements), e, v)
    ensures AsksServer(e) ==> (Passes(Answered(s, e.name, v, elements), e) <==> v)
    ensures AsksServer(e) ==> Checked(Answered(s, e.name, v, elements), e) == Answered(s, e.name, v, elements)
  {}

  /** A bad answer is remembered with or without a submit waiting. */
  lemma BadAnswerIsRemembered(s: State, e: Element, elements: seq<Element>)
    requires AskedLast(s, e)
    ensures Known(Answered(s, e.name, false, elements), e, false)
  {}

  // ---------------------------------------------------------------- a rejected value is not submitted

  /** No field but e has its name, so nothing asks the server about another value for it. */
  predicate OnlyAs(e: Element, elements: seq<Element>) {
    forall i :: 0 <= i < |elements| ==> elements[i].name == e.name ==> elements[i] == e
  }

  function ElementsOf(event: Event): seq<Element> {
    match event
    case CheckField(e) => [e]
    case Cancel => []
    case _ => event.elements
  }

  /** Whatever can submit a form submits one with e in it. */
  predicate Includes(e: Element, event: Event) {
    event.Submit? || event.Response? || event.Stray? ==> e in event.elements
  }

  predicate Concerns(e: Element, events: seq<Event>) {
    forall i :: 0 <= i < |events| ==> OnlyAs(e, ElementsOf(events[i])) && Includes(e, events[i])
  }

  lemma CheckedKeepsKnown(s: State, e: Element, d: Element)
    requires Known(s, e, false) && (d.name == e.name ==> d == e)
    ensures Known(Checked(s, d), e, false)
  {}

  lemma {:induction false} FormKeepsKnown(s: State, e: Element, elements: seq<Element>)
    requires Known(s, e, false) && OnlyAs(e, elements)
    ensures Known(Form(s, elements).0, e, false)
    decreases |elements|
  {
    if elements != [] {
      assert elements[0].name == e.name ==> elements[0] == e;
      CheckedKeepsKnown(s, e, elements[0]);
      FormKeepsKnown(Checked(s, elements[0]), e, elements[1..]);
    }
  }

  /** A form with a rejected value in it is never valid. */
  lemma {:induction false} RejectedFails(s: State, e: Element, elements: seq<Element>)
    requires Known(s, e, false) && e.remote && OnlyAs(e, elements) && e in elements
    ensures !Form(s, elements).1
    decreases |elements|
  {
    if elements[0] != e {
      assert elements[0].name != e.name;
      CheckedKeepsKnown(s, e, elements[0]);
      RejectedFails(Checked(s, elements[0]), e, elements[1..]);
    }
  }

  /** after has more submits than before only if they skipped validation, and none if nobody asks for that. */
  predicate OnlyCancelled(before: State, after: State) {
    && before.handled <= after.handled
    && (forall i :: |before.handled| <= i < |after.handled| ==> after.handled[i].cancelled)
  }

  lemma SubmitRejected(s: State, e: Element, elements: seq<Element>)
    requires Known(s, e, false) && e.remote && OnlyAs(e, elements) && e in elements
    ensures Known(Submitted(s, elements), e, false) && OnlyCancelled(s, Submitted(s, elements))
    ensures !s.cancelSubmit ==> Submitted(s, elements).handled == s.handled && !Submitted(s, elements).cancelSubmit
  {
    if !s.cancelSubmit {
      RejectedFails(s, e, elements);
      FormKeepsKnown(s, e, elements);
      FormKeepsHandled(s, elements);
    }
  }

  lemma StopRejected(s: State, e: Element, name: string, valid: bool, elements: seq<Element>)
    requires Known(s, e, false) && e.remote && OnlyAs(e, elements) && e in elements
    ensures Known(Stopped(s, name, valid, elements), e, false)
    ensures Stopped(s, name, valid, elements).handled == s.handled
    ensures Stopped(s, name, valid, elements).cancelSubmit == s.cancelSubmit
  {
    var t := Released(s, name);
    if valid && t.pendingRequest == 0 && t.formSubmitted {
      RejectedFails(t, e, elements);
      FormKeepsKnown(t, e, elements);
      FormKeepsHandled(t, elements);
    }
  }

  lemma NextRejected(s: State, e: Element, event: Event)
    requires Known(s, e, false) && e.remote && Possible(s, event)
    requires OnlyAs(e, ElementsOf(event)) && Includes(e, event)
    ensures Known(Next(s, event), e, false) && OnlyCancelled(s, Next(s, event))
    ensures !s.cancelSubmit && !event.Cancel? ==> Next(s, event).handled == s.handled && !Next(s, event).cancelSubmit
  {
    match event {
      case CheckField(d) =>
        assert [d][0] == d;
        CheckedKeepsKnown(s, e, d);
      case CheckAll(elements) =>
        FormKeepsKnown(s, e, elements);
        FormKeepsHandled(s, elements);
      case Cancel =>
      case Submit(elements) => SubmitRejected(s, e, elements);
      case Response(name, valid, elements) =>
        StopRejected(Noted(s, name, valid), e, name, valid, elements);
      case Stray(name, valid, elements) => StopRejected(s, e, name, valid, elements);
    }
  }

  /**
   Once the server has rejected a field's value, no form with that value in it goes through, in any run that keeps the
   value: whatever else is checked, answered, submitted or stopped without a request.  Only submits that skip validation
   get through.
   */
  lemma {:induction false} RejectedStaysOut(s: State, e: Element, events: seq<Event>)
    requires Known(s, e, false) && e.remote && IsRun(s, events) && Concerns(e, events)
    ensures Known(After(s, events), e, false) && OnlyCancelled(s, After(s, events))
    ensures !s.cancelSubmit && Cancel !in events ==> After(s, events).handled == s.handled
    decreases |events|
  {
    if events != [] {
      NextRejected(s, e, events[0]);
      RejectedStaysOut(Next(s, events[0]), e, events[1..]);
    }
  }

  /** From the very start: a submit, the answer, and a second submit of the same value. */
  lemma AnswerDecidesSubmit(e: Element, v: bool, events: seq<Event>)
    requires AsksServer(e) && events == [Submit([e]), Response(e.name, v, [e]), Submit([e])]
    ensures IsRun(START, events)
    ensures After(START, events).handled == if v then [Handling(false, 0, {}), Handling(false, 0, {})] else []
  {
    RunOfThree(START, events);
    FirstSubmit(e);
    var s := WaitingFor(e);
    RunOfTwo(s, events[1..]);
    var t := Released(Noted(s, e.name, v), e.name);
    assert t == ValidatorState({}, 0, true, false, map[e.name := Previous(e.value, v)], {}, []);
    FormOne(t, e);
    assert Next(s, events[1]).previous == t.previous && Next(s, events[1]).pending == {};
    FormOne(Next(s, events[1]), e);
  }

  // ---------------------------------------------------------------- submits

  /** The field is fine: its own rules pass, and the server has said yes to this very value. */
  predicate Fine(s: State, e: Element) {
    e.before && e.after && (e.remote ==> e.name in s.previous && s.previous[e.name] == Previous(e.value, true))
  }

  /**
   With every stop matching a request, a validated submit goes through exactly when no request is under way and every
   field is fine.
   */
  lemma GoesThroughIff(s: State, elements: seq<Element>)
    requires Strict(s) && !s.cancelSubmit && DistinctNames(elements)
    ensures |Submitted(s, elements).handled| > |s.handled|
       <==> s.inFlight == {} && forall e :: e in elements ==> Fine(s, e)
    ensures |Submitted(s, elements).handled| > |s.handled|
        ==> Submitted(s, elements) == s.(handled := s.handled + [Handling(false, 0, {})])
  {
    ThroughIffReady(s, elements);
    FormAtZero(s, elements);
    assert s.pendingRequest == 0 <==> s.pending == {};
    if s.pending == {} {
      forall i | 0 <= i < |elements|
        ensures Passes(s, elements[i]) && !Fresh(s, elements[i]) <==> Fine(s, elements[i])
      {
        CheckExactly(s, elements[i]);
      }
    }
  }

  /** A submit is put off exactly when the form is valid so far and an answer is awaited, or will be. */
  lemma PutOffIff(s: State, elements: seq<Element>)
    requires DistinctNames(elements) && 0 <= s.pendingRequest && !s.cancelSubmit && !s.formSubmitted
    ensures Submitted(s, elements).formSubmitted <==>
              AllPass(s, elements) && (s.pendingRequest != 0 || WouldSend(s, elements))
  {
    FormVerdict(s, elements);
    FormAtZero(s, elements);
    FormKeepsHandled(s, elements);
  }

  /** A cancelled submit goes through unseen, once. */
  lemma CancelledGoesThrough(s: State, elements: seq<Element>)
    requires s.cancelSubmit
    ensures
      var t := Submitted(s, elements);
      && !t.cancelSubmit && t.handled == s.handled + [Handling(true, s.pendingRequest, s.inFlight)]
      && t.pending == s.pending && t.pendingRequest == s.pendingRequest && t.previous == s.previous
      && t.formSubmitted == s.formSubmitted && t.inFlight == s.inFlight
  {}

  /** So a submit after a cancel goes through whatever the fields, and the one after it does not for that reason. */
  lemma CancelSkipsOne(s: State, elements: seq<Element>, events: seq<Event>)
    requires events == [Cancel, Submit(elements)]
    ensures
      var t := After(s, events);
      IsRun(s, events) && !t.cancelSubmit && t.handled == s.handled + [Handling(true, s.pendingRequest, s.inFlight)]
  {
    RunOfTwo(s, events);
    CancelledGoesThrough(Next(s, Cancel), elements);
  }

  // ---------------------------------------------------------------- the end of a request

  /** s' is s with the name no longer pending and one request less counted, but not less than none. */
  predicate OneLess(s: State, s': State, name: string) {
    && s'.pending == s.pending - {name}
    && s'.pendingRequest == (if s.pendingRequest >= 1 then s.pendingRequest - 1 else 0)
    && s'.cancelSubmit == s.cancelSubmit && s'.handled == s.handled
  }

  /**
   A bad answer, and a good one that is not the last or that no submit waits for, submits nothing; the bad one that is
   the last gives up the submit that was waiting.
   */
  lemma StopExactly(s: State, name: string, valid: bool, elements: seq<Element>)
    requires !(valid && s.formSubmitted && s.pendingRequest <= 1)
    ensures
      var t := Stopped(s, name, valid, elements);
      && OneLess(s, t, name) && t.previous == s.previous && t.inFlight == s.inFlight
      && (t.formSubmitted <==> s.formSubmitted && s.pendingRequest > 1)
  {}

  /** And an answer says which value it is about: the last one asked. */
  lemma AnswerExactly(s: State, name: string, valid: bool, elements: seq<Element>)
    requires !(valid && s.formSubmitted && s.pendingRequest <= 1)
    ensures
      var t := Answered(s, name, valid, elements);
      && OneLess(s, t, name) && t.inFlight == s.inFlight - {name} && t.previous.Keys == s.previous.Keys
      && (forall n :: n in s.previous && n != name ==> t.previous[n] == s.previous[n])
      && (name in s.previous ==> t.previous[name] == Previous(s.previous[name].asked, valid))
  {
    StopExactly(Noted(s, name, valid), name, valid, elements);
  }

  /** The last good answer to a waiting submit: it goes through exactly when every field is fine. */
  lemma LastGoodAnswer(s: State, e: Element, elements: seq<Element>)
    requires Strict(s) && s.inFlight == {e.name} && s.formSubmitted && !s.cancelSubmit && DistinctNames(elements)
    requires AskedLast(s, e)
    ensures |Answered(s, e.name, true, elements).handled| > |s.handled|
       <==> forall d :: d in elements ==>
              d.before && d.after &&
              (d.remote ==> if d.name == e.name then d.value == e.value
                            else d.name in s.previous && s.previous[d.name] == Previous(d.value, true))
  {
    var answered := Noted(s, e.name, true).(pending := {});
    LastAnswer(s, e.name, elements);
    forall i | 0 <= i < |elements|
      ensures Passes(answered, elements[i]) && !Fresh(answered, elements[i]) <==> Fine(answered, elements[i])
    {
      CheckExactly(answered, elements[i]);
    }
  }
}
