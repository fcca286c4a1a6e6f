/**
 jQuery's form validation with remote checks: a field's check may have to wait for the server, and a submit that finds
 checks pending is put off until the last of them is answered.
 */
module RemoteValidator {

  /** A field as a validation finds it: its rules before the remote one pass or not, and so do those after it. */
  datatype Element = Element(name: string, value: string, before: bool, remote: bool, after: bool)

  /** What a field remembers of the last value sent to the server. */
  datatype Previous = Previous(asked: string, valid: bool)

  /** A submit that went through: whether it skipped validation, and what was outstanding. */
  datatype Handling = Handling(cancelled: bool, pendingRequest: int, inFlight: set<string>)

  datatype State = ValidatorState(
    pending: set<string>,
    pendingRequest: int,
    formSubmitted: bool,
    cancelSubmit: bool,
    previous: map<string, Previous>,
    inFlight: set<string>,
    handled: seq<Handling>)

  // ---------------------------------------------------------------- what the operations do to the state

  function Started(s: State, name: string): State {
    if name in s.pending then s
    else s.(pendingRequest := s.pendingRequest + 1, pending := s.pending + {name})
  }

  function Sent(s: State, name: string, value: string): State {
    var valid := if name in s.previous then s.previous[name].valid else true;
    Started(s.(previous := s.previous[name := Previous(value, valid)]), name).(inFlight := s.inFlight + {name})
  }

  predicate Cached(s: State, e: Element) {
    e.name in s.previous && s.previous[e.name].asked == e.value
  }

  /** The check of e sends a request. */
  predicate Fresh(s: State, e: Element) {
    e.before && e.remote && e.name !in s.pending && !Cached(s, e)
  }

  /** The check of e adds no error; a pending answer is none. */
  predicate Passes(s: State, e: Element) {
    e.before &&
    if !e.remote then e.after
    else e.name in s.pending || (Cached(s, e) ==> s.previous[e.name].valid && e.after)
  }

  function Checked(s: State, e: Element): State {
    if Fresh(s, e) then Sent(s, e.name, e.value) else s
  }

  /** All fields checked in turn: the state, and whether there is no error. */
  function Form(s: State, elements: seq<Element>): (State, bool)
    decreases |elements|
  {
    if elements == [] then (s, true)
    else
      var (rest, valid) := Form(Checked(s, elements[0]), elements[1..]);
      (rest, Passes(s, elements[0]) && valid)
  }

  function Handle(s: State, cancelled: bool): State {
    s.(handled := s.handled + [Handling(cancelled, s.pendingRequest, s.inFlight)])
  }

  function Submitted(s: State, elements: seq<Element>): State {
    if s.cancelSubmit then Handle(s.(cancelSubmit := false), true)
    else
      var (t, valid) := Form(s, elements);
      if !valid then t
      else if t.pendingRequest != 0 then t.(formSubmitted := true)
      else Handle(t, false)
  }

  /** One request less, never less than none. */
  function Released(s: State, name: string): State {
    s.(pendingRequest := if s.pendingRequest - 1 < 0 then 0 else s.pendingRequest - 1, pending := s.pending - {name})
  }

  function Stopped(s: State, name: string, valid: bool, elements: seq<Element>): State {
    var t := Released(s, name);
    if t.pendingRequest != 0 || !t.formSubmitted then t
    else if !valid then t.(formSubmitted := false)
    else Resubmitted(t, elements)
  }

  /** The submit that was put off, made again. */
  function Resubmitted(s: State, elements: seq<Element>): State {
    var (t, valid) := Form(s, elements);
    if valid then Submitted(t, elements).(formSubmitted := false) else t
  }

  function Noted(s: State, name: string, valid: bool): State {
    s.(inFlight := s.inFlight - {name},
       previous := if name in s.previous then s.previous[name := Previous(s.previous[name].asked, valid)] else s.previous)
  }

  function Answered(s: State, name: string, valid: bool, elements: seq<Element>): State {
    Stopped(Noted(s, name, valid), name, valid, elements)
  }

  // ---------------------------------------------------------------- the validator

  class Validator {
    var pending: set<string>
    var pendingRequest: int
    var formSubmitted: bool
    var cancelSubmit: bool
    var previous: map<string, Previous>
    ghost var inFlight: set<string>
    ghost var handled: seq<Handling>

    ghost function Now(): State
      reads this
    {
      ValidatorState(pending, pendingRequest, formSubmitted, cancelSubmit, previous, inFlight, handled)
    }

    constructor ()
      ensures Now() == ValidatorState({}, 0, false, false, map[], {}, [])
    {
      pending, pendingRequest, formSubmitted, cancelSubmit := {}, 0, false, false;
      previous, inFlight, handled := map[], {}, [];
    }

    method StartRequest(name: string)
      modifies this`pending, this`pendingRequest
      ensures Now() == Started(old(Now()), name)
    {
      if name !in pending {
        pendingRequest := pendingRequest + 1;
        pending := pending + {name};
      }
    }

    /** The remote rule: an answer, or None while it is awaited. */
    method Remote(name: string, value: string) returns (waiting: bool, valid: bool)
      modifies this
      ensures
        var e := Element(name, value, true, true, true);
        && Now() == Checked(old(Now()), e)
        && (waiting <==> name in old(pending) || Fresh(old(Now()), e))
        && (!waiting ==> Cached(old(Now()), e) && valid == old(Now()).previous[name].valid)
    {
      if name in pending {
        return true, true;
      }
      if name in previous && previous[name].asked == value {
        return false, previous[name].valid;
      }
      previous := previous[name := Previous(value, if name in previous then previous[name].valid else true)];
      StartRequest(name);
      inFlight := inFlight + {name};
      return true, true;
    }

    method Check(e: Element) returns (passes: bool)
      modifies this
      ensures Now() == Checked(old(Now()), e) && passes == Passes(old(Now()), e)
    {
      if !e.before {
        return false;
      }
      if e.remote {
        var waiting, valid := Remote(e.name, e.value);
        if waiting {
          return true;
        }
        if !valid {
          return false;
        }
      }
      return e.after;
    }

    method CheckForm(elements: seq<Element>) returns (valid: bool)
      modifies this
      ensures (Now(), valid) == Form(old(Now()), elements)
    {
      valid := true;
      for i := 0 to |elements|
        invariant
          var (end, rest) := Form(Now(), elements[i..]);
          Form(old(Now()), elements) == (end, valid && rest)
      {
        assert elements[i..][1..] == elements[i + 1..];
        var passes := Check(elements[i]);
        valid := valid && passes;
      }
    }

    /** The submit event: true lets the form through. */
    method OnSubmit(elements: seq<Element>) returns (through: bool)
      modifies this
      ensures Now() == Submitted(old(Now()), elements)
      ensures through <==> |handled| > |old(handled)|
      ensures |handled| >= |old(handled)|
    {
      if cancelSubmit {
        cancelSubmit := false;
        handled := handled + [Handling(true, pendingRequest, inFlight)];
        return true;
      }
      FormKeepsHandled(Now(), elements);
      var valid := CheckForm(elements);
      if valid {
        if pendingRequest != 0 {
          formSubmitted := true;
          return false;
        }
        handled := handled + [Handling(false, pendingRequest, inFlight)];
        return true;
      }
      return false;
    }

    method StopRequest(name: string, valid: bool, elements: seq<Element>)
      modifies this
      ensures Now() == Stopped(old(Now()), name, valid, elements)
    {
      pendingRequest := pendingRequest - 1;
      if pendingRequest < 0 {
        pendingRequest := 0;
      }
      pending := pending - {name};
      var formValid := false;
      if valid && pendingRequest == 0 && formSubmitted {
        formValid := CheckForm(elements);
      }
      if formValid {
        var through := OnSubmit(elements);
        formSubmitted := false;
      } else if !valid && pendingRequest == 0 && formSubmitted {
        formSubmitted := false;
      }
    }

    /** The server's answer. */
    method OnResponse(name: string, valid: bool, elements: seq<Element>)
      modifies this
      ensures Now() == Answered(old(Now()), name, valid, elements)
    {
      inFlight := inFlight - {name};
      if name in previous {
        previous := previous[name := Previous(previous[name].asked, valid)];
      }
      StopRequest(name, valid, elements);
    }
  }

  lemma {:induction false} FormKeepsHandled(s: State, elements: seq<Element>)
    ensures Form(s, elements).0.handled == s.handled && Form(s, elements).0.formSubmitted == s.formSubmitted
    ensures Form(s, elements).0.cancelSubmit == s.cancelSubmit
    decreases |elements|
  {
    if elements != [] {
      FormKeepsHandled(Checked(s, elements[0]), elements[1..]);
    }
  }
}
