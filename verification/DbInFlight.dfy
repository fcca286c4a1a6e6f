/**
 What the ids of commands in flight have to do with it: exactly when a command whose id is already in flight does harm,
 and what harm; and a condition on the commands alone that rules it out.
 */
module DbInFlight {
  import opened DbNesting
  import opened DbTracing
  import opened Sequences
  import opened Wrappers

  // ---------------------------------------------------------------- one command whose id may be in flight

  /**
   The listener looks away: the other family's span is current or, for Elasticsearch, there is no transaction.
   Application code has no listener.
   */
  predicate Ignored(s: System, c: Command) {
    match c.kind
    case EfCoreCommand => CurrentFlag(s.trace) == SqlClient
    case Ef6Command => CurrentFlag(s.trace) == SqlClient
    case SqlDiagnostic => SuppressesSql(CurrentFlag(s.trace))
    case SqlSource => SuppressesSql(CurrentFlag(s.trace))
    case ElasticsearchCall => !s.trace.inTransaction
    case Custom(_) => true
  }

  function TableOf(s: System, kind: Kind): Table {
    match kind
    case EfCoreCommand => s.efCore
    case Ef6Command => s.ef6
    case SqlDiagnostic => s.sqlClient
    case SqlSource => s.sqlSource
    case ElasticsearchCall => s.elasticsearch
    case Custom(_) => map[]
  }

  /** The system when a command's body is over. */
  function BodyOver(s: System, c: Command): System {
    RunAll(OnBegin(s, c), c.body)
  }

  lemma BeginStarts(t: Trace, table: Table, flag: Flag, id: int)
    requires Valid(t)
    ensures Valid(Begin(t, table, flag, id).0)
  {}

  lemma BeginValid(s: System, c: Command)
    requires Valid(s.trace)
    ensures Valid(OnBegin(s, c).trace)
  {
    match c.kind {
      case EfCoreCommand => BeginStarts(s.trace, s.efCore, EfCore, c.id);
      case Ef6Command => BeginStarts(s.trace, s.ef6, EfClassic, c.id);
      case SqlDiagnostic => BeginStarts(s.trace, s.sqlClient, SqlClient, c.id);
      case SqlSource => BeginStarts(s.trace, s.sqlSource, SqlClient, c.id);
      case ElasticsearchCall => BeginStarts(s.trace, s.elasticsearch, NoFlag, c.id);
      case Custom(flag) => BeginStarts(s.trace, map[], flag, c.id);
    }
  }

  lemma BodyRestores(s: System, c: Command)
    requires Valid(s.trace) && FreshAll(OnBegin(s, c), c.body)
    ensures Valid(OnBegin(s, c).trace) && Restored(OnBegin(s, c), BodyOver(s, c))
  {
    BeginValid(s, c);
    RunAllRestores(OnBegin(s, c), c.body);
  }

  /** The current span's flag is the one the start left. */
  lemma FlagKept(s: System, m: System)
    requires Valid(s.trace) && Restored(s, m)
    ensures CurrentFlag(m.trace) == CurrentFlag(s.trace)
  {}

  lemma IgnoredRestores(s: System, c: Command)
    requires Valid(s.trace) && FreshAll(OnBegin(s, c), c.body) && Ignored(s, c) && !c.kind.Custom?
    ensures Restored(s, Run(s, c))
  {
    BodyRestores(s, c);
    IgnoredStart(s, c);
    FlagKept(s, BodyOver(s, c));
    IgnoredEnd(s, BodyOver(s, c), c);
  }

  lemma IgnoredStart(s: System, c: Command)
    requires Ignored(s, c) && !c.kind.Custom?
    ensures OnBegin(s, c) == s
  {
    match c.kind {
      case EfCoreCommand =>
      case Ef6Command =>
      case SqlDiagnostic =>
      case SqlSource =>
      case ElasticsearchCall =>
      case Custom(_) =>
    }
  }

  lemma IgnoredEnd(before: System, m: System, c: Command)
    requires Ignored(m, c) && !c.kind.Custom?
    ensures OnEnd(before, m, c) == m
  {
    match c.kind {
      case EfCoreCommand =>
      case Ef6Command =>
      case SqlDiagnostic =>
      case SqlSource =>
      case ElasticsearchCall =>
      case Custom(_) =>
    }
  }

  /** A start that is not ignored leaves a current span that its own listener does not mind. */
  lemma BeginHeard(s: System, c: Command)
    requires Valid(s.trace) && !Ignored(s, c)
    ensures !Ignored(OnBegin(s, c), c)
  {
    match c.kind {
      case EfCoreCommand =>
      case Ef6Command =>
      case SqlDiagnostic =>
      case SqlSource =>
      case ElasticsearchCall =>
      case Custom(_) =>
    }
  }

  /** A listener that does not look away at the start does not at the end. */
  lemma StillHeard(s: System, m: System, c: Command)
    requires Valid(s.trace) && Restored(OnBegin(s, c), m) && !Ignored(s, c)
    ensures !Ignored(m, c)
  {
    BeginValid(s, c);
    BeginHeard(s, c);
    FlagKept(OnBegin(s, c), m);
  }

  predicate HasDictionary(kind: Kind) {
    !kind.Custom? && !kind.Ef6Command?
  }

  /** The end that is heard takes the id out of the dictionary and ends the span it finds there. */
  lemma EndFinishes(before: System, m: System, c: Command)
    requires HasDictionary(c.kind) && !Ignored(m, c) && c.id in TableOf(m, c.kind)
    ensures OnEnd(before, m, c).trace == EndRequested(m.trace, TableOf(m, c.kind)[c.id])
    ensures TableOf(OnEnd(before, m, c), c.kind) == TableOf(m, c.kind) - {c.id}
  {
    match c.kind {
      case EfCoreCommand => EfCoreFinishes(m.trace, m.efCore, c.id, c.fails);
      case SqlDiagnostic => SqlClientFinishes(m.trace, m.sqlClient, c.id, c.fails);
      case SqlSource =>
      case ElasticsearchCall =>
      case _ =>
    }
  }

  lemma EfCoreFinishes(t: Trace, table: Table, id: int, fails: bool)
    requires CurrentFlag(t) != SqlClient
    ensures
      var e := if fails then CommandError(id, true) else CommandExecuted(id, true);
      OnEfCore(t, table, e) == Finish(t, table, id)
  {}

  lemma SqlClientFinishes(t: Trace, table: Table, id: int, fails: bool)
    requires !SuppressesSql(CurrentFlag(t))
    ensures
      var e := if fails then WriteCommandError(Some(id), true) else WriteCommandAfter(Some(id), true);
      OnSqlClient(t, table, e) == Finish(t, table, id)
  {}

  /** Neither a start whose id is in flight nor the body changes the dictionary. */
  lemma DictionaryKept(s: System, m: System, c: Command)
    requires HasDictionary(c.kind) && !NotInFlight(s, c) && Restored(OnBegin(s, c), m)
    ensures TableOf(m, c.kind) == TableOf(s, c.kind)
  {
    DuplicateStart(s, c);
    TableRestored(OnBegin(s, c), m, c.kind);
  }

  lemma DuplicateStart(s: System, c: Command)
    requires HasDictionary(c.kind) && !NotInFlight(s, c)
    ensures TableOf(OnBegin(s, c), c.kind) == TableOf(s, c.kind)
  {}

  lemma TableRestored(s: System, m: System, kind: Kind)
    requires HasDictionary(kind) && Restored(s, m)
    ensures TableOf(m, kind) == TableOf(s, kind)
  {}

  /** The end takes the id out of the dictionary, whatever span was in it. */
  lemma RunFinishes(s: System, c: Command)
    requires Valid(s.trace) && FreshAll(OnBegin(s, c), c.body)
    requires HasDictionary(c.kind) && !NotInFlight(s, c) && !Ignored(s, c)
    ensures TableOf(Run(s, c), c.kind) == TableOf(s, c.kind) - {c.id}
    ensures Run(s, c).trace == EndRequested(BodyOver(s, c).trace, TableOf(s, c.kind)[c.id])
  {
    BodyRestores(s, c);
    StillHeard(s, BodyOver(s, c), c);
    DictionaryKept(s, BodyOver(s, c), c);
    EndFinishes(s, BodyOver(s, c), c);
  }

  lemma TableLost(s: System, c: Command)
    requires Valid(s.trace) && FreshAll(OnBegin(s, c), c.body)
    requires HasDictionary(c.kind) && !NotInFlight(s, c) && !Ignored(s, c)
    ensures !Restored(s, Run(s, c))
  {
    RunFinishes(s, c);
    assert c.id !in TableOf(Run(s, c), c.kind);
  }

  /** EF 6's user state is overwritten by the new span or, without one, its span is ended once more. */
  lemma UserStateLost(s: System, c: Command)
    requires Valid(s.trace) && FreshAll(OnBegin(s, c), c.body)
    requires c.kind.Ef6Command? && c.id in s.ef6 && s.ef6[c.id] < |s.trace.spans| && !Ignored(s, c)
    ensures !Restored(s, Run(s, c))
  {
    BodyRestores(s, c);
    var m := BodyOver(s, c);
    if s.trace.inTransaction {
      assert m.ef6[c.id] == |s.trace.spans| != s.ef6[c.id];
      assert Run(s, c).ef6 == m.ef6;
    } else {
      StillHeard(s, m, c);
      EndedOnceMore(s.trace, m.trace, Run(s, c).trace, s.ef6[c.id]);
    }
  }

  lemma EndedOnceMore(t: Trace, m: Trace, r: Trace, span: nat)
    requires TraceRestored(t, m) && r == EndRequested(m, span)
    ensures !TraceRestored(t, r)
  {
    assert r.ended[|t.ended|..] == m.ended[|t.ended|..] + [span];
    assert |r.spans| == |m.spans|;
  }

  /**
   For every kind of command, whatever happens in its body, everything is put back if and only if its id is not in
   flight when it starts, or its listener looks away.
   */
  lemma RestoredIff(s: System, c: Command)
    requires Valid(s.trace) && FreshAll(OnBegin(s, c), c.body)
    requires c.kind.Ef6Command? && c.id in s.ef6 ==> s.ef6[c.id] < |s.trace.spans|
    ensures Restored(s, Run(s, c)) <==> NotInFlight(s, c) || Ignored(s, c)
  {
    if NotInFlight(s, c) {
      RunRestores(s, c);
    } else if Ignored(s, c) {
      IgnoredRestores(s, c);
    } else if c.kind.Ef6Command? {
      UserStateLost(s, c);
    } else {
      TableLost(s, c);
    }
  }

  /**
   What an id in flight does to a listener with a dictionary: the command's own span is left open, in no dictionary;
   its end closes the span of the command that was in flight, and makes that one's parent current.
   */
  lemma SpanLeaks(s: System, c: Command)
    requires Valid(s.trace) && FreshAll(OnBegin(s, c), c.body) && AcceptedIn(s.trace, c.kind)
    requires HasDictionary(c.kind) && !NotInFlight(s, c)
    requires TableOf(s, c.kind)[c.id] < |s.trace.spans|
    ensures
      var r, n, other := Run(s, c), |s.trace.spans|, TableOf(s, c.kind)[c.id];
      && TableOf(r, c.kind) == TableOf(s, c.kind) - {c.id}
      && n < |r.trace.spans| && !r.trace.spans[n].isEnded && r.trace.spans[other].isEnded
      && r.trace.current == if s.trace.spans[other].isEnded then Some(n) else s.trace.spans[other].parent
  {
    AcceptedStarts(s, c);
    AcceptedHeard(s, c);
    BodyRestores(s, c);
    RunFinishes(s, c);
    LeftOpen(s.trace, FlagOf(c.kind), BodyOver(s, c).trace, TableOf(s, c.kind)[c.id]);
  }

  lemma AcceptedStarts(s: System, c: Command)
    requires HasDictionary(c.kind) && AcceptedIn(s.trace, c.kind)
    ensures OnBegin(s, c).trace == Started(s.trace, FlagOf(c.kind)).0 && Started(s.trace, FlagOf(c.kind)).1.Some?
  {
    match c.kind {
      case EfCoreCommand =>
      case Ef6Command =>
      case SqlDiagnostic =>
      case SqlSource =>
      case ElasticsearchCall =>
      case Custom(_) =>
    }
  }

  lemma AcceptedHeard(s: System, c: Command)
    requires HasDictionary(c.kind) && AcceptedIn(s.trace, c.kind)
    ensures !Ignored(s, c)
  {}

  /** A span is opened on t, a body run, and then another span of t ended. */
  lemma LeftOpen(t: Trace, flag: Flag, m: Trace, other: nat)
    requires Started(t, flag).1.Some? && TraceRestored(Started(t, flag).0, m) && other < |t.spans|
    ensures
      var r, n := EndRequested(m, other), |t.spans|;
      && n < |r.spans| && !r.spans[n].isEnded && r.spans[other].isEnded
      && r.current == if t.spans[other].isEnded then Some(n) else t.spans[other].parent
  {
    var begun := Started(t, flag).0;
    assert m.spans[|t.spans|] == begun.spans[|t.spans|] && m.spans[other] == begun.spans[other] == t.spans[other];
  }

  // ---------------------------------------------------------------- a condition on the commands alone

  type Busy = set<(Kind, int)>

  /** busy has every id in one of the dictionaries. */
  ghost predicate Covers(busy: Busy, s: System) {
    && (forall id :: id in s.efCore ==> (EfCoreCommand, id) in busy)
    && (forall id :: id in s.sqlClient ==> (SqlDiagnostic, id) in busy)
    && (forall id :: id in s.sqlSource ==> (SqlSource, id) in busy)
    && (forall id :: id in s.elasticsearch ==> (ElasticsearchCall, id) in busy)
  }

  /** No listener with a dictionary hears an id again inside a command with that id, nor an id that is busy already. */
  predicate DistinctDown(busy: Busy, cs: seq<Command>)
    decreases cs
  {
    forall c :: c in cs ==>
      && (HasDictionary(c.kind) ==> (c.kind, c.id) !in busy)
      && DistinctDown(busy + {(c.kind, c.id)}, c.body)
  }

  /** The contexts of EF 6 commands, in order. */
  function Contexts(cs: seq<Command>): seq<int> {
    if cs == [] then []
    else (if cs[0].kind.Ef6Command? then [cs[0].id] else []) + Contexts(cs[0].body) + Contexts(cs[1..])
  }

  predicate NewContexts(userState: Table, cs: seq<Command>) {
    NoRepeats(Contexts(cs)) && forall id :: id in Contexts(cs) ==> id !in userState
  }

  /** The user state grows by the contexts of the commands run, at most. */
  ghost predicate GrowsBy(before: Table, after: Table, contexts: seq<int>) {
    forall id :: id in after ==> id in before || id in contexts
  }

  lemma BeginGrows(s: System, c: Command)
    ensures GrowsBy(s.ef6, OnBegin(s, c).ef6, if c.kind.Ef6Command? then [c.id] else [])
  {}

  lemma EndGrows(before: System, m: System, c: Command)
    ensures OnEnd(before, m, c).ef6 == m.ef6
  {
    match c.kind {
      case EfCoreCommand =>
      case Ef6Command =>
      case SqlDiagnostic =>
      case SqlSource =>
      case ElasticsearchCall =>
      case Custom(_) =>
    }
  }

  lemma {:induction false} RunAllGrows(s: System, cs: seq<Command>)
    ensures GrowsBy(s.ef6, RunAll(s, cs).ef6, Contexts(cs))
    decreases cs
  {
    if cs != [] {
      var c := cs[0];
      BeginGrows(s, c);
      RunAllGrows(OnBegin(s, c), c.body);
      EndGrows(s, BodyOver(s, c), c);
      RunAllGrows(Run(s, c), cs[1..]);
    }
  }

  lemma RunGrows(s: System, c: Command)
    ensures GrowsBy(s.ef6, Run(s, c).ef6, Contexts([c]))
  {
    RunAllGrows(s, [c]);
    assert [c][1..] == [] && RunAll(s, [c]) == Run(s, c);
  }

  lemma BeginCovered(s: System, c: Command, busy: Busy)
    requires Covers(busy, s)
    ensures Covers(busy + {(c.kind, c.id)}, OnBegin(s, c))
  {
    forall kind, id | HasDictionary(kind) && id in TableOf(OnBegin(s, c), kind)
      ensures id in TableOf(s, kind) || (kind == c.kind && id == c.id)
    {
      BeginAdds(s, c, kind);
    }
    CoversOneMore(s, OnBegin(s, c), c, busy);
  }

  lemma CoversOneMore(s: System, b: System, c: Command, busy: Busy)
    requires Covers(busy, s)
    requires forall kind, id :: HasDictionary(kind) && id in TableOf(b, kind) ==>
               id in TableOf(s, kind) || (kind == c.kind && id == c.id)
    ensures Covers(busy + {(c.kind, c.id)}, b)
  {
    assert forall id :: id in b.efCore ==> id in TableOf(b, EfCoreCommand);
    assert forall id :: id in b.sqlClient ==> id in TableOf(b, SqlDiagnostic);
    assert forall id :: id in b.sqlSource ==> id in TableOf(b, SqlSource);
    assert forall id :: id in b.elasticsearch ==> id in TableOf(b, ElasticsearchCall);
  }

  /** A start adds no id to a dictionary but its own, and only to the one of its kind. */
  lemma BeginAdds(s: System, c: Command, kind: Kind)
    requires HasDictionary(kind)
    ensures forall id :: id in TableOf(OnBegin(s, c), kind) ==>
              id in TableOf(s, kind) || (kind == c.kind && id == c.id)
  {}

  /** Of contexts without repeats, those of a first command, of its body and of the rest are apart. */
  lemma ContextsApart(userState: Table, cs: seq<Command>)
    requires cs != [] && NewContexts(userState, cs)
    ensures NewContexts(userState, cs[0].body) && NewContexts(userState, cs[1..])
    ensures cs[0].kind.Ef6Command? ==> cs[0].id !in userState && cs[0].id !in Contexts(cs[0].body)
    ensures forall id :: id in Contexts([cs[0]]) ==> id !in Contexts(cs[1..])
  {
    var own := if cs[0].kind.Ef6Command? then [cs[0].id] else [];
    var body, rest := Contexts(cs[0].body), Contexts(cs[1..]);
    assert Contexts(cs) == own + body + rest;
    assert [cs[0]][1..] == [] && Contexts([cs[0]]) == own + body + [] == own + body;
    PartsApart(own, body, rest);
  }

  lemma PartsApart(a: seq<int>, b: seq<int>, c: seq<int>)
    requires NoRepeats(a + b + c)
    ensures NoRepeats(b) && NoRepeats(c)
    ensures forall x :: x in a ==> x !in b && x !in c
    ensures forall x :: x in b ==> x !in c
  {
    var all := a + b + c;
    assert forall i :: 0 <= i < |a| ==> all[i] == a[i];
    assert forall i :: 0 <= i < |b| ==> all[|a| + i] == b[i];
    assert forall i :: 0 <= i < |c| ==> all[|a| + |b| + i] == c[i];
  }

  /** Ids that differ down every path and are not busy, and EF 6 contexts that are new, are never found in flight. */
  lemma {:induction false} DistinctIsFresh(s: System, cs: seq<Command>, busy: Busy)
    requires Valid(s.trace) && Covers(busy, s) && DistinctDown(busy, cs) && NewContexts(s.ef6, cs)
    ensures FreshAll(s, cs)
    decreases cs
  {
    if cs != [] {
      var c := cs[0];
      BodyReady(s, cs, busy);
      DistinctIsFresh(OnBegin(s, c), c.body, busy + {(c.kind, c.id)});
      RestReady(s, cs, busy);
      DistinctIsFresh(Run(s, c), cs[1..], busy);
    }
  }

  lemma BodyReady(s: System, cs: seq<Command>, busy: Busy)
    requires cs != [] && Valid(s.trace) && Covers(busy, s) && DistinctDown(busy, cs) && NewContexts(s.ef6, cs)
    ensures
      var c := cs[0];
      && Valid(OnBegin(s, c).trace) && Covers(busy + {(c.kind, c.id)}, OnBegin(s, c))
      && DistinctDown(busy + {(c.kind, c.id)}, c.body) && NewContexts(OnBegin(s, c).ef6, c.body)
  {
    var c := cs[0];
    ContextsApart(s.ef6, cs);
    BeginValid(s, c);
    BeginCovered(s, c, busy);
    BeginGrows(s, c);
  }

  lemma RestReady(s: System, cs: seq<Command>, busy: Busy)
    requires cs != [] && Valid(s.trace) && Covers(busy, s) && DistinctDown(busy, cs) && NewContexts(s.ef6, cs)
    requires FreshAll(OnBegin(s, cs[0]), cs[0].body)
    ensures Fresh(s, cs[0]) && Valid(Run(s, cs[0]).trace) && Covers(busy, Run(s, cs[0]))
    ensures DistinctDown(busy, cs[1..]) && NewContexts(Run(s, cs[0]).ef6, cs[1..])
  {
    ContextsApart(s.ef6, cs);
    FreshFirst(s, cs[0], busy);
    RunRestores(s, cs[0]);
    RunGrows(s, cs[0]);
  }

  lemma FreshFirst(s: System, c: Command, busy: Busy)
    requires Covers(busy, s) && FreshAll(OnBegin(s, c), c.body)
    requires HasDictionary(c.kind) ==> (c.kind, c.id) !in busy
    requires c.kind.Ef6Command? ==> c.id !in s.ef6
    ensures Fresh(s, c)
  {}

  /** The ids in flight in s. */
  function InFlightIds(s: System): Busy {
    (set id | id in s.efCore :: (EfCoreCommand, id))
    + (set id | id in s.sqlClient :: (SqlDiagnostic, id))
    + (set id | id in s.sqlSource :: (SqlSource, id))
    + (set id | id in s.elasticsearch :: (ElasticsearchCall, id))
  }

  /** So commands whose ids can be checked before any of them runs put everything back. */
  lemma DistinctRestores(s: System, cs: seq<Command>)
    requires Valid(s.trace) && DistinctDown(InFlightIds(s), cs) && NewContexts(s.ef6, cs)
    ensures Restored(s, RunAll(s, cs))
  {
    DistinctIsFresh(s, cs, InFlightIds(s));
    RunAllRestores(s, cs);
  }
}
