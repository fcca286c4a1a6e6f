/**
 Competing instrumentation of one command.  Entity Framework runs its commands through SqlClient, so one
 database call is announced to several listeners, one announcement inside the other.  A run here is a tree of
 commands, each announced before and after its body to the listener of its kind.  The theorem is about every
 tree: which announcements yield a span, and that everything a run changes is put back by its end.
 */
module DbNesting {
  import opened Wrappers
  import opened DbTracing

  // ---------------------------------------------------------------- command trees and their events

  /** The listener a command is announced to; Custom is a span that application code opens around its body. */
  datatype Kind = EfCoreCommand | Ef6Command | SqlDiagnostic | SqlSource | ElasticsearchCall | Custom(flag: Flag)

  datatype Command = Command(kind: Kind, id: int, body: seq<Command>, fails: bool)

  datatype System =
    System(trace: Trace, sqlClient: Table, sqlSource: Table, efCore: Table, ef6: Table, elasticsearch: Table)

  function OnBegin(s: System, c: Command): System {
    match c.kind
    case EfCoreCommand =>
      var (t, table) := OnEfCore(s.trace, s.efCore, CommandExecuting(c.id, true));
      s.(trace := t, efCore := table)
    case Ef6Command =>
      var (t, table) := OnEf6(s.trace, s.ef6, true, Executing(c.id));
      s.(trace := t, ef6 := table)
    case SqlDiagnostic =>
      var (t, table) := OnSqlClient(s.trace, s.sqlClient, WriteCommandBefore(Some(c.id), true));
      s.(trace := t, sqlClient := table)
    case SqlSource =>
      var (t, table) := OnEventSource(s.trace, s.sqlSource, SourceEvent(BEGIN_EXECUTE_EVENT_ID, 4, c.id));
      s.(trace := t, sqlSource := table)
    case ElasticsearchCall =>
      var (t, table) := OnElasticsearch(s.trace, s.elasticsearch, ActivityStart(c.id));
      s.(trace := t, elasticsearch := table)
    case Custom(flag) =>
      if s.trace.inTransaction then s.(trace := Started(s.trace, flag).0) else s
  }

  /** before is the system as it was when the command began; application code keeps its own span. */
  function OnEnd(before: System, s: System, c: Command): System {
    match c.kind
    case EfCoreCommand =>
      var e := if c.fails then CommandError(c.id, true) else CommandExecuted(c.id, true);
      var (t, table) := OnEfCore(s.trace, s.efCore, e);
      s.(trace := t, efCore := table)
    case Ef6Command =>
      var (t, table) := OnEf6(s.trace, s.ef6, true, Executed(c.id));
      s.(trace := t, ef6 := table)
    case SqlDiagnostic =>
      var e := if c.fails then WriteCommandError(Some(c.id), true) else WriteCommandAfter(Some(c.id), true);
      var (t, table) := OnSqlClient(s.trace, s.sqlClient, e);
      s.(trace := t, sqlClient := table)
    case SqlSource =>
      var (t, table) := OnEventSource(s.trace, s.sqlSource, SourceEvent(END_EXECUTE_ID, 3, c.id));
      s.(trace := t, sqlSource := table)
    case ElasticsearchCall =>
      var (t, table) := OnElasticsearch(s.trace, s.elasticsearch, ActivityStop(c.id));
      s.(trace := t, elasticsearch := table)
    case Custom(_) =>
      if before.trace.inTransaction then s.(trace := EndRequested(s.trace, |before.trace.spans|)) else s
  }

  function Run(s: System, c: Command): System
    decreases c, 0
  {
    OnEnd(s, RunAll(OnBegin(s, c), c.body), c)
  }

  function RunAll(s: System, cs: seq<Command>): System
    decreases cs, 1
  {
    if cs == [] then s else RunAll(Run(s, cs[0]), cs[1..])
  }

  // ---------------------------------------------------------------- what the caller must see to

  /** The command's id is not in flight: its listener's table does not hold it. */
  predicate NotInFlight(s: System, c: Command) {
    match c.kind
    case EfCoreCommand => c.id !in s.efCore
    case Ef6Command => c.id !in s.ef6
    case SqlDiagnostic => c.id !in s.sqlClient
    case SqlSource => c.id !in s.sqlSource
    case ElasticsearchCall => c.id !in s.elasticsearch
    case Custom(_) => true
  }

  predicate Fresh(s: System, c: Command)
    decreases c, 0
  {
    NotInFlight(s, c) && FreshAll(OnBegin(s, c), c.body)
  }

  predicate FreshAll(s: System, cs: seq<Command>)
    decreases cs, 1
  {
    cs == [] || (Fresh(s, cs[0]) && FreshAll(Run(s, cs[0]), cs[1..]))
  }

  predicate Valid(t: Trace) {
    t.current.Some? ==> t.current.value < |t.spans|
  }

  // ---------------------------------------------------------------- which commands get a span

  function FlagOf(kind: Kind): Flag {
    match kind
    case EfCoreCommand => EfCore
    case Ef6Command => EfClassic
    case SqlDiagnostic => SqlClient
    case SqlSource => SqlClient
    case ElasticsearchCall => NoFlag
    case Custom(flag) => flag
  }

  /** By kind, whether a command gets a span when the current span, if there is one, carries the given flag. */
  predicate Accepted(kind: Kind, inTransaction: bool, hasSpan: bool, flag: Flag) {
    match kind
    case EfCoreCommand => inTransaction && flag != SqlClient
    case Ef6Command => inTransaction && flag != SqlClient
    case SqlDiagnostic => inTransaction && flag != EfCore && flag != EfClassic
    case SqlSource => (inTransaction || hasSpan) && flag != EfCore && flag != EfClassic
    case ElasticsearchCall => inTransaction
    case Custom(_) => inTransaction
  }

  /** The spans a tree of commands should yield, read off the tree alone. */
  function SpanCount(c: Command, inTransaction: bool, hasSpan: bool, flag: Flag): nat
    decreases c, 0
  {
    if Accepted(c.kind, inTransaction, hasSpan, flag) then 1 + SpanCounts(c.body, inTransaction, true, FlagOf(c.kind))
    else SpanCounts(c.body, inTransaction, hasSpan, flag)
  }

  function SpanCounts(cs: seq<Command>, inTransaction: bool, hasSpan: bool, flag: Flag): nat
    decreases cs, 1
  {
    if cs == [] then 0
    else SpanCount(cs[0], inTransaction, hasSpan, flag) + SpanCounts(cs[1..], inTransaction, hasSpan, flag)
  }

  predicate AcceptedIn(t: Trace, kind: Kind) {
    Accepted(kind, t.inTransaction, t.current.Some?, CurrentFlag(t))
  }

  // ---------------------------------------------------------------- what a run leaves behind

  ghost function Numbers(lo: nat, hi: nat): multiset<nat>
    requires lo <= hi
    decreases hi - lo
  {
    if lo == hi then multiset{} else multiset{lo} + Numbers(lo + 1, hi)
  }

  lemma {:induction false} NumbersSplit(lo: nat, mid: nat, hi: nat)
    requires lo <= mid <= hi
    ensures Numbers(lo, hi) == Numbers(lo, mid) + Numbers(mid, hi)
    decreases mid - lo
  {
    if lo < mid {
      NumbersSplit(lo + 1, mid, hi);
    }
  }

  /** The tables of commands in flight, as one value. */
  function InFlight(s: System): (Table, Table, Table, Table) {
    (s.sqlClient, s.sqlSource, s.efCore, s.elasticsearch)
  }

  /** The user state of contexts known before is untouched. */
  predicate Extends(before: Table, after: Table) {
    forall k :: k in before ==> k in after && after[k] == before[k]
  }

  /**
   r is s with some more spans, every one of them ended, each by exactly one end-of-span call: the tables of
   commands in flight are as they were, and so are the current span and all earlier spans.
   */
  ghost predicate Restored(s: System, r: System) {
    && InFlight(r) == InFlight(s)
    && Extends(s.ef6, r.ef6) && (!s.trace.inTransaction ==> r.ef6 == s.ef6)
    && TraceRestored(s.trace, r.trace)
  }

  ghost predicate TraceRestored(t: Trace, r: Trace) {
    && r.inTransaction == t.inTransaction
    && r.current == t.current
    && t.spans <= r.spans
    && (forall k :: |t.spans| <= k < |r.spans| ==> r.spans[k].isEnded)
    && t.ended <= r.ended
    && multiset(r.ended[|t.ended|..]) == Numbers(|t.spans|, |r.spans|)
  }

  lemma RestoredTransitive(s: System, m: System, r: System)
    requires Restored(s, m) && Restored(m, r)
    ensures Restored(s, r)
  {
    NumbersSplit(|s.trace.spans|, |m.trace.spans|, |r.trace.spans|);
    assert r.trace.ended[|s.trace.ended|..] == m.trace.ended[|s.trace.ended|..] + r.trace.ended[|m.trace.ended|..];
  }

  /** A span opened on t, its body run, and then ended: all as it was, with one more span than the body made. */
  lemma OpenAndClose(t: Trace, flag: Flag, m: Trace)
    requires Valid(t) && Started(t, flag).1.Some?
    requires TraceRestored(Started(t, flag).0, m)
    ensures TraceRestored(t, EndRequested(m, |t.spans|))
  {
    var begun := Started(t, flag).0;
    var n := |t.spans|;
    var r := EndRequested(m, n);
    assert begun.spans[n] == m.spans[n];
    assert r.ended[|t.ended|..] == m.ended[|t.ended|..] + [n];
  }

  /** A start is accepted exactly when the rules say so, and then it opens one span of the command's family. */
  lemma BeginAccepts(s: System, c: Command)
    requires Valid(s.trace) && NotInFlight(s, c)
    ensures var b := OnBegin(s, c);
            if AcceptedIn(s.trace, c.kind) then
              b.trace == Started(s.trace, FlagOf(c.kind)).0 && |b.trace.spans| == |s.trace.spans| + 1
            else b == s
    ensures Valid(OnBegin(s, c).trace)
  {}

  lemma RejectedEnd(s: System, m: System, c: Command)
    requires NotInFlight(s, c) && !AcceptedIn(s.trace, c.kind)
    requires Valid(s.trace) && Restored(s, m)
    ensures OnEnd(s, m, c) == m
  {
    FlagRestored(s.trace, m.trace);
  }

  lemma FlagRestored(t: Trace, m: Trace)
    requires Valid(t) && TraceRestored(t, m)
    ensures CurrentFlag(m) == CurrentFlag(t)
  {}

  lemma BeginThenFinish(t: Trace, table: Table, flag: Flag, id: int, m: Trace)
    requires id !in table && Started(t, flag).1.Some?
    ensures Finish(m, Begin(t, table, flag, id).1, id) == (EndRequested(m, |t.spans|), table)
  {
    assert table[id := |t.spans|] - {id} == table;
  }

  /** Inside the body and at its end, the current span is again the one the command's start opened. */
  lemma OwnFlagAtEnd(t: Trace, flag: Flag, m: Trace)
    requires Started(t, flag).1.Some? && TraceRestored(Started(t, flag).0, m)
    ensures CurrentFlag(m) == flag
  {}

  predicate ClosesOwnSpan(s: System, m: System, r: System) {
    && r.trace == EndRequested(m.trace, |s.trace.spans|)
    && InFlight(r) == InFlight(s) && r.ef6 == m.ef6
  }

  lemma EfCoreEnd(s: System, m: System, c: Command)
    requires c.kind == EfCoreCommand
    requires NotInFlight(s, c) && AcceptedIn(s.trace, c.kind)
    requires Valid(s.trace) && Restored(OnBegin(s, c), m)
    ensures ClosesOwnSpan(s, m, OnEnd(s, m, c))
  {
    OwnFlagAtEnd(s.trace, FlagOf(c.kind), m.trace);
    BeginThenFinish(s.trace, s.efCore, EfCore, c.id, m.trace);
  }

  lemma Ef6End(s: System, m: System, c: Command)
    requires c.kind == Ef6Command
    requires NotInFlight(s, c) && AcceptedIn(s.trace, c.kind)
    requires Valid(s.trace) && Restored(OnBegin(s, c), m)
    ensures ClosesOwnSpan(s, m, OnEnd(s, m, c))
  {
    OwnFlagAtEnd(s.trace, FlagOf(c.kind), m.trace);
    assert m.ef6[c.id] == |s.trace.spans|;
  }

  lemma SqlClientEnd(s: System, m: System, c: Command)
    requires c.kind == SqlDiagnostic || c.kind == SqlSource
    requires NotInFlight(s, c) && AcceptedIn(s.trace, c.kind)
    requires Valid(s.trace) && Restored(OnBegin(s, c), m)
    ensures ClosesOwnSpan(s, m, OnEnd(s, m, c))
  {
    OwnFlagAtEnd(s.trace, FlagOf(c.kind), m.trace);
    BeginThenFinish(s.trace, if c.kind == SqlSource then s.sqlSource else s.sqlClient, SqlClient, c.id, m.trace);
  }

  lemma ElasticsearchEnd(s: System, m: System, c: Command)
    requires c.kind == ElasticsearchCall
    requires NotInFlight(s, c) && AcceptedIn(s.trace, c.kind)
    requires Valid(s.trace) && Restored(OnBegin(s, c), m)
    ensures ClosesOwnSpan(s, m, OnEnd(s, m, c))
  {
    BeginThenFinish(s.trace, s.elasticsearch, NoFlag, c.id, m.trace);
  }

  lemma AcceptedEnd(s: System, m: System, c: Command)
    requires NotInFlight(s, c) && AcceptedIn(s.trace, c.kind)
    requires Valid(s.trace) && Restored(OnBegin(s, c), m)
    ensures ClosesOwnSpan(s, m, OnEnd(s, m, c))
  {
    match c.kind {
      case EfCoreCommand => EfCoreEnd(s, m, c);
      case Ef6Command => Ef6End(s, m, c);
      case SqlDiagnostic => SqlClientEnd(s, m, c);
      case SqlSource => SqlClientEnd(s, m, c);
      case ElasticsearchCall => ElasticsearchEnd(s, m, c);
      case Custom(_) =>
    }
  }

  /**
   The matching end is accepted exactly when the start was: then it ends the span the start opened and takes it
   out of its table, and otherwise it does nothing.
   */
  lemma EndMatchesBegin(s: System, m: System, c: Command)
    requires Valid(s.trace) && NotInFlight(s, c)
    requires Restored(OnBegin(s, c), m)
    ensures if AcceptedIn(s.trace, c.kind) then OnEnd(s, m, c).trace == EndRequested(m.trace, |s.trace.spans|)
            else OnEnd(s, m, c) == m
    ensures Restored(s, OnEnd(s, m, c))
  {
    if AcceptedIn(s.trace, c.kind) {
      AcceptedRestores(s, m, c);
    } else {
      RejectedRestores(s, m, c);
    }
  }

  lemma RejectedRestores(s: System, m: System, c: Command)
    requires Valid(s.trace) && NotInFlight(s, c) && !AcceptedIn(s.trace, c.kind) && Restored(OnBegin(s, c), m)
    ensures OnEnd(s, m, c) == m && Restored(s, m)
  {
    BeginAccepts(s, c);
    RejectedEnd(s, m, c);
  }

  lemma AcceptedRestores(s: System, m: System, c: Command)
    requires Valid(s.trace) && NotInFlight(s, c) && AcceptedIn(s.trace, c.kind) && Restored(OnBegin(s, c), m)
    ensures OnEnd(s, m, c).trace == EndRequested(m.trace, |s.trace.spans|) && Restored(s, OnEnd(s, m, c))
  {
    AcceptedEnd(s, m, c);
    AcceptedCloses(s, m, c);
    Ef6Extends(s, m, c);
    ClosedRestores(s, m, OnEnd(s, m, c));
  }

  lemma AcceptedCloses(s: System, m: System, c: Command)
    requires Valid(s.trace) && NotInFlight(s, c) && AcceptedIn(s.trace, c.kind) && Restored(OnBegin(s, c), m)
    ensures TraceRestored(s.trace, EndRequested(m.trace, |s.trace.spans|))
  {
    BeginAccepts(s, c);
    OpenAndClose(s.trace, FlagOf(c.kind), m.trace);
  }

  lemma ClosedRestores(s: System, m: System, r: System)
    requires ClosesOwnSpan(s, m, r) && TraceRestored(s.trace, EndRequested(m.trace, |s.trace.spans|))
    requires Extends(s.ef6, m.ef6) && (!s.trace.inTransaction ==> m.ef6 == s.ef6)
    ensures Restored(s, r)
  {}

  /** A start changes no user state but that of its own EF 6 context, and that only in a transaction. */
  lemma BeginExtends(s: System, c: Command)
    requires NotInFlight(s, c)
    ensures Extends(s.ef6, OnBegin(s, c).ef6) && (!s.trace.inTransaction ==> OnBegin(s, c).ef6 == s.ef6)
    ensures OnBegin(s, c).trace.inTransaction == s.trace.inTransaction
  {
    if c.kind == Ef6Command {
      Ef6Begins(s.trace, s.ef6, c.id);
    }
  }

  lemma Ef6Begins(t: Trace, userState: Table, id: int)
    requires id !in userState
    ensures
      var after := OnEf6(t, userState, true, Executing(id)).1;
      Extends(userState, after) && (!t.inTransaction ==> after == userState)
  {}

  lemma Ef6Extends(s: System, m: System, c: Command)
    requires NotInFlight(s, c) && Restored(OnBegin(s, c), m)
    ensures Extends(s.ef6, m.ef6) && (!s.trace.inTransaction ==> m.ef6 == s.ef6)
  {
    BeginExtends(s, c);
    RestoredExtends(s, OnBegin(s, c), m);
  }

  lemma RestoredExtends(s: System, b: System, m: System)
    requires Extends(s.ef6, b.ef6) && (!s.trace.inTransaction ==> b.ef6 == s.ef6)
    requires b.trace.inTransaction == s.trace.inTransaction && Restored(b, m)
    ensures Extends(s.ef6, m.ef6) && (!s.trace.inTransaction ==> m.ef6 == s.ef6)
  {}

  /**
   Every run of every tree puts everything back, and the number of spans it adds is the one read off the tree:
   in particular a SqlClient command directly inside an accepted EF command adds none, nor the other way round.
   */
  lemma {:induction false} RunRestores(s: System, c: Command)
    requires Valid(s.trace) && Fresh(s, c)
    ensures Restored(s, Run(s, c))
    ensures var t := s.trace;
            |Run(s, c).trace.spans| - |t.spans| == SpanCount(c, t.inTransaction, t.current.Some?, CurrentFlag(t))
    decreases c, 0
  {
    BeginAccepts(s, c);
    var b := OnBegin(s, c);
    RunAllRestores(b, c.body);
    EndMatchesBegin(s, RunAll(b, c.body), c);
  }

  lemma {:induction false} RunAllRestores(s: System, cs: seq<Command>)
    requires Valid(s.trace) && FreshAll(s, cs)
    ensures Restored(s, RunAll(s, cs))
    ensures var t := s.trace;
            |RunAll(s, cs).trace.spans| - |t.spans| == SpanCounts(cs, t.inTransaction, t.current.Some?, CurrentFlag(t))
    decreases cs, 1
  {
    if cs != [] {
      RunRestores(s, cs[0]);
      var m := Run(s, cs[0]);
      RunAllRestores(m, cs[1..]);
      RestoredTransitive(s, m, RunAll(m, cs[1..]));
    }
  }

  // ---------------------------------------------------------------- one call, one span

  predicate IsSql(kind: Kind) {
    kind == SqlDiagnostic || kind == SqlSource
  }

  predicate IsEf(kind: Kind) {
    kind == EfCoreCommand || kind == Ef6Command
  }

  /** The whole forest consists of commands of one family: SqlClient's or Entity Framework's. */
  predicate AllOf(sql: bool, cs: seq<Command>) {
    forall c :: c in cs ==> (if sql then IsSql(c.kind) else IsEf(c.kind)) && AllOf(sql, c.body)
  }

  /** Inside a span of the one family, commands of the other family add no span, however deep they nest. */
  lemma {:induction false} OtherFamilySuppressed(sql: bool, cs: seq<Command>, inTransaction: bool, flag: Flag)
    requires AllOf(sql, cs)
    requires if sql then flag == EfCore || flag == EfClassic else flag == SqlClient
    ensures SpanCounts(cs, inTransaction, true, flag) == 0
  {
    if cs != [] {
      OtherFamilySuppressed(sql, cs[0].body, inTransaction, flag);
      OtherFamilySuppressed(sql, cs[1..], inTransaction, flag);
    }
  }

  /** A command that is accepted and carried out by commands of the competing family counts once. */
  lemma OneSpanPerCall(s: System, c: Command)
    requires Valid(s.trace) && Fresh(s, c) && AcceptedIn(s.trace, c.kind)
    requires (IsEf(c.kind) && AllOf(true, c.body)) || (IsSql(c.kind) && AllOf(false, c.body))
    ensures |Run(s, c).trace.spans| == |s.trace.spans| + 1
  {
    RunRestores(s, c);
    OtherFamilySuppressed(IsEf(c.kind), c.body, s.trace.inTransaction, FlagOf(c.kind));
  }

  /** The subscriber creates one listener for SqlClient, by platform: for its diagnostic source, or its event source. */
  function SqlListener(isDotNetCore: bool, isDotNet5: bool): (kind: Kind)
    ensures IsSql(kind) && (kind == SqlSource <==> !isDotNetCore && !isDotNet5)
  {
    if isDotNetCore || isDotNet5 then SqlDiagnostic else SqlSource
  }

  /** The only SqlClient listener that hears of anything in the forest is the given one. */
  predicate Wired(sql: Kind, cs: seq<Command>) {
    forall c :: c in cs ==> (IsSql(c.kind) ==> c.kind == sql) && Wired(sql, c.body)
  }

  /**
   The announcements of one database call, one inside the other: it goes through one Entity Framework at most, and no
   listener hears of it twice.
   */
  predicate OfCall(ef: Kind, heard: set<Kind>, c: Command)
    decreases c
  {
    && (IsSql(c.kind) || c.kind == ef) && c.kind !in heard
    && forall d :: d in c.body ==> OfCall(ef, heard + {c.kind}, d)
  }

  predicate IsCall(c: Command) {
    OfCall(EfCoreCommand, {}, c) || OfCall(Ef6Command, {}, c)
  }

  /** A command of Entity Framework carried out by one of SqlClient is a call, and so is the reverse, and either alone. */
  lemma CallShapes(ef: Kind, i: int, sql: Kind, j: int, fails: bool)
    requires IsEf(ef) && IsSql(sql)
    ensures IsCall(Command(ef, i, [], fails)) && IsCall(Command(sql, j, [], fails))
    ensures IsCall(Command(ef, i, [Command(sql, j, [], fails)], fails))
    ensures IsCall(Command(sql, j, [Command(ef, i, [], fails)], fails))
  {
    assert OfCall(ef, {}, Command(ef, i, [], fails)) && OfCall(ef, {}, Command(sql, j, [], fails));
    assert OfCall(ef, {} + {ef}, Command(sql, j, [], fails)) && OfCall(ef, {} + {sql}, Command(ef, i, [], fails));
    assert OfCall(ef, {}, Command(ef, i, [Command(sql, j, [], fails)], fails));
    assert OfCall(ef, {}, Command(sql, j, [Command(ef, i, [], fails)], fails));
  }

  /** Under the announcement to one family's listener there are only announcements to the other family's. */
  lemma {:induction false} OneFamilyBelow(sql: Kind, ef: Kind, heard: set<Kind>, isSql: bool, cs: seq<Command>)
    requires IsSql(sql) && IsEf(ef) && Wired(sql, cs) && forall c :: c in cs ==> OfCall(ef, heard, c)
    requires if isSql then ef in heard else sql in heard
    ensures AllOf(isSql, cs)
    decreases cs
  {
    forall c | c in cs ensures (if isSql then IsSql(c.kind) else IsEf(c.kind)) && AllOf(isSql, c.body) {
      OneFamilyBelow(sql, ef, heard + {c.kind}, isSql, c.body);
    }
  }

  lemma CallCounts(sql: Kind, ef: Kind, c: Command, hasSpan: bool, flag: Flag)
    requires IsSql(sql) && IsEf(ef) && Wired(sql, [c]) && OfCall(ef, {}, c)
    requires flag != EfCore && flag != EfClassic && flag != SqlClient
    ensures SpanCount(c, true, hasSpan, flag) == 1
  {
    assert c in [c] && {} + {c.kind} == {c.kind};
    OneFamilyBelow(sql, ef, {c.kind}, IsEf(c.kind), c.body);
    OtherFamilySuppressed(IsEf(c.kind), c.body, true, FlagOf(c.kind));
  }

  lemma {:induction false} CallsCount(sql: Kind, cs: seq<Command>, hasSpan: bool, flag: Flag)
    requires IsSql(sql) && Wired(sql, cs) && forall c :: c in cs ==> IsCall(c)
    requires flag != EfCore && flag != EfClassic && flag != SqlClient
    ensures SpanCounts(cs, true, hasSpan, flag) == |cs|
  {
    if cs != [] {
      var c := cs[0];
      assert c in cs && Wired(sql, [c]);
      CallCounts(sql, if OfCall(EfCoreCommand, {}, c) then EfCoreCommand else Ef6Command, c, hasSpan, flag);
      CallsCount(sql, cs[1..], hasSpan, flag);
    }
  }

  /**
   On either platform, database calls made in a transaction and outside of any database span count once each, however
   many listeners hear of each of them and in whatever nesting.
   */
  lemma OneSpanEach(s: System, cs: seq<Command>, isDotNetCore: bool, isDotNet5: bool)
    requires Valid(s.trace) && FreshAll(s, cs) && s.trace.inTransaction
    requires CurrentFlag(s.trace) != EfCore && CurrentFlag(s.trace) != EfClassic && CurrentFlag(s.trace) != SqlClient
    requires Wired(SqlListener(isDotNetCore, isDotNet5), cs) && forall c :: c in cs ==> IsCall(c)
    ensures |RunAll(s, cs).trace.spans| == |s.trace.spans| + |cs|
  {
    RunAllRestores(s, cs);
    CallsCount(SqlListener(isDotNetCore, isDotNet5), cs, s.trace.current.Some?, CurrentFlag(s.trace));
  }
}
