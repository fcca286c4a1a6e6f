/**
 What every listener does on every event, on the fields of the tracer and of its dictionary: the events that start a
 span, those that end one, and the conditions under which they are heeded.  A reader of these lemmas need not know the
 functions the listeners are proved against.
 */
module DbReactions {
  import opened DbEvents
  import opened DbTracing
  import opened Wrappers

  /** There is a current span and it carries one of the flags. */
  predicate CurrentCarries(t: Trace, flags: set<Flag>) {
    t.current.Some? && t.current.value < |t.spans| && t.spans[t.current.value].flag in flags
  }

  /** One span more, under the span that was current; it is current now, and not ended.  Nothing else has changed. */
  predicate SpanOpened(t: Trace, t': Trace, flag: Flag) {
    && t'.inTransaction == t.inTransaction && t'.ended == t.ended
    && |t'.spans| == |t.spans| + 1 && t'.spans[..|t.spans|] == t.spans
    && t'.spans[|t.spans|].flag == flag && t'.spans[|t.spans|].parent == t.current && !t'.spans[|t.spans|].isEnded
    && t'.current == Some(|t.spans|)
  }

  /**
   The span has been passed to an end-of-span call, once.  If it was open it is ended now and its parent is current; no
   other span has changed.
   */
  predicate SpanClosed(t: Trace, t': Trace, span: nat) {
    && t'.inTransaction == t.inTransaction && t'.ended == t.ended + [span]
    && |t'.spans| == |t.spans|
    && (forall i :: 0 <= i < |t.spans| && i != span ==> t'.spans[i] == t.spans[i])
    && (span < |t.spans| ==>
          && t'.spans[span].isEnded
          && t'.spans[span].flag == t.spans[span].flag && t'.spans[span].parent == t.spans[span].parent)
    && t'.current == if span < |t.spans| && !t.spans[span].isEnded then t.spans[span].parent else t.current
  }

  /** table' holds what table holds and, if the id is new, the span under it. */
  ghost predicate Gained(table: Table, table': Table, id: int, span: nat) {
    && table'.Keys == table.Keys + {id}
    && forall k :: k in table' ==> table'[k] == if k in table then table[k] else span
  }

  ghost predicate Lost(table: Table, table': Table, id: int) {
    && table'.Keys == table.Keys - {id}
    && forall k :: k in table' ==> table'[k] == table[k]
  }

  /** A start that is heeded; without a span and a transaction there is nothing to start one on. */
  ghost predicate Starts(t: Trace, table: Table, flag: Flag, id: int, r: (Trace, Table)) {
    if t.current.None? && !t.inTransaction then r == (t, table)
    else SpanOpened(t, r.0, flag) && Gained(table, r.1, id, |t.spans|)
  }

  /** An end that is heeded: the span under the id is taken out of the dictionary and ended. */
  ghost predicate Ends(t: Trace, table: Table, id: int, r: (Trace, Table)) {
    if id in table then SpanClosed(t, r.0, table[id]) && Lost(table, r.1, id) else r == (t, table)
  }

  lemma BeginIsStart(t: Trace, table: Table, flag: Flag, id: int)
    ensures Starts(t, table, flag, id, Begin(t, table, flag, id))
  {}

  lemma FinishIsEnd(t: Trace, table: Table, id: int)
    ensures Ends(t, table, id, Finish(t, table, id))
  {}

  lemma CarriesIsFlag(t: Trace, flag: Flag)
    requires flag != NoFlag
    ensures CurrentFlag(t) == flag <==> CurrentCarries(t, {flag})
  {}

  lemma CarriesEf(t: Trace)
    ensures SuppressesSql(CurrentFlag(t)) <==> CurrentCarries(t, {EfCore, EfClassic})
  {}

  /** SqlClient's diagnostic source: an error ends the span even without its command. */
  lemma SqlClientReacts(t: Trace, table: Table, id: int, hasCommand: bool, r: (Trace, Table))
    ensures
      var heard := !CurrentCarries(t, {EfCore, EfClassic});
      && (r == OnSqlClient(t, table, WriteCommandBefore(Some(id), hasCommand)) ==>
            if heard && hasCommand && t.inTransaction then Starts(t, table, SqlClient, id, r) else r == (t, table))
      && (r == OnSqlClient(t, table, WriteCommandAfter(Some(id), hasCommand)) ==>
            if heard && hasCommand then Ends(t, table, id, r) else r == (t, table))
      && (r == OnSqlClient(t, table, WriteCommandError(Some(id), hasCommand)) ==>
            if heard then Ends(t, table, id, r) else r == (t, table))
  {
    CarriesEf(t);
    BeginIsStart(t, table, SqlClient, id);
    FinishIsEnd(t, table, id);
  }

  lemma SqlClientIgnores(t: Trace, table: Table, e: SqlEvent)
    requires e.Unrelated? || e.id.None?
    ensures OnSqlClient(t, table, e) == (t, table)
  {}

  /** SqlClient's event source: events 1 and 2, with payloads of 4 and 3 entries. */
  lemma EventSourceReacts(t: Trace, table: Table, e: SourceEvent, r: (Trace, Table))
    requires r == OnEventSource(t, table, e)
    ensures
      var heard := !CurrentCarries(t, {EfCore, EfClassic});
      if heard && e.eventId == 1 && e.payloadCount == 4 then Starts(t, table, SqlClient, e.id, r)
      else if heard && e.eventId == 2 && e.payloadCount == 3 then Ends(t, table, e.id, r)
      else r == (t, table)
  {
    CarriesEf(t);
    BeginIsStart(t, table, SqlClient, e.id);
    FinishIsEnd(t, table, e.id);
  }

  lemma EfCoreReacts(t: Trace, table: Table, id: int, isCommandData: bool, r: (Trace, Table))
    ensures
      var heard := !CurrentCarries(t, {SqlClient}) && isCommandData;
      && (r == OnEfCore(t, table, CommandExecuting(id, isCommandData)) ==>
            if heard && t.inTransaction then Starts(t, table, EfCore, id, r) else r == (t, table))
      && (r == OnEfCore(t, table, CommandExecuted(id, isCommandData)) ==>
            if heard then Ends(t, table, id, r) else r == (t, table))
      && (r == OnEfCore(t, table, CommandError(id, isCommandData)) ==>
            if heard then Ends(t, table, id, r) else r == (t, table))
  {
    CarriesIsFlag(t, SqlClient);
    BeginIsStart(t, table, EfCore, id);
    FinishIsEnd(t, table, id);
  }

  lemma EfCoreIgnores(t: Trace, table: Table)
    ensures OnEfCore(t, table, OtherEvent) == (t, table)
  {}

  /** EF 6's interceptor overwrites what the context holds, and leaves it there when it ends it. */
  lemma Ef6Reacts(t: Trace, userState: Table, isConfigured: bool, context: int)
    ensures
      var heard := isConfigured && !CurrentCarries(t, {SqlClient});
      var (started, withSpan) := OnEf6(t, userState, isConfigured, Executing(context));
      var (ended, kept) := OnEf6(t, userState, isConfigured, Executed(context));
      && (if heard && t.inTransaction
          then SpanOpened(t, started, EfClassic) && Gained(userState - {context}, withSpan, context, |t.spans|)
          else (started, withSpan) == (t, userState))
      && kept == userState
      && (if heard && context in userState then SpanClosed(t, ended, userState[context]) else ended == t)
  {
    CarriesIsFlag(t, SqlClient);
  }

  /** Elasticsearch: in a transaction an activity's start opens a span and its stop closes the one it opened. */
  lemma ElasticsearchReacts(t: Trace, table: Table, id: int, r: (Trace, Table))
    ensures r == OnElasticsearch(t, table, ActivityStart(id)) ==>
              if t.inTransaction then Starts(t, table, NoFlag, id, r) else r == (t, table)
    ensures r == OnElasticsearch(t, table, ActivityStop(id)) ==>
              if t.inTransaction then Ends(t, table, id, r) else r == (t, table)
  {
    BeginIsStart(t, table, NoFlag, id);
    FinishIsEnd(t, table, id);
  }

  // ---------------------------------------------------------------- an activity among other events

  /** No event before the last is the Elasticsearch listener's for this id. */
  predicate Leaves(id: int, events: seq<Event>) {
    forall i :: 0 <= i < |events| ==> events[i].ToElasticsearch? ==> events[i].elastic.id != id
  }

  lemma {:induction false} OthersKeep(l: Ledger, events: seq<Event>, id: int, span: nat)
    requires |l.tables| == 4 && id in l.tables[3] && l.tables[3][id] == span && span < |l.trace.spans|
    requires Leaves(id, events)
    ensures
      var m := ReceiveAll(l, events);
      && id in m.tables[3] && m.tables[3][id] == span && m.trace.inTransaction == l.trace.inTransaction
      && span < |m.trace.spans|
  {
    if events != [] {
      var front, e := events[..|events| - 1], events[|events| - 1];
      OthersKeep(l, front, id, span);
      OtherKeeps(ReceiveAll(l, front), e, id);
    }
  }

  lemma OtherKeeps(l: Ledger, e: Event, id: int)
    requires |l.tables| == 4 && id in l.tables[3] && (e.ToElasticsearch? ==> e.elastic.id != id)
    ensures
      var m := Receive(l, e);
      && id in m.tables[3] && m.tables[3][id] == l.tables[3][id] && m.trace.inTransaction == l.trace.inTransaction
      && |m.trace.spans| >= |l.trace.spans|
  {
    var flag, step := ListenerSteps(l.trace, l.tables[ListenerOf(e)], e);
    if e.ToElasticsearch? {
      ElasticsearchReacts(l.trace, l.tables[3], e.elastic.id, Reaction(l.trace, l.tables[3], e));
    }
  }

  /**
   An activity started in a transaction under a new id opens a span that no event but its own stop ends, whatever other
   events there are, to whatever listeners, before that stop; and the stop ends it and takes the id out.
   */
  lemma StopEndsItsStart(first: nat, l: Ledger, id: int, events: seq<Event>)
    requires |l.tables| == 4 && Books(first, l) && l.trace.inTransaction && id !in l.tables[3] && Leaves(id, events)
    ensures
      var n := |l.trace.spans|;
      var begun := Receive(l, ToElasticsearch(ActivityStart(id)));
      var m := ReceiveAll(begun, events);
      var r := Receive(m, ToElasticsearch(ActivityStop(id)));
      && |begun.trace.spans| == n + 1 && begun.trace.current == Some(n)
      && id in m.tables[3] && m.tables[3][id] == n && n !in m.trace.ended
      && id !in r.tables[3] && r.trace.ended == m.trace.ended + [n]
      && n < |r.trace.spans| && r.trace.spans[n].isEnded
  {
    var n := |l.trace.spans|;
    var start, stop := ToElasticsearch(ActivityStart(id)), ToElasticsearch(ActivityStop(id));
    var begun := Receive(l, start);
    var m := ReceiveAll(begun, events);
    ElasticsearchReacts(l.trace, l.tables[3], id, Reaction(l.trace, l.tables[3], start));
    assert id in begun.tables[3] && begun.tables[3][id] == n;
    OthersKeep(begun, events, id, n);
    ReceiveKeeps(first, l, start);
    EventsAccounted(first, begun, events);
    assert InTable(m.tables, 3, id);
    ElasticsearchReacts(m.trace, m.tables[3], id, Reaction(m.trace, m.tables[3], stop));
  }
}
