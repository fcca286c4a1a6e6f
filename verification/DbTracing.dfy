/**
 The tracer as the database listeners see it: one current span, spans that restore their parent when they end,
 and four listeners that start and end spans for the commands they are told about.  The listeners are objects
 sharing the tracer; each method is proved against a function on the tracer's state and the listener's table.
 */
module DbTracing {
  import opened Wrappers

  // ---------------------------------------------------------------- spans and the tracer

  datatype Flag = NoFlag | HttpClient | AspNetCore | EfCore | EfClassic | SqlClient | AspNetClassic

  /** parent is the span that was current when this one started, if any. */
  datatype Span = Span(flag: Flag, parent: Option<nat>, isEnded: bool)

  type Table = map<int, nat>

  /**
   Spans are numbered in the order they start.  ended lists the numbers passed to a listener's end-of-span
   call, in order.
   */
  datatype Trace = Trace(inTransaction: bool, spans: seq<Span>, current: Option<nat>, ended: seq<nat>)

  function CurrentFlag(t: Trace): Flag {
    if t.current.Some? && t.current.value < |t.spans| then t.spans[t.current.value].flag else NoFlag
  }

  /** Starting a span makes it current; there is nothing to start it on outside of any span and transaction. */
  function Started(t: Trace, flag: Flag): (Trace, Option<nat>) {
    if t.current.None? && !t.inTransaction then (t, None)
    else (t.(spans := t.spans + [Span(flag, t.current, false)], current := Some(|t.spans|)), Some(|t.spans|))
  }

  /** Span.End: only the first call counts; it makes the parent current. */
  function Ended(t: Trace, span: nat): Trace {
    if span < |t.spans| && !t.spans[span].isEnded then
      t.(spans := t.spans[span := t.spans[span].(isEnded := true)], current := t.spans[span].parent)
    else t
  }

  /** The end of a span as a listener asks for it. */
  function EndRequested(t: Trace, span: nat): Trace {
    Ended(t, span).(ended := t.ended + [span])
  }

  class Tracer {
    var inTransaction: bool
    var spans: seq<Span>
    var current: Option<nat>
    ghost var ended: seq<nat>

    ghost function View(): Trace
      reads this
    {
      Trace(inTransaction, spans, current, ended)
    }

    method StartSpan(flag: Flag) returns (span: Option<nat>)
      modifies this
      ensures (View(), span) == Started(old(View()), flag)
    {
      if current.None? && !inTransaction {
        return None;
      }
      span := Some(|spans|);
      spans := spans + [Span(flag, current, false)];
      current := span;
    }

    method End(span: nat)
      modifies this
      ensures View() == Ended(old(View()), span)
    {
      if span < |spans| {
        var isFirstEndCall := !spans[span].isEnded;
        spans := spans[span := spans[span].(isEnded := true)];
        if isFirstEndCall {
          current := spans[span].parent;
        }
      }
    }

    /** DbSpanCommon.EndSpan: it ends a span of the agent's own class, and then ends it once more. */
    method EndSpan(span: nat)
      modifies this
      ensures View() == EndRequested(old(View()), span)
    {
      End(span);
      End(span);
      ended := ended + [span];
    }

    /** A listener that ends the span itself. */
    method EndDirectly(span: nat)
      modifies this
      ensures View() == EndRequested(old(View()), span)
    {
      End(span);
      ended := ended + [span];
    }

    /** Whether the current span carries one of two flags, as the guards ask. */
    predicate CurrentIs(flag: Flag, other: Flag)
      reads this
    {
      current.Some? && current.value < |spans| && spans[current.value].flag in {flag, other}
    }
  }

  // ---------------------------------------------------------------- SqlClientDiagnosticListener

  /** What a diagnostic event carries; the parts a payload may fail to have are options and flags. */
  datatype SqlEvent =
    | WriteCommandBefore(id: Option<int>, hasCommand: bool)
    | WriteCommandAfter(id: Option<int>, hasCommand: bool)
    | WriteCommandError(id: Option<int>, hasCommand: bool)
    | Unrelated

  predicate SuppressesSql(flag: Flag) {
    flag == EfCore || flag == EfClassic
  }

  function AddIfNew(table: Table, id: int, span: nat): Table {
    if id in table then table else table[id := span]
  }

  /** A successful Start followed by TryAdd; nothing happens where no span can be started. */
  function Begin(t: Trace, table: Table, flag: Flag, id: int): (Trace, Table) {
    var (t', span) := Started(t, flag);
    (t', if span.Some? then AddIfNew(table, id, span.value) else table)
  }

  /** TryRemove followed by the end of the span that was found. */
  function Finish(t: Trace, table: Table, id: int): (Trace, Table) {
    if id in table then (EndRequested(t, table[id]), table - {id}) else (t, table)
  }

  function OnSqlClient(t: Trace, table: Table, e: SqlEvent): (Trace, Table) {
    if SuppressesSql(CurrentFlag(t)) then (t, table)
    else
      match e
      case WriteCommandBefore(id, hasCommand) =>
        if t.inTransaction && id.Some? && hasCommand then Begin(t, table, SqlClient, id.value) else (t, table)
      case WriteCommandAfter(id, hasCommand) =>
        if id.Some? && hasCommand then Finish(t, table, id.value) else (t, table)
      case WriteCommandError(id, _) =>
        if id.Some? then Finish(t, table, id.value) else (t, table)
      case Unrelated => (t, table)
  }

  class SqlClientDiagnosticListener {
    const tracer: Tracer
    var spans: Table

    constructor (tracer: Tracer)
      ensures this.tracer == tracer && spans == map[]
    {
      this.tracer := tracer;
      spans := map[];
    }

    method OnNext(e: SqlEvent)
      modifies this, tracer
      ensures (tracer.View(), spans) == OnSqlClient(old(tracer.View()), old(spans), e)
    {
      if tracer.CurrentIs(EfCore, EfClassic) {
        return;
      }
      match e {
        case WriteCommandBefore(id, hasCommand) =>
          if tracer.inTransaction {
            HandleStartCommand(id, hasCommand);
          }
        case WriteCommandAfter(id, hasCommand) => HandleStopCommand(id, hasCommand);
        case WriteCommandError(id, hasCommand) => HandleErrorCommand(id, hasCommand);
        case Unrelated =>
      }
    }

    method HandleStartCommand(id: Option<int>, hasCommand: bool)
      modifies this, tracer
      ensures (tracer.View(), spans) ==
              if id.Some? && hasCommand then Begin(old(tracer.View()), old(spans), SqlClient, id.value)
              else (old(tracer.View()), old(spans))
    {
      if id.Some? && hasCommand {
        var span := tracer.StartSpan(SqlClient);
        if span.Some? && id.value !in spans {
          spans := spans[id.value := span.value];
        }
      }
    }

    method HandleStopCommand(id: Option<int>, hasCommand: bool)
      modifies this, tracer
      ensures (tracer.View(), spans) ==
              if id.Some? && hasCommand then Finish(old(tracer.View()), old(spans), id.value)
              else (old(tracer.View()), old(spans))
    {
      if id.Some? && hasCommand && id.value in spans {
        var span := spans[id.value];
        spans := spans - {id.value};
        tracer.EndSpan(span);
      }
    }

    /** An error without its command still ends the span, directly. */
    method HandleErrorCommand(id: Option<int>, hasCommand: bool)
      modifies this, tracer
      ensures (tracer.View(), spans) ==
              if id.Some? then Finish(old(tracer.View()), old(spans), id.value)
              else (old(tracer.View()), old(spans))
    {
      if id.Some? && id.value in spans {
        var span := spans[id.value];
        spans := spans - {id.value};
        if hasCommand {
          tracer.EndSpan(span);
        } else {
          tracer.EndDirectly(span);
        }
      }
    }
  }

  // ---------------------------------------------------------------- SqlEventListener

  /** An event of the SqlClient event source: its number, the length of its payload and the command's id. */
  datatype SourceEvent = SourceEvent(eventId: int, payloadCount: nat, id: int)

  const BEGIN_EXECUTE_EVENT_ID := 1
  const END_EXECUTE_ID := 2

  function OnEventSource(t: Trace, table: Table, e: SourceEvent): (Trace, Table) {
    if SuppressesSql(CurrentFlag(t)) then (t, table)
    else if e.eventId == BEGIN_EXECUTE_EVENT_ID then
      if e.payloadCount == 4 then Begin(t, table, SqlClient, e.id) else (t, table)
    else if e.eventId == END_EXECUTE_ID then
      if e.payloadCount == 3 then Finish(t, table, e.id) else (t, table)
    else (t, table)
  }

  class SqlEventListener {
    const tracer: Tracer
    var processingSpans: Table

    constructor (tracer: Tracer)
      ensures this.tracer == tracer && processingSpans == map[]
    {
      this.tracer := tracer;
      processingSpans := map[];
    }

    method OnEventWritten(e: SourceEvent)
      modifies this, tracer
      ensures (tracer.View(), processingSpans) == OnEventSource(old(tracer.View()), old(processingSpans), e)
    {
      if tracer.CurrentIs(EfCore, EfClassic) {
        return;
      }
      if e.eventId == BEGIN_EXECUTE_EVENT_ID {
        ProcessBeginExecute(e);
      } else if e.eventId == END_EXECUTE_ID {
        ProcessEndExecute(e);
      }
    }

    method ProcessBeginExecute(e: SourceEvent)
      modifies this, tracer
      ensures (tracer.View(), processingSpans) ==
              if e.payloadCount == 4 then Begin(old(tracer.View()), old(processingSpans), SqlClient, e.id)
              else (old(tracer.View()), old(processingSpans))
    {
      if e.payloadCount != 4 {
        return;
      }
      var span := tracer.StartSpan(SqlClient);
      if span.None? {
        return;
      }
      if e.id !in processingSpans {
        processingSpans := processingSpans[e.id := span.value];
      }
    }

    method ProcessEndExecute(e: SourceEvent)
      modifies this, tracer
      ensures (tracer.View(), processingSpans) ==
              if e.payloadCount == 3 then Finish(old(tracer.View()), old(processingSpans), e.id)
              else (old(tracer.View()), old(processingSpans))
    {
      if e.payloadCount != 3 || e.id !in processingSpans {
        return;
      }
      var span := processingSpans[e.id];
      processingSpans := processingSpans - {e.id};
      tracer.EndDirectly(span);
    }
  }

  // ---------------------------------------------------------------- EfCoreDiagnosticListener

  /** The three events the listener reacts to; isCommandData says whether the payload has the expected class. */
  datatype EfEvent =
    | CommandExecuting(id: int, isCommandData: bool)
    | CommandExecuted(id: int, isCommandData: bool)
    | CommandError(id: int, isCommandData: bool)
    | OtherEvent

  function OnEfCore(t: Trace, table: Table, e: EfEvent): (Trace, Table) {
    if CurrentFlag(t) == SqlClient then (t, table)
    else
      match e
      case CommandExecuting(id, ok) => if t.inTransaction && ok then Begin(t, table, EfCore, id) else (t, table)
      case CommandExecuted(id, ok) => if ok then Finish(t, table, id) else (t, table)
      case CommandError(id, ok) => if ok then Finish(t, table, id) else (t, table)
      case OtherEvent => (t, table)
  }

  class EfCoreDiagnosticListener {
    const tracer: Tracer
    var spans: Table

    constructor (tracer: Tracer)
      ensures this.tracer == tracer && spans == map[]
    {
      this.tracer := tracer;
      spans := map[];
    }

    method OnNext(e: EfEvent)
      modifies this, tracer
      ensures (tracer.View(), spans) == OnEfCore(old(tracer.View()), old(spans), e)
    {
      if tracer.CurrentIs(SqlClient, SqlClient) {
        return;
      }
      match e {
        case CommandExecuting(id, ok) =>
          if tracer.inTransaction && ok {
            var span := tracer.StartSpan(EfCore);
            if span.Some? && id !in spans {
              spans := spans[id := span.value];
            }
          }
        case CommandExecuted(id, ok) =>
          if ok && id in spans {
            var span := spans[id];
            spans := spans - {id};
            tracer.EndSpan(span);
          }
        case CommandError(id, ok) =>
          if ok && id in spans {
            var span := spans[id];
            spans := spans - {id};
            tracer.EndSpan(span);
          }
        case OtherEvent =>
      }
    }
  }

  // ---------------------------------------------------------------- Ef6Interceptor

  /** The interceptor keeps a command's span in the user state of that command's interception context. */
  datatype InterceptorEvent = Executing(context: int) | Executed(context: int)

  function OnEf6(t: Trace, userState: Table, isConfigured: bool, e: InterceptorEvent): (Trace, Table) {
    if !isConfigured || CurrentFlag(t) == SqlClient then (t, userState)
    else
      match e
      case Executing(context) =>
        if t.inTransaction then
          var (t', span) := Started(t, EfClassic);
          (t', if span.Some? then userState[context := span.value] else userState)
        else (t, userState)
      case Executed(context) =>
        if context in userState then (EndRequested(t, userState[context]), userState) else (t, userState)
  }

  class Ef6Interceptor {
    const tracer: Tracer
    var isConfigured: bool
    var userState: Table

    constructor (tracer: Tracer)
      ensures this.tracer == tracer && userState == map[]
    {
      this.tracer := tracer;
      isConfigured := true;
      userState := map[];
    }

    /** CreateImplIfReadyAndNoConflict. */
    predicate ReadyAndNoConflict()
      reads this, tracer
    {
      isConfigured && !tracer.CurrentIs(SqlClient, SqlClient)
    }

    method StartSpan(context: int)
      modifies this`userState, tracer
      ensures (tracer.View(), userState) == OnEf6(old(tracer.View()), old(userState), isConfigured, Executing(context))
    {
      if ReadyAndNoConflict() && tracer.inTransaction {
        var span := tracer.StartSpan(EfClassic);
        if span.Some? {
          userState := userState[context := span.value];
        }
      }
    }

    method EndSpan(context: int)
      modifies this`userState, tracer
      ensures (tracer.View(), userState) == OnEf6(old(tracer.View()), old(userState), isConfigured, Executed(context))
    {
      if ReadyAndNoConflict() && context in userState {
        tracer.EndSpan(userState[context]);
      }
    }
  }

  // ---------------------------------------------------------------- the Elasticsearch listeners

  /** The beginning and the end of an activity of the Elasticsearch client; id is the current activity's. */
  datatype ElasticsearchEvent = ActivityStart(id: int) | ActivityStop(id: int)

  function OnElasticsearch(t: Trace, table: Table, e: ElasticsearchEvent): (Trace, Table) {
    if !t.inTransaction then (t, table)
    else
      match e
      case ActivityStart(id) => Begin(t, table, NoFlag, id)
      case ActivityStop(id) => Finish(t, table, id)
  }

  class ElasticsearchListener {
    const tracer: Tracer
    var spans: Table

    constructor (tracer: Tracer)
      ensures this.tracer == tracer && spans == map[]
    {
      this.tracer := tracer;
      spans := map[];
    }

    /** A span whose id is in use is not handed out, but it has been started. */
    method TryStartElasticsearchSpan(id: int) returns (span: Option<nat>)
      modifies this, tracer
      ensures
        (tracer.View(), spans)
        == if old(tracer.View()).inTransaction then Begin(old(tracer.View()), old(spans), NoFlag, id)
           else (old(tracer.View()), old(spans))
      ensures
        span == if old(tracer.View()).inTransaction && id !in old(spans) then Some(|old(tracer.View()).spans|) else None
    {
      if !tracer.inTransaction {
        return None;
      }
      span := tracer.StartSpan(NoFlag);
      if id in spans {
        return None;
      }
      spans := spans[id := span.value];
    }

    method TryGetCurrentElasticsearchSpan(id: int) returns (span: Option<nat>)
      modifies this`spans
      ensures (span, spans) == if id in old(spans) then (Some(old(spans)[id]), old(spans) - {id}) else (None, old(spans))
    {
      if id !in spans {
        return None;
      }
      span := Some(spans[id]);
      spans := spans - {id};
    }

    method OnNext(e: ElasticsearchEvent)
      modifies this, tracer
      ensures (tracer.View(), spans) == OnElasticsearch(old(tracer.View()), old(spans), e)
    {
      if !tracer.inTransaction {
        return;
      }
      match e {
        case ActivityStart(id) =>
          var span := TryStartElasticsearchSpan(id);
        case ActivityStop(id) =>
          var span := TryGetCurrentElasticsearchSpan(id);
          if span.Some? {
            tracer.EndDirectly(span.value);
          }
      }
    }
  }
}
