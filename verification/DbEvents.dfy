/**
 The listeners on one tracer under any sequence of events: unmatched ends, duplicate ids, errors, unknown payloads, and
 the events of one listener between those of another.  On a platform with only one of the two SqlClient listeners, the
 dictionary of the other stays empty.
 */
module DbEvents {
  import opened DbTracing
  import opened Sequences

  datatype Event =
    | ToSqlClient(sql: SqlEvent)
    | ToEventSource(source: SourceEvent)
    | ToEfCore(ef: EfEvent)
    | ToElasticsearch(elastic: ElasticsearchEvent)

  /** The tracer, the listeners' dictionaries, and the spans whose addition found their id in use. */
  datatype Ledger = Ledger(trace: Trace, tables: seq<Table>, dropped: seq<nat>)

  /** Which dictionary an event is about. */
  function ListenerOf(e: Event): (i: nat)
    ensures i < 4
  {
    match e
    case ToSqlClient(_) => 0
    case ToEventSource(_) => 1
    case ToEfCore(_) => 2
    case ToElasticsearch(_) => 3
  }

  /** Each listener has a dictionary of its own. */
  lemma OwnDictionaries(e: Event, f: Event)
    ensures ListenerOf(e) == ListenerOf(f) <==>
              || (e.ToSqlClient? && f.ToSqlClient?) || (e.ToEventSource? && f.ToEventSource?)
              || (e.ToEfCore? && f.ToEfCore?) || (e.ToElasticsearch? && f.ToElasticsearch?)
  {}

  function Reaction(t: Trace, table: Table, e: Event): (Trace, Table) {
    match e
    case ToSqlClient(sql) => OnSqlClient(t, table, sql)
    case ToEventSource(source) => OnEventSource(t, table, source)
    case ToEfCore(ef) => OnEfCore(t, table, ef)
    case ToElasticsearch(elastic) => OnElasticsearch(t, table, elastic)
  }

  /** A span that was started and is in no dictionary has been dropped. */
  function Dropped(dropped: seq<nat>, t: Trace, table: Table, t': Trace, table': Table): seq<nat> {
    if |t'.spans| > |t.spans| && table' == table then dropped + [|t.spans|] else dropped
  }

  function Receive(l: Ledger, e: Event): (l': Ledger)
    requires |l.tables| == 4
    ensures |l'.tables| == 4
  {
    var i := ListenerOf(e);
    var (t, table) := Reaction(l.trace, l.tables[i], e);
    Ledger(t, l.tables[i := table], Dropped(l.dropped, l.trace, l.tables[i], t, table))
  }

  function ReceiveAll(l: Ledger, events: seq<Event>): (l': Ledger)
    requires |l.tables| == 4
    ensures |l'.tables| == 4
  {
    if events == [] then l else Receive(ReceiveAll(l, events[..|events| - 1]), events[|events| - 1])
  }

  // ---------------------------------------------------------------- where a span can be

  predicate InTable(tables: seq<Table>, i: nat, id: int) {
    i < |tables| && id in tables[i]
  }

  ghost predicate InFlight(tables: seq<Table>, span: nat) {
    exists i: nat, id: int :: InTable(tables, i, id) && tables[i][id] == span
  }

  /** No span is in flight under two ids or with two listeners. */
  ghost predicate Unique(tables: seq<Table>) {
    forall i: nat, id: int, j: nat, id': int ::
      InTable(tables, i, id) && InTable(tables, j, id') && tables[i][id] == tables[j][id'] ==> i == j && id == id'
  }

  /** No span in flight has been ended or dropped. */
  ghost predicate Open(tables: seq<Table>, t: Trace, dropped: seq<nat>) {
    forall i: nat, id: int :: InTable(tables, i, id) ==>
      tables[i][id] < |t.spans| && tables[i][id] !in t.ended && tables[i][id] !in dropped
  }

  /** Ended and dropped spans: each once, and none both. */
  predicate Closed(t: Trace, dropped: seq<nat>) {
    && NoRepeats(t.ended) && NoRepeats(dropped)
    && (forall span :: span in t.ended ==> span < |t.spans| && span !in dropped)
    && (forall span :: span in dropped ==> span < |t.spans|)
  }

  /** Every span from the first of the listeners' on is accounted for. */
  ghost predicate Covered(first: nat, tables: seq<Table>, t: Trace, dropped: seq<nat>) {
    forall span: nat :: first <= span < |t.spans| ==> InFlight(tables, span) || span in t.ended || span in dropped
  }

  ghost predicate Accounted(first: nat, tables: seq<Table>, t: Trace, dropped: seq<nat>) {
    Unique(tables) && Open(tables, t, dropped) && Closed(t, dropped) && Covered(first, tables, t, dropped)
  }

  // ---------------------------------------------------------------- one listener's step

  lemma OneMore(s: seq<nat>, n: nat)
    requires NoRepeats(s) && forall x :: x in s ==> x < n
    ensures NoRepeats(s + [n])
  {
    assert forall i :: 0 <= i < |s| ==> s[i] in s;
  }

  lemma StartDropped(first: nat, tables: seq<Table>, t: Trace, dropped: seq<nat>, t': Trace)
    requires Accounted(first, tables, t, dropped)
    requires |t'.spans| == |t.spans| + 1 && t'.ended == t.ended
    ensures Accounted(first, tables, t', dropped + [|t.spans|])
  {
    OneMore(dropped, |t.spans|);
  }

  lemma StartAdded(first: nat, tables: seq<Table>, t: Trace, dropped: seq<nat>, t': Trace, i: nat, id: int)
    requires Accounted(first, tables, t, dropped) && i < |tables| && id !in tables[i]
    requires |t'.spans| == |t.spans| + 1 && t'.ended == t.ended
    ensures Accounted(first, tables[i := AddIfNew(tables[i], id, |t.spans|)], t', dropped)
  {
    var tables' := tables[i := AddIfNew(tables[i], id, |t.spans|)];
    forall j: nat, k: int | InTable(tables', j, k)
      ensures (j == i && k == id) || (InTable(tables, j, k) && tables[j][k] == tables'[j][k])
    {}
    forall span | InFlight(tables, span) ensures InFlight(tables', span) {
      var j: nat, k: int :| InTable(tables, j, k) && tables[j][k] == span;
      assert InTable(tables', j, k) && tables'[j][k] == span;
    }
    assert InTable(tables', i, id) && tables'[i][id] == |t.spans|;
  }

  lemma Ending(first: nat, tables: seq<Table>, t: Trace, dropped: seq<nat>, i: nat, id: int)
    requires Accounted(first, tables, t, dropped) && InTable(tables, i, id)
    ensures Accounted(first, tables[i := tables[i] - {id}], EndRequested(t, tables[i][id]), dropped)
  {
    var tables' := tables[i := tables[i] - {id}];
    forall j: nat, k: int | InTable(tables', j, k)
      ensures InTable(tables, j, k) && tables'[j][k] == tables[j][k] && (j != i || k != id)
    {}
    forall span | InFlight(tables, span) ensures InFlight(tables', span) || span == tables[i][id] {
      var j: nat, k: int :| InTable(tables, j, k) && tables[j][k] == span;
      assert (j == i && k == id) || (InTable(tables', j, k) && tables'[j][k] == span);
    }
  }

  /** An event makes a listener start a span, or end one, or do nothing. */
  predicate TakesStep(t: Trace, table: Table, t': Trace, table': Table, flag: Flag, id: int) {
    (t', table') == (t, table) || (t', table') == Begin(t, table, flag, id) || (t', table') == Finish(t, table, id)
  }

  lemma SqlClientSteps(t: Trace, table: Table, e: SqlEvent) returns (id: int)
    ensures TakesStep(t, table, OnSqlClient(t, table, e).0, OnSqlClient(t, table, e).1, SqlClient, id)
  {
    id := if !e.Unrelated? && e.id.Some? then e.id.value else 0;
  }

  lemma EfCoreSteps(t: Trace, table: Table, e: EfEvent) returns (id: int)
    ensures TakesStep(t, table, OnEfCore(t, table, e).0, OnEfCore(t, table, e).1, EfCore, id)
  {
    id := if e.OtherEvent? then 0 else e.id;
  }

  lemma ListenerSteps(t: Trace, table: Table, e: Event) returns (flag: Flag, id: int)
    ensures TakesStep(t, table, Reaction(t, table, e).0, Reaction(t, table, e).1, flag, id)
  {
    match e {
      case ToSqlClient(sql) =>
        flag := SqlClient;
        id := SqlClientSteps(t, table, sql);
      case ToEventSource(source) =>
        flag, id := SqlClient, source.id;
      case ToEfCore(ef) =>
        flag := EfCore;
        id := EfCoreSteps(t, table, ef);
      case ToElasticsearch(elastic) =>
        flag, id := NoFlag, elastic.id;
    }
  }

  lemma StartKeeps(first: nat, tables: seq<Table>, t: Trace, dropped: seq<nat>, i: nat, flag: Flag, id: int)
    requires Accounted(first, tables, t, dropped) && i < |tables|
    ensures
      var (t', table') := Begin(t, tables[i], flag, id);
      Accounted(first, tables[i := table'], t', Dropped(dropped, t, tables[i], t', table'))
  {
    var (t', table') := Begin(t, tables[i], flag, id);
    if |t'.spans| > |t.spans| && id !in tables[i] {
      assert id in table';
      StartAdded(first, tables, t, dropped, t', i, id);
    } else {
      assert tables[i := table'] == tables;
      if |t'.spans| > |t.spans| {
        StartDropped(first, tables, t, dropped, t');
      }
    }
  }

  /** Whatever step a listener takes, every span stays in exactly one place. */
  lemma StepKeeps(first: nat, tables: seq<Table>, t: Trace, dropped: seq<nat>, i: nat, t': Trace, table': Table,
                  flag: Flag, id: int)
    requires Accounted(first, tables, t, dropped) && i < |tables| && TakesStep(t, tables[i], t', table', flag, id)
    ensures Accounted(first, tables[i := table'], t', Dropped(dropped, t, tables[i], t', table'))
  {
    if (t', table') == Begin(t, tables[i], flag, id) {
      StartKeeps(first, tables, t, dropped, i, flag, id);
    } else if (t', table') == Finish(t, tables[i], id) && id in tables[i] {
      assert InTable(tables, i, id);
      Ending(first, tables, t, dropped, i, id);
    } else {
      assert tables[i := table'] == tables;
    }
  }

  // ---------------------------------------------------------------- the balance

  function Sizes(tables: seq<Table>): nat {
    if tables == [] then 0 else |tables[0]| + Sizes(tables[1..])
  }

  lemma {:induction false} SizesWith(tables: seq<Table>, i: nat, table: Table)
    requires i < |tables|
    ensures Sizes(tables[i := table]) == Sizes(tables) - |tables[i]| + |table|
  {
    var changed := tables[i := table];
    if i == 0 {
      assert changed[1..] == tables[1..];
    } else {
      assert changed[1..] == tables[1..][i - 1 := table];
      SizesWith(tables[1..], i - 1, table);
    }
  }

  lemma BeginBalances(table: Table, t: Trace, dropped: seq<nat>, flag: Flag, id: int)
    ensures
      var (t', table') := Begin(t, table, flag, id);
      && |t'.spans| - |t.spans| == |table'| - |table| + |Dropped(dropped, t, table, t', table')| - |dropped|
      && t'.ended == t.ended
  {
    var (t', table') := Begin(t, table, flag, id);
    if |t'.spans| > |t.spans| && id !in table {
      assert id in table' && |table'| == |table| + 1;
    }
  }

  lemma FinishBalances(table: Table, t: Trace, dropped: seq<nat>, id: int)
    ensures
      var (t', table') := Finish(t, table, id);
      && |t'.spans| == |t.spans| && |t'.ended| - |t.ended| == |table| - |table'|
      && Dropped(dropped, t, table, t', table') == dropped
  {
    if id in table {
      assert table == (table - {id})[id := table[id]];
    }
  }

  lemma StepBalances(table: Table, t: Trace, dropped: seq<nat>, t': Trace, table': Table, flag: Flag, id: int)
    requires TakesStep(t, table, t', table', flag, id)
    ensures |t'.spans| - |t.spans|
         == |table'| - |table| + |t'.ended| - |t.ended| + |Dropped(dropped, t, table, t', table')| - |dropped|
  {
    BeginBalances(table, t, dropped, flag, id);
    FinishBalances(table, t, dropped, id);
  }

  /** How many places hold a span: the dictionaries, the spans ended, the spans dropped. */
  function Placed(l: Ledger): nat {
    Sizes(l.tables) + |l.trace.ended| + |l.dropped|
  }

  lemma ReceiveBalances(l: Ledger, e: Event)
    requires |l.tables| == 4
    ensures |Receive(l, e).trace.spans| - Placed(Receive(l, e)) == |l.trace.spans| - Placed(l)
  {
    var i := ListenerOf(e);
    var (t', table') := Reaction(l.trace, l.tables[i], e);
    var flag, id := ListenerSteps(l.trace, l.tables[i], e);
    StepBalances(l.tables[i], l.trace, l.dropped, t', table', flag, id);
    SizesWith(l.tables, i, table');
  }

  // ---------------------------------------------------------------- every sequence of events

  ghost predicate Books(first: nat, l: Ledger) {
    Accounted(first, l.tables, l.trace, l.dropped)
  }

  lemma ReceiveKeeps(first: nat, l: Ledger, e: Event)
    requires |l.tables| == 4 && Books(first, l)
    ensures Books(first, Receive(l, e))
  {
    var i := ListenerOf(e);
    var (t', table') := Reaction(l.trace, l.tables[i], e);
    var flag, id := ListenerSteps(l.trace, l.tables[i], e);
    StepKeeps(first, l.tables, l.trace, l.dropped, i, t', table', flag, id);
  }

  /**
   Whatever events arrive in whatever order, every span the listeners start is in one of their dictionaries, or ended
   once, or dropped for a duplicate id, and in only one of these places; none in a dictionary has been ended.
   */
  lemma {:induction false} EventsAccounted(first: nat, l: Ledger, events: seq<Event>)
    requires |l.tables| == 4 && Books(first, l)
    ensures Books(first, ReceiveAll(l, events))
    ensures |ReceiveAll(l, events).trace.spans| - Placed(ReceiveAll(l, events)) == |l.trace.spans| - Placed(l)
  {
    if events != [] {
      var front, e := events[..|events| - 1], events[|events| - 1];
      EventsAccounted(first, l, front);
      ReceiveBalances(ReceiveAll(l, front), e);
      ReceiveKeeps(first, ReceiveAll(l, front), e);
    }
  }

  /** From the listeners' start, on a tracer that may have spans of its own already. */
  lemma NoSpanEndedTwice(t: Trace, start: Ledger, events: seq<Event>)
    requires t.ended == [] && start == Ledger(t, [map[], map[], map[], map[]], [])
    ensures
      var l := ReceiveAll(start, events);
      && NoRepeats(l.trace.ended)
      && |l.trace.spans| == |t.spans| + Placed(l)
      && Books(|t.spans|, l)
  {
    assert Books(|t.spans|, start);
    EmptyTables(start.tables);
    EventsAccounted(|t.spans|, start, events);
  }

  lemma {:induction false} EmptyTables(tables: seq<Table>)
    requires forall i :: 0 <= i < |tables| ==> tables[i] == map[]
    ensures Sizes(tables) == 0
  {
    if tables != [] {
      EmptyTables(tables[1..]);
    }
  }
}
