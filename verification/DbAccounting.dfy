/**
 The books of one listener under any interleaving.  A listener's callbacks may run on many threads at once; the
 only atomic actions are starting a span, adding it to the dictionary (TryAdd), taking it out (TryRemove) and
 ending it.  Between two of them a thread holds the span in a local variable.  Events may be anything: unmatched
 ends, duplicate ids, errors; an event that is ignored takes no action here.
 */
module DbAccounting {
  import opened Sequences
  import opened DbTracing

  /** What a thread holds in the middle of a callback. */
  datatype Hand = Adding(id: int, span: nat) | Ending(span: nat)

  datatype Action =
    | Start(thread: int, id: int, span: nat)    // StartSpan: a span not seen before
    | Add(thread: int)                          // TryAdd of the span just started
    | Take(thread: int, id: int)                // TryRemove
    | End(thread: int)                          // the end of the span just taken

  /** dropped are the spans whose TryAdd found the id in use. */
  datatype Books = Books(started: set<nat>, table: Table, hands: map<int, Hand>, ended: seq<nat>, dropped: seq<nat>)

  const EMPTY := Books({}, map[], map[], [], [])

  predicate Possible(b: Books, a: Action) {
    match a
    case Start(thread, _, span) => thread !in b.hands && span !in b.started
    case Add(thread) => thread in b.hands && b.hands[thread].Adding?
    case Take(thread, _) => thread !in b.hands
    case End(thread) => thread in b.hands && b.hands[thread].Ending?
  }

  function Apply(b: Books, a: Action): Books
    requires Possible(b, a)
  {
    match a
    case Start(thread, id, span) => b.(started := b.started + {span}, hands := b.hands[thread := Adding(id, span)])
    case Add(thread) =>
      var Adding(id, span) := b.hands[thread];
      var b' := b.(hands := b.hands - {thread});
      if id in b.table then b'.(dropped := b.dropped + [span]) else b'.(table := b.table[id := span])
    case Take(thread, id) =>
      if id in b.table then b.(table := b.table - {id}, hands := b.hands[thread := Ending(b.table[id])]) else b
    case End(thread) => b.(hands := b.hands - {thread}, ended := b.ended + [b.hands[thread].span])
  }

  /** b' is b after the actions, each possible when it is taken; threads interleave in any way. */
  predicate Reaches(b: Books, actions: seq<Action>, b': Books)
    decreases |actions|
  {
    if actions == [] then b' == b
    else Possible(b, actions[0]) && Reaches(Apply(b, actions[0]), actions[1..], b')
  }

  // ---------------------------------------------------------------- the invariant

  /** No span in flight is in flight twice, in a thread's hands, ended or dropped. */
  ghost predicate TableApart(b: Books) {
    && (forall id, id' :: id in b.table && id' in b.table && b.table[id] == b.table[id'] ==> id == id')
    && (forall id, t :: id in b.table && t in b.hands ==> b.table[id] != b.hands[t].span)
    && (forall id :: id in b.table ==>
          b.table[id] in b.started && b.table[id] !in b.ended && b.table[id] !in b.dropped)
  }

  /** No span in a thread's hands is in another's, ended or dropped. */
  ghost predicate HandsApart(b: Books) {
    && (forall t, t' :: t in b.hands && t' in b.hands && b.hands[t].span == b.hands[t'].span ==> t == t')
    && (forall t :: t in b.hands ==>
          b.hands[t].span in b.started && b.hands[t].span !in b.ended && b.hands[t].span !in b.dropped)
  }

  /** No span is ended twice, dropped twice, or both. */
  ghost predicate ClosedApart(b: Books) {
    && (forall span :: span in b.ended ==> span in b.started && span !in b.dropped)
    && (forall span :: span in b.dropped ==> span in b.started)
    && NoRepeats(b.ended) && NoRepeats(b.dropped)
  }

  /** The balance: every started span is in flight, in a thread's hands, ended, or dropped. */
  ghost predicate Balanced(b: Books) {
    |b.started| == |b.table| + |b.hands| + |b.ended| + |b.dropped|
  }

  ghost predicate Inv(b: Books) {
    TableApart(b) && HandsApart(b) && ClosedApart(b) && Balanced(b)
  }

  lemma ApplyKeepsTableApart(b: Books, a: Action)
    requires TableApart(b) && HandsApart(b) && ClosedApart(b) && Possible(b, a)
    ensures TableApart(Apply(b, a))
  {}

  lemma ApplyKeepsHandsApart(b: Books, a: Action)
    requires TableApart(b) && HandsApart(b) && ClosedApart(b) && Possible(b, a)
    ensures HandsApart(Apply(b, a))
  {}

  lemma ApplyKeepsClosedApart(b: Books, a: Action)
    requires HandsApart(b) && ClosedApart(b) && Possible(b, a)
    ensures ClosedApart(Apply(b, a))
  {}

  lemma SizeWithout<V>(m: map<int, V>, k: int)
    requires k in m
    ensures |m - {k}| == |m| - 1
  {}

  lemma SizeWith<V>(m: map<int, V>, k: int, v: V)
    requires k !in m
    ensures |m[k := v]| == |m| + 1
  {}

  lemma AddBalances(b: Books, thread: int)
    requires Balanced(b) && Possible(b, Add(thread))
    ensures Balanced(Apply(b, Add(thread)))
  {}

  lemma TakeBalances(b: Books, thread: int, id: int)
    requires Balanced(b) && Possible(b, Take(thread, id))
    ensures Balanced(Apply(b, Take(thread, id)))
  {}

  lemma ApplyKeepsBalance(b: Books, a: Action)
    requires Balanced(b) && Possible(b, a)
    ensures Balanced(Apply(b, a))
  {
    match a {
      case Start(thread, id, span) => SizeWith(b.hands, thread, Adding(id, span));
      case Add(thread) => AddBalances(b, thread);
      case Take(thread, id) => TakeBalances(b, thread, id);
      case End(thread) => SizeWithout(b.hands, thread);
    }
  }

  /**
   For every interleaving: started == in flight + in hands + ended + dropped, no span is ended twice, and a span
   in flight has not been ended.
   */
  lemma {:induction false} BooksBalance(b: Books, actions: seq<Action>, b': Books)
    requires Inv(b) && Reaches(b, actions, b')
    ensures Inv(b')
    decreases |actions|
  {
    if actions != [] {
      ApplyKeepsTableApart(b, actions[0]);
      ApplyKeepsHandsApart(b, actions[0]);
      ApplyKeepsClosedApart(b, actions[0]);
      ApplyKeepsBalance(b, actions[0]);
      BooksBalance(Apply(b, actions[0]), actions[1..], b');
    }
  }

  /** From the start of a listener's life, whatever its events and however its threads interleave. */
  lemma AnyRunBalances(actions: seq<Action>, b: Books)
    requires Reaches(EMPTY, actions, b)
    ensures |b.started| == |b.table| + |b.hands| + |b.ended| + |b.dropped| && NoRepeats(b.ended)
    ensures forall id :: id in b.table ==> b.table[id] in b.started && b.table[id] !in b.ended
  {
    BooksBalance(EMPTY, actions, b);
  }

  // ---------------------------------------------------------------- the listeners take only these actions

  /** The books of a listener that is not in the middle of a callback, over the spans of the tracer. */
  ghost predicate BooksOf(b: Books, t: Trace, table: Table) {
    && b.hands == map[] && b.table == table
    && forall span :: span in b.started ==> span < |t.spans|
  }

  /** Starting a command's span and adding it to the table are a Start and an Add, or nothing. */
  lemma BeginTakesActions(b: Books, t: Trace, table: Table, flag: Flag, id: int) returns (actions: seq<Action>, b': Books)
    requires BooksOf(b, t, table)
    ensures Reaches(b, actions, b')
    ensures BooksOf(b', Begin(t, table, flag, id).0, Begin(t, table, flag, id).1)
    ensures b'.ended == b.ended && Begin(t, table, flag, id).0.ended == t.ended
    ensures b'.dropped == if id in table && actions != [] then b.dropped + [|t.spans|] else b.dropped
  {
    if t.current.None? && !t.inTransaction {
      actions, b' := [], b;
    } else {
      var start := Start(0, id, |t.spans|);
      var m := Apply(b, start);
      b' := Apply(m, Add(0));
      actions := [start, Add(0)];
      assert actions[1..] == [Add(0)] && [Add(0)][1..] == [];
      assert Reaches(m, [Add(0)], b');
      assert m.hands - {0} == map[];
    }
  }

  /** Ending a command's span is a Take and an End, or a Take that finds nothing. */
  lemma FinishTakesActions(b: Books, t: Trace, table: Table, id: int) returns (actions: seq<Action>, b': Books)
    requires BooksOf(b, t, table)
    ensures Reaches(b, actions, b')
    ensures BooksOf(b', Finish(t, table, id).0, Finish(t, table, id).1)
    ensures b'.dropped == b.dropped
    ensures Finish(t, table, id).0.ended == t.ended + if id in table then [table[id]] else []
    ensures b'.ended == b.ended + if id in table then [table[id]] else []
  {
    var take := Take(0, id);
    var m := Apply(b, take);
    if id in table {
      b' := Apply(m, End(0));
      actions := [take, End(0)];
      assert actions[1..] == [End(0)] && [End(0)][1..] == [];
      assert Reaches(m, [End(0)], b');
      assert m.hands - {0} == map[];
    } else {
      actions, b' := [], b;
    }
  }
}
