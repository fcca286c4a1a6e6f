/**
 Popper's chain of modifiers: each enabled one gets the data with the offsets made complete again, and hands on what it
 makes of them; the chain can be run up to a modifier by name.
 */
module Modifiers {
  import opened PreventOverflow
  import opened Wrappers

  /** fn is None where a modifier has no function. */
  datatype Modifier<!D> = Modifier(name: string, enabled: bool, fn: Option<D -> D>)

  function FindIndex<D>(modifiers: seq<Modifier<D>>, name: string): (i: int)
    ensures -1 <= i < |modifiers|
    ensures i >= 0 ==> modifiers[i].name == name && forall m :: 0 <= m < i ==> modifiers[m].name != name
    ensures i < 0 ==> forall m :: 0 <= m < |modifiers| ==> modifiers[m].name != name
  {
    if |modifiers| == 0 then -1
    else if modifiers[0].name == name then 0
    else
      var i := FindIndex(modifiers[1..], name);
      assert forall m :: 1 <= m < |modifiers| ==> modifiers[m].name == modifiers[1..][m - 1].name;
      if i < 0 then -1 else i + 1
  }

  /** Array.slice from the start: a negative end counts from the back. */
  function SliceTo<D>(modifiers: seq<Modifier<D>>, end: int): seq<Modifier<D>>
    requires -1 <= end <= |modifiers|
  {
    if end >= 0 then modifiers[..end] else if |modifiers| == 0 then modifiers else modifiers[..|modifiers| - 1]
  }

  /** The modifiers that run when the chain ends before the named one, if one is named. */
  function ToRun<D>(modifiers: seq<Modifier<D>>, ends: Option<string>): seq<Modifier<D>> {
    if ends.None? then modifiers else SliceTo(modifiers, FindIndex(modifiers, ends.value))
  }

  function Folded<D>(modifiers: seq<Modifier<D>>, data: D, complete: D -> D): D {
    if |modifiers| == 0 then data
    else
      var last, before := modifiers[|modifiers| - 1], Folded(modifiers[..|modifiers| - 1], data, complete);
      if last.enabled && last.fn.Some? then last.fn.value(complete(before)) else before
  }

  method RunModifiers<D>(modifiers: seq<Modifier<D>>, data: D, ends: Option<string>, complete: D -> D)
    returns (result: D)
    ensures result == Folded(ToRun(modifiers, ends), data, complete)
  {
    var modifiersToRun := ToRun(modifiers, ends);
    result := data;
    for i := 0 to |modifiersToRun|
      invariant result == Folded(modifiersToRun[..i], data, complete)
    {
      assert modifiersToRun[..i + 1][..i] == modifiersToRun[..i];
      var modifier := modifiersToRun[i];
      if modifier.enabled && modifier.fn.Some? {
        result := modifier.fn.value(complete(result));
      }
    }
    assert modifiersToRun[..|modifiersToRun|] == modifiersToRun;
  }

  /** The same list, but for what the modifiers of one name do. */
  ghost predicate AgreeBut<D>(a: seq<Modifier<D>>, b: seq<Modifier<D>>, name: string) {
    && |a| == |b|
    && forall i :: 0 <= i < |a| ==> a[i].name == b[i].name && (a[i].name != name ==> a[i] == b[i])
  }

  /**
   Run up to a name, the chain never enters a modifier of that name: what such modifiers do makes no difference.  So the
   flip modifier, which runs the modifiers before it, never enters itself.
   */
  lemma NeverReenters<D>(a: seq<Modifier<D>>, b: seq<Modifier<D>>, name: string, data: D, complete: D -> D)
    requires AgreeBut(a, b, name)
    ensures Folded(ToRun(a, Some(name)), data, complete) == Folded(ToRun(b, Some(name)), data, complete)
    ensures forall m :: m in ToRun(a, Some(name)) ==> m.name != name
  {
    assert FindIndex(a, name) == FindIndex(b, name);
    var end := FindIndex(a, name);
    forall i | 0 <= i < |SliceTo(a, end)| ensures SliceTo(a, end)[i] == SliceTo(b, end)[i] && a[i].name != name {}
    assert SliceTo(a, end) == SliceTo(b, end);
  }

  /** A name that is not in the list does not stop the chain, but takes the last modifier off it. */
  lemma MissingName<D>(modifiers: seq<Modifier<D>>, name: string)
    requires |modifiers| > 0 && forall i :: 0 <= i < |modifiers| ==> modifiers[i].name != name
    ensures ToRun(modifiers, Some(name)) == modifiers[..|modifiers| - 1]
  {}

  /** Whatever the modifiers before it make of the offsets, preventOverflow clamps a popper that fits. */
  lemma PreventsLast(modifiers: seq<Modifier<Offsets>>, prevent: Modifier<Offsets>, data: Offsets, b: Boundaries,
                     order: seq<Side>)
    requires prevent.enabled && prevent.fn.Some? && forall p :: prevent.fn.value(p) == CheckAll(p, b, order, false)
    requires Complete(order) && Fits(Folded(modifiers, data, GetClientRect), b)
    ensures
      Folded(modifiers + [prevent], data, GetClientRect) == Clamped(Folded(modifiers, data, GetClientRect), b)
  {
    FoldedLast(modifiers, prevent, data, GetClientRect);
    LoopClamps(Folded(modifiers, data, GetClientRect), b, order);
  }

  lemma FoldedLast<D>(modifiers: seq<Modifier<D>>, last: Modifier<D>, data: D, complete: D -> D)
    requires last.enabled && last.fn.Some?
    ensures Folded(modifiers + [last], data, complete) == last.fn.value(complete(Folded(modifiers, data, complete)))
  {
    assert (modifiers + [last])[..|modifiers|] == modifiers;
  }

  // ---------------------------------------------------------------- which modifiers run, and in what order

  /** One chain after another: the second gets what the first has made. */
  lemma {:induction false} FoldedPlus<D>(a: seq<Modifier<D>>, b: seq<Modifier<D>>, data: D, complete: D -> D)
    ensures Folded([], data, complete) == data
    ensures Folded(a + b, data, complete) == Folded(b, Folded(a, data, complete), complete)
    decreases |b|
  {
    if |b| == 0 {
      assert a + b == a;
    } else {
      assert (a + b)[..|a + b| - 1] == a + b[..|b| - 1];
      FoldedPlus(a, b[..|b| - 1], data, complete);
    }
  }

  lemma FoldedOne<D>(m: Modifier<D>, data: D, complete: D -> D)
    ensures Folded([m], data, complete) == if m.enabled && m.fn.Some? then m.fn.value(complete(data)) else data
  {
    assert [m][..0] == [];
  }

  /** A disabled modifier, or one without a function, might as well not be there. */
  lemma DisabledDoesNotMatter<D>(a: seq<Modifier<D>>, m: Modifier<D>, b: seq<Modifier<D>>, data: D, complete: D -> D)
    requires !m.enabled || m.fn.None?
    ensures Folded(a + [m] + b, data, complete) == Folded(a + b, data, complete)
  {
    FoldedPlus(a + [m], b, data, complete);
    FoldedPlus(a, [m], data, complete);
    FoldedPlus(a, b, data, complete);
    FoldedOne(m, Folded(a, data, complete), complete);
  }

  /** Without a name all modifiers run; with one, those before the first of that name. */
  lemma RunsBefore<D>(modifiers: seq<Modifier<D>>, name: string, i: nat)
    requires i < |modifiers| && modifiers[i].name == name
    requires forall k :: 0 <= k < i ==> modifiers[k].name != name
    ensures ToRun(modifiers, None) == modifiers
    ensures ToRun(modifiers, Some(name)) == modifiers[..i]
  {}
}
