/**
 Bootstrap's scroll spy: an index of the page's targets by their offset, and the target that is active at a scroll
 position.
 */
module ScrollSpy {
  import opened Wrappers

  /** A link's target and its offset. */
  datatype Entry = Entry(offset: real, target: string)

  /** No target; the undefined one, beyond the end of an empty index; a target. */
  datatype Active = Null | Undefined | Target(selector: string)

  /** What the page is measured to be; a link without a visible target has no entry. */
  datatype Page = Page(scrollTop: real, offset: real, scrollHeight: real, offsetHeight: real, links: seq<Option<Entry>>)

  // ---------------------------------------------------------------- the index

  function Entries(links: seq<Option<Entry>>): (entries: seq<Entry>)
    ensures forall e :: e in entries <==> Some(e) in links
  {
    if links == [] then []
    else (if links[0].Some? then [links[0].value] else []) + Entries(links[1..])
  }

  predicate SortedEntries(entries: seq<Entry>) {
    forall i, j :: 0 <= i < j < |entries| ==> entries[i].offset <= entries[j].offset
  }

  /** A stable sort by offset. */
  function Insert(e: Entry, sorted: seq<Entry>): (r: seq<Entry>)
    requires SortedEntries(sorted)
    ensures SortedEntries(r) && multiset(r) == multiset(sorted) + multiset{e}
  {
    if sorted == [] then [e]
    else if e.offset <= sorted[0].offset then [e] + sorted
    else
      var rest := Insert(e, sorted[1..]);
      InsertAfter(e, sorted, rest);
      [sorted[0]] + rest
  }

  lemma InsertAfter(e: Entry, sorted: seq<Entry>, rest: seq<Entry>)
    requires SortedEntries(sorted) && sorted != [] && sorted[0].offset <= e.offset
    requires SortedEntries(rest) && multiset(rest) == multiset(sorted[1..]) + multiset{e}
    ensures SortedEntries([sorted[0]] + rest)
    ensures multiset([sorted[0]] + rest) == multiset(sorted) + multiset{e}
  {
    assert sorted == [sorted[0]] + sorted[1..];
    forall x | x in rest ensures sorted[0].offset <= x.offset {
      assert x in multiset(rest);
      assert x == e || x in sorted[1..];
    }
  }

  function Sort(entries: seq<Entry>): (sorted: seq<Entry>)
    ensures SortedEntries(sorted) && multiset(sorted) == multiset(entries)
  {
    if entries == [] then []
    else
      assert entries == [entries[0]] + entries[1..];
      Insert(entries[0], Sort(entries[1..]))
  }

  predicate Sorted(offsets: seq<real>) {
    forall i, j :: 0 <= i < j < |offsets| ==> offsets[i] <= offsets[j]
  }

  /** The two lists, read side by side. */
  function Zipped(offsets: seq<real>, targets: seq<string>): (entries: seq<Entry>)
    requires |offsets| == |targets|
    ensures |entries| == |offsets|
    ensures forall i :: 0 <= i < |entries| ==> entries[i] == Entry(offsets[i], targets[i])
  {
    if offsets == [] then [] else [Entry(offsets[0], targets[0])] + Zipped(offsets[1..], targets[1..])
  }

  /** The lists hold the offsets and the targets of the first entries. */
  predicate Lists(offsets: seq<real>, targets: seq<string>, entries: seq<Entry>) {
    && |offsets| == |targets| <= |entries|
    && forall k :: 0 <= k < |offsets| ==> offsets[k] == entries[k].offset && targets[k] == entries[k].target
  }

  lemma ListsAll(offsets: seq<real>, targets: seq<string>, entries: seq<Entry>)
    requires Lists(offsets, targets, entries) && |offsets| == |entries| && SortedEntries(entries)
    ensures Zipped(offsets, targets) == entries && Sorted(offsets)
  {}

  // ---------------------------------------------------------------- the position

  /** The offsets not exceeding x are the first j + 1. */
  predicate IsLastAtMost(offsets: seq<real>, x: real, j: nat) {
    j < |offsets| && forall k :: 0 <= k < |offsets| ==> (offsets[k] <= x <==> k <= j)
  }

  /** The index of the last offset not exceeding x. */
  function LastAtMost(offsets: seq<real>, x: real): (j: nat)
    requires Sorted(offsets) && offsets != [] && offsets[0] <= x
    ensures IsLastAtMost(offsets, x, j)
  {
    var last := |offsets| - 1;
    if offsets[last] <= x then last else LastAtMost(offsets[..last], x)
  }

  lemma OnlyOneIsLast(offsets: seq<real>, x: real, j: nat, k: nat)
    requires IsLastAtMost(offsets, x, j) && IsLastAtMost(offsets, x, k)
    ensures j == k
  {
    assert offsets[j] <= x && offsets[k] <= x;
  }

  /** What is active at a position, given the index and what was active before. */
  function Activated(active: Active, offsets: seq<real>, targets: seq<string>, scrollTop: real, maxScroll: real): Active
    requires |offsets| == |targets| && Sorted(offsets)
  {
    if scrollTop >= maxScroll then if targets == [] then Undefined else Target(targets[|targets| - 1])
    else if offsets == [] then active
    else if offsets[0] <= scrollTop then Target(targets[LastAtMost(offsets, scrollTop)])
    else if active.Target? && offsets[0] > 0.0 then Null
    else active
  }

  /**
   Below the bottom of the page and not above the first offset, the target of the last offset not exceeding the position
   is active, whatever was active before, and with equal offsets too.
   */
  lemma ActiveIsLast(active: Active, offsets: seq<real>, targets: seq<string>, scrollTop: real, maxScroll: real, j: nat)
    requires |offsets| == |targets| && Sorted(offsets) && scrollTop < maxScroll
    requires IsLastAtMost(offsets, scrollTop, j)
    ensures Activated(active, offsets, targets, scrollTop, maxScroll) == Target(targets[j])
  {
    assert offsets[0] <= scrollTop;
    OnlyOneIsLast(offsets, scrollTop, j, LastAtMost(offsets, scrollTop));
  }

  /** Scrolling down never goes back to an earlier target. */
  lemma ScrollingDown(offsets: seq<real>, x: real, y: real)
    requires Sorted(offsets) && offsets != [] && offsets[0] <= x <= y
    ensures LastAtMost(offsets, x) <= LastAtMost(offsets, y)
  {}

  // ---------------------------------------------------------------- the spy

  class Spy {
    var offsets: seq<real>
    var targets: seq<string>
    var activeTarget: Active
    var scrollHeight: real
    /** The targets activated so far, each announced by an event. */
    ghost var activations: seq<Active>

    predicate Valid()
      reads this
    {
      |offsets| == |targets| && Sorted(offsets)
    }

    constructor ()
      ensures Valid() && offsets == [] && activeTarget == Null && scrollHeight == 0.0 && activations == []
    {
      offsets, targets, activeTarget, scrollHeight, activations := [], [], Null, 0.0, [];
    }

    /** The index holds every visible target, with its offset, sorted; what is active does not change. */
    method Refresh(page: Page)
      modifies this`offsets, this`targets, this`scrollHeight
      ensures Valid() && scrollHeight == page.scrollHeight
      ensures Zipped(offsets, targets) == Sort(Entries(page.links))
      ensures multiset(Zipped(offsets, targets)) == multiset(Entries(page.links))
    {
      offsets, targets, scrollHeight := [], [], page.scrollHeight;
      var sorted := Sort(Entries(page.links));
      for i := 0 to |sorted|
        invariant |offsets| == |targets| == i && scrollHeight == page.scrollHeight
        invariant Lists(offsets, targets, sorted)
      {
        offsets := offsets + [sorted[i].offset];
        targets := targets + [sorted[i].target];
      }
      ListsAll(offsets, targets, sorted);
    }

    method Activate(target: Active)
      modifies this`activeTarget, this`activations
      ensures activeTarget == target && activations == old(activations) + [target]
    {
      activeTarget := target;
      activations := activations + [target];
    }

    /** The index is rebuilt if the page's height has changed. */
    method RefreshIfNeeded(page: Page)
      requires Valid()
      modifies this`offsets, this`targets, this`scrollHeight
      ensures Valid() && scrollHeight == page.scrollHeight
      ensures if old(scrollHeight) == page.scrollHeight then offsets == old(offsets) && targets == old(targets)
              else Zipped(offsets, targets) == Sort(Entries(page.links))
    {
      if scrollHeight != page.scrollHeight {
        Refresh(page);
      }
    }

    method Process(page: Page)
      requires Valid()
      modifies this
      ensures Valid() && scrollHeight == page.scrollHeight
      ensures if old(scrollHeight) == page.scrollHeight then offsets == old(offsets) && targets == old(targets)
              else Zipped(offsets, targets) == Sort(Entries(page.links))
      ensures
        activeTarget == Activated(old(activeTarget), offsets, targets, page.scrollTop + page.offset,
                                  page.offset + page.scrollHeight - page.offsetHeight)
      ensures
        activations == if activeTarget == old(activeTarget) || activeTarget.Null? then old(activations)
                       else old(activations) + [activeTarget]
    {
      var scrollTop := page.scrollTop + page.offset;
      var maxScroll := page.offset + page.scrollHeight - page.offsetHeight;
      RefreshIfNeeded(page);
      if scrollTop >= maxScroll {
        var target := if targets == [] then Undefined else Target(targets[|targets| - 1]);
        if activeTarget != target {
          Activate(target);
        }
        return;
      }
      if activeTarget.Target? && offsets != [] && scrollTop < offsets[0] && offsets[0] > 0.0 {
        activeTarget := Null;
        return;
      }
      Search(scrollTop);
    }

    /** The loop, from the last offset to the first: only one of them can be the one to activate. */
    method Search(scrollTop: real)
      requires Valid()
      modifies this`activeTarget, this`activations
      ensures
        activeTarget == if offsets != [] && offsets[0] <= scrollTop then Target(targets[LastAtMost(offsets, scrollTop)])
                        else old(activeTarget)
      ensures
        activations == if activeTarget == old(activeTarget) then old(activations) else old(activations) + [activeTarget]
    {
      ghost var found := offsets != [] && offsets[0] <= scrollTop;
      ghost var j := if found then LastAtMost(offsets, scrollTop) else 0;
      var i := |offsets|;
      while i > 0
        invariant 0 <= i <= |offsets|
        invariant activeTarget == if found && i <= j then Target(targets[j]) else old(activeTarget)
        invariant activations == if activeTarget == old(activeTarget) then old(activations)
                                 else old(activations) + [activeTarget]
      {
        i := i - 1;
        assert found ==> (IsHere(offsets, scrollTop, i) <==> i == j);
        if activeTarget != Target(targets[i]) && IsHere(offsets, scrollTop, i) {
          Activate(Target(targets[i]));
        }
      }
    }
  }

  /** The position is between the i-th offset and the next. */
  predicate IsHere(offsets: seq<real>, scrollTop: real, i: nat)
    requires i < |offsets|
  {
    scrollTop >= offsets[i] && (i + 1 == |offsets| || scrollTop < offsets[i + 1])
  }

  // ---------------------------------------------------------------- the ends of the page, and the links

  /** At the bottom of the page the last target is active, however far up its offset is. */
  lemma BottomIsLast(active: Active, offsets: seq<real>, targets: seq<string>, scrollTop: real, maxScroll: real)
    requires |offsets| == |targets| && Sorted(offsets) && scrollTop >= maxScroll
    ensures Activated(active, offsets, targets, scrollTop, maxScroll)
         == if |targets| == 0 then Undefined else Target(targets[|targets| - 1])
  {}

  /**
   Above the first offset, off the bottom: what was active is cleared, unless the first offset is not below the top of
   the page.  Without any offset nothing changes.
   */
  lemma TopIsCleared(active: Active, offsets: seq<real>, targets: seq<string>, scrollTop: real, maxScroll: real)
    requires |offsets| == |targets| && Sorted(offsets) && scrollTop < maxScroll
    requires offsets != [] ==> scrollTop < offsets[0]
    ensures Activated(active, offsets, targets, scrollTop, maxScroll)
         == if offsets != [] && offsets[0] > 0.0 && active.Target? then Null else active
  {}

  /** Each link gives its entry, in the order of the page; a link without a visible target gives none. */
  lemma {:induction false} EntriesInOrder(a: seq<Option<Entry>>, link: Option<Entry>)
    ensures Entries([]) == []
    ensures Entries(a + [link]) == if link.Some? then Entries(a) + [link.value] else Entries(a)
  {
    if a == [] {
      assert [link][1..] == [];
    } else {
      assert (a + [link])[1..] == a[1..] + [link];
      EntriesInOrder(a[1..], link);
    }
  }

  function WithOffset(entries: seq<Entry>, offset: real): seq<Entry> {
    if entries == [] then []
    else (if entries[0].offset == offset then [entries[0]] else []) + WithOffset(entries[1..], offset)
  }

  lemma {:induction false} InsertStable(e: Entry, sorted: seq<Entry>, offset: real)
    requires SortedEntries(sorted)
    ensures WithOffset(Insert(e, sorted), offset) == WithOffset([e], offset) + WithOffset(sorted, offset)
  {
    if sorted == [] {
    } else if e.offset <= sorted[0].offset {
      assert ([e] + sorted)[1..] == sorted;
    } else {
      InsertStable(e, sorted[1..], offset);
      assert Insert(e, sorted) == [sorted[0]] + Insert(e, sorted[1..]);
      InOrder(e, sorted[0], sorted[1..], Insert(e, sorted[1..]), offset);
      assert sorted == [sorted[0]] + sorted[1..];
    }
  }

  lemma InOrder(e: Entry, first: Entry, rest: seq<Entry>, inserted: seq<Entry>, offset: real)
    requires first.offset < e.offset
    requires WithOffset(inserted, offset) == WithOffset([e], offset) + WithOffset(rest, offset)
    ensures WithOffset([first] + inserted, offset) == WithOffset([e], offset) + WithOffset([first] + rest, offset)
  {
    assert ([first] + inserted)[1..] == inserted && ([first] + rest)[1..] == rest && [e][1..] == [];
  }

  /** Entries with the same offset keep their order. */
  lemma {:induction false} SortIsStable(entries: seq<Entry>, offset: real)
    ensures WithOffset(Sort(entries), offset) == WithOffset(entries, offset)
  {
    if entries != [] {
      SortIsStable(entries[1..], offset);
      InsertStable(entries[0], Sort(entries[1..]), offset);
    }
  }
}
