/**
 What the flattened dictionary says about the document: it holds each leaf under the key of its path and nothing
 else, up to the limit.
 */
module JsonDocuments {
  import opened JsonFlattener
  import opened JsonPaths

  // ---------------------------------------------------------------- ignoring case

  /** The comparer changes none of the characters that give a key its structure, and maps no other to '.' or '['. */
  ghost predicate Faithful(fold: char -> char) {
    && fold(']') == ']'
    && (forall c :: fold(c) == '.' <==> c == '.')
    && (forall c :: fold(c) == '[' <==> c == '[')
    && forall c :: '0' <= c <= '9' ==> fold(c) == c
  }

  function FoldStep(fold: char -> char, step: Step): Step {
    match step
    case Prop(name) => Prop(Fold(fold, name))
    case Index(_) => step
  }

  function FoldPath(fold: char -> char, path: Path): (r: Path)
    ensures |r| == |path| && forall i :: 0 <= i < |path| ==> r[i] == FoldStep(fold, path[i])
  {
    if path == [] then [] else FoldPath(fold, path[..|path| - 1]) + [FoldStep(fold, path[|path| - 1])]
  }

  lemma FoldPlus(fold: char -> char, a: string, b: string)
    ensures Fold(fold, a + b) == Fold(fold, a) + Fold(fold, b)
  {}

  lemma FoldFixed(fold: char -> char, s: string)
    requires forall i :: 0 <= i < |s| ==> fold(s[i]) == s[i]
    ensures Fold(fold, s) == s
  {}

  lemma FoldMakeKey(fold: char -> char, prefix: string, step: Step)
    requires Faithful(fold)
    ensures Fold(fold, MakeKey(prefix, step)) == MakeKey(Fold(fold, prefix), FoldStep(fold, step))
  {
    match step {
      case Prop(name) =>
        FoldPlus(fold, prefix + ".", name);
        FoldPlus(fold, prefix, ".");
        FoldFixed(fold, ".");
      case Index(i) =>
        FoldPlus(fold, prefix + "[" + Decimal(i), "]");
        FoldPlus(fold, prefix + "[", Decimal(i));
        FoldPlus(fold, prefix, "[");
        FoldFixed(fold, "[");
        FoldFixed(fold, "]");
        FoldFixed(fold, Decimal(i));
    }
  }

  lemma {:induction false} FoldKey(fold: char -> char, path: Path)
    requires Faithful(fold)
    ensures Fold(fold, Key(path)) == Key(FoldPath(fold, path))
  {
    if path != [] {
      var front, last := path[..|path| - 1], path[|path| - 1];
      FoldKey(fold, front);
      FoldMakeKey(fold, Key(front), last);
      KeyPlus(FoldPath(fold, front), FoldStep(fold, last));
    }
  }

  lemma FoldGood(fold: char -> char, path: Path)
    requires Faithful(fold) && GoodPath(path)
    ensures GoodPath(FoldPath(fold, path))
  {}

  /** Keys that are the same to the comparer spell paths that are the same to it. */
  lemma KeysInjective(fold: char -> char, p: Path, q: Path)
    requires Faithful(fold) && GoodPath(p) && GoodPath(q)
    ensures Fold(fold, Key(p)) == Fold(fold, Key(q)) <==> FoldPath(fold, p) == FoldPath(fold, q)
  {
    FoldKey(fold, p);
    FoldKey(fold, q);
    FoldGood(fold, p);
    FoldGood(fold, q);
    ParseKeyOfPath(FoldPath(fold, p));
    ParseKeyOfPath(FoldPath(fold, q));
  }

  // ---------------------------------------------------------------- the leaves of a document

  /** Every name is good, and no two siblings' names are the same to the comparer. */
  ghost predicate Proper(fold: char -> char, v: Json) {
    match v
    case Leaf(_) => true
    case Obj(entries) =>
      && (forall i :: 0 <= i < |entries| ==> GoodName(entries[i].name))
      && (forall i, j :: 0 <= i < j < |entries| ==> Fold(fold, entries[i].name) != Fold(fold, entries[j].name))
      && forall i :: 0 <= i < |entries| ==> Proper(fold, entries[i].value)
    case Arr(items) => forall i :: 0 <= i < |items| ==> Proper(fold, items[i])
  }

  predicate GoodStep(step: Step) {
    step.Prop? ==> GoodName(step.name)
  }

  /**
   Following path from v ends at a leaf with this value: a name leads to an entry of that name, a number to the item
   with so many before it.
   */
  ghost predicate LeadsTo(v: Json, path: Path, value: int)
    decreases |path|
  {
    match v
    case Leaf(x) => path == [] && x == value
    case Obj(entries) =>
      path != [] && exists e :: e in entries && path[0] == Prop(e.name) && LeadsTo(e.value, path[1..], value)
    case Arr(items) =>
      path != [] && path[0].Index? && path[0].i < |items| && LeadsTo(items[path[0].i], path[1..], value)
  }

  /** The steps the recursion takes are those that lead anywhere. */
  lemma LeadsThrough(v: Json, path: Path, value: int)
    requires path != []
    ensures LeadsTo(v, path, value)
       <==> exists i :: 0 <= i < Count(v) && StepAt(v, i) == path[0] && LeadsTo(ChildAt(v, i), path[1..], value)
  {
    if v.Obj? && LeadsTo(v, path, value) {
      var e :| e in v.entries && path[0] == Prop(e.name) && LeadsTo(e.value, path[1..], value);
      var i :| 0 <= i < |v.entries| && v.entries[i] == e;
      assert StepAt(v, i) == path[0] && ChildAt(v, i) == e.value;
    }
    if v.Arr? && LeadsTo(v, path, value) {
      assert StepAt(v, path[0].i) == path[0];
    }
    if i :| 0 <= i < Count(v) && StepAt(v, i) == path[0] && LeadsTo(ChildAt(v, i), path[1..], value) {
      if v.Obj? {
        assert v.entries[i] in v.entries;
      }
    }
  }

  lemma ProperSteps(fold: char -> char, v: Json, i: nat)
    requires Proper(fold, v) && i < Count(v)
    ensures GoodStep(StepAt(v, i)) && Proper(fold, ChildAt(v, i))
    ensures forall j :: i < j < Count(v) ==> FoldStep(fold, StepAt(v, i)) != FoldStep(fold, StepAt(v, j))
  {}

  predicate StartsWith(path: Path, prefix: Path) {
    |prefix| <= |path| && path[..|prefix|] == prefix
  }

  ghost predicate Reached(prefix: Path, v: Json, f: Found) {
    StartsWith(f.path, prefix) && LeadsTo(v, f.path[|prefix|..], f.value)
  }

  /** f is reached through one of v's children from the i-th on. */
  ghost predicate ReachedFrom(prefix: Path, v: Json, i: nat, f: Found) {
    exists k :: i <= k < Count(v) && Reached(prefix + [StepAt(v, k)], ChildAt(v, k), f)
  }

  lemma ReachedThrough(prefix: Path, v: Json, k: nat, f: Found)
    requires k < Count(v) && Reached(prefix + [StepAt(v, k)], ChildAt(v, k), f)
    ensures Reached(prefix, v, f) && |f.path| > |prefix| && f.path[|prefix|] == StepAt(v, k)
  {
    LeadsThrough(v, f.path[|prefix|..], f.value);
    assert f.path[|prefix|..][1..] == f.path[|prefix| + 1..];
  }

  lemma ReachedOnward(prefix: Path, v: Json, f: Found)
    requires Reached(prefix, v, f) && !v.Leaf?
    ensures ReachedFrom(prefix, v, 0, f)
  {
    var rest := f.path[|prefix|..];
    LeadsThrough(v, rest, f.value);
    var k :| 0 <= k < Count(v) && StepAt(v, k) == rest[0] && LeadsTo(ChildAt(v, k), rest[1..], f.value);
    assert rest[1..] == f.path[|prefix| + 1..];
    assert Reached(prefix + [StepAt(v, k)], ChildAt(v, k), f);
  }

  /** The leaves listed in document order are the leaves the document's paths lead to. */
  lemma {:induction false} LeavesAreReached(prefix: Path, v: Json, f: Found)
    ensures f in Leaves(prefix, v) <==> Reached(prefix, v, f)
    decreases v, 1, 0
  {
    if v.Leaf? {
      LeafReached(prefix, v, f);
    } else {
      LeavesFromAreReached(prefix, v, 0, f);
      if Reached(prefix, v, f) {
        ReachedOnward(prefix, v, f);
      }
      if ReachedFrom(prefix, v, 0, f) {
        var k :| 0 <= k < Count(v) && Reached(prefix + [StepAt(v, k)], ChildAt(v, k), f);
        ReachedThrough(prefix, v, k, f);
      }
    }
  }

  lemma LeafReached(prefix: Path, v: Json, f: Found)
    requires v.Leaf?
    ensures f in [Found(prefix, v.value)] <==> Reached(prefix, v, f)
  {}

  lemma {:induction false} LeavesFromAreReached(prefix: Path, v: Json, i: nat, f: Found)
    requires i <= Count(v)
    ensures f in LeavesFrom(prefix, v, i) <==> ReachedFrom(prefix, v, i, f)
    decreases v, 0, Count(v) - i
  {
    if i < Count(v) {
      LeavesAreReached(prefix + [StepAt(v, i)], ChildAt(v, i), f);
      LeavesFromAreReached(prefix, v, i + 1, f);
      ReachedFirst(prefix, v, i, f);
      InEither(f, Leaves(prefix + [StepAt(v, i)], ChildAt(v, i)), LeavesFrom(prefix, v, i + 1));
    }
  }

  lemma ReachedFirst(prefix: Path, v: Json, i: nat, f: Found)
    requires i < Count(v)
    ensures ReachedFrom(prefix, v, i, f)
       <==> Reached(prefix + [StepAt(v, i)], ChildAt(v, i), f) || ReachedFrom(prefix, v, i + 1, f)
  {}

  lemma InEither(f: Found, a: seq<Found>, b: seq<Found>)
    ensures f in a + b <==> f in a || f in b
  {}

  // ---------------------------------------------------------------- document order

  /** Where the two paths part, p takes an earlier entry or item than q. */
  ghost predicate Before(v: Json, p: Path, q: Path)
    decreases |p|
  {
    p != [] && q != [] &&
    match v
    case Leaf(_) => false
    case Obj(entries) =>
      exists i, j :: 0 <= i <= j < |entries| && p[0] == Prop(entries[i].name) && q[0] == Prop(entries[j].name)
        && (i == j ==> Before(entries[i].value, p[1..], q[1..]))
    case Arr(items) =>
      && p[0].Index? && q[0].Index? && p[0].i <= q[0].i < |items|
      && (p[0].i == q[0].i ==> Before(items[p[0].i], p[1..], q[1..]))
  }

  lemma BeforeThrough(v: Json, p: Path, q: Path, i: nat, j: nat)
    requires i <= j < Count(v) && p != [] && q != [] && p[0] == StepAt(v, i) && q[0] == StepAt(v, j)
    requires i == j ==> Before(ChildAt(v, i), p[1..], q[1..])
    ensures Before(v, p, q)
  {}

  ghost predicate BeforeBelow(prefix: Path, v: Json, f: Found, g: Found) {
    && StartsWith(f.path, prefix) && StartsWith(g.path, prefix)
    && Before(v, f.path[|prefix|..], g.path[|prefix|..])
  }

  ghost predicate Ordered(prefix: Path, v: Json, found: seq<Found>) {
    forall i, j :: 0 <= i < j < |found| ==> BeforeBelow(prefix, v, found[i], found[j])
  }

  /** The leaves are listed in document order. */
  lemma {:induction false} LeavesOrdered(prefix: Path, v: Json)
    ensures Ordered(prefix, v, Leaves(prefix, v))
    decreases v, 1, 0
  {
    if !v.Leaf? {
      LeavesFromOrdered(prefix, v, 0);
    }
  }

  lemma {:induction false} LeavesFromOrdered(prefix: Path, v: Json, i: nat)
    requires i <= Count(v)
    ensures Ordered(prefix, v, LeavesFrom(prefix, v, i))
    decreases v, 0, Count(v) - i
  {
    if i < Count(v) {
      var here, later := Leaves(prefix + [StepAt(v, i)], ChildAt(v, i)), LeavesFrom(prefix, v, i + 1);
      LeavesOrdered(prefix + [StepAt(v, i)], ChildAt(v, i));
      ChildOrdered(prefix, v, i, here);
      LeavesFromOrdered(prefix, v, i + 1);
      forall f, g | f in here && g in later ensures BeforeBelow(prefix, v, f, g) {
        HereBeforeLater(prefix, v, i, f, g);
      }
      OrderedTogether(prefix, v, here, later);
    }
  }

  lemma ChildOrdered(prefix: Path, v: Json, i: nat, here: seq<Found>)
    requires i < Count(v) && Ordered(prefix + [StepAt(v, i)], ChildAt(v, i), here)
    ensures Ordered(prefix, v, here)
  {
    forall m, n | 0 <= m < n < |here| ensures BeforeBelow(prefix, v, here[m], here[n]) {
      BelowChild(prefix, v, i, here[m], here[n]);
    }
  }

  lemma BelowChild(prefix: Path, v: Json, i: nat, f: Found, g: Found)
    requires i < Count(v) && BeforeBelow(prefix + [StepAt(v, i)], ChildAt(v, i), f, g)
    ensures BeforeBelow(prefix, v, f, g)
  {
    var p, q := f.path[|prefix|..], g.path[|prefix|..];
    StepBelow(f.path, prefix, StepAt(v, i));
    StepBelow(g.path, prefix, StepAt(v, i));
    BeforeThrough(v, p, q, i, i);
  }

  lemma StepBelow(path: Path, prefix: Path, step: Step)
    requires StartsWith(path, prefix + [step])
    ensures StartsWith(path, prefix) && path[|prefix|..] == [step] + path[|prefix| + 1..]
  {
    assert path[..|prefix|] == path[..|prefix| + 1][..|prefix|];
    assert path[|prefix|] == path[..|prefix| + 1][|prefix|];
  }

  lemma HereBeforeLater(prefix: Path, v: Json, i: nat, f: Found, g: Found)
    requires i < Count(v)
    requires f in Leaves(prefix + [StepAt(v, i)], ChildAt(v, i)) && g in LeavesFrom(prefix, v, i + 1)
    ensures BeforeBelow(prefix, v, f, g)
  {
    LeavesAreReached(prefix + [StepAt(v, i)], ChildAt(v, i), f);
    LeavesFromAreReached(prefix, v, i + 1, g);
    var k :| i + 1 <= k < Count(v) && Reached(prefix + [StepAt(v, k)], ChildAt(v, k), g);
    StepBelow(f.path, prefix, StepAt(v, i));
    StepBelow(g.path, prefix, StepAt(v, k));
    BeforeThrough(v, f.path[|prefix|..], g.path[|prefix|..], i, k);
  }

  lemma OrderedTogether(prefix: Path, v: Json, a: seq<Found>, b: seq<Found>)
    requires Ordered(prefix, v, a) && Ordered(prefix, v, b)
    requires forall f, g :: f in a && g in b ==> BeforeBelow(prefix, v, f, g)
    ensures Ordered(prefix, v, a + b)
  {}

  // ---------------------------------------------------------------- distinct keys

  predicate DistinctPaths(fold: char -> char, found: seq<Found>) {
    forall i, j :: 0 <= i < j < |found| ==> FoldPath(fold, found[i].path) != FoldPath(fold, found[j].path)
  }

  lemma DistinctTogether(fold: char -> char, a: seq<Found>, b: seq<Found>)
    requires DistinctPaths(fold, a) && DistinctPaths(fold, b)
    requires forall f, g :: f in a && g in b ==> FoldPath(fold, f.path) != FoldPath(fold, g.path)
    ensures DistinctPaths(fold, a + b)
  {}

  /** Leaves reached through different children have paths that differ where they part. */
  lemma PathsPart(fold: char -> char, prefix: Path, v: Json, i: nat, f: Found, g: Found)
    requires Proper(fold, v) && i < Count(v)
    requires Reached(prefix + [StepAt(v, i)], ChildAt(v, i), f) && ReachedFrom(prefix, v, i + 1, g)
    ensures FoldPath(fold, f.path) != FoldPath(fold, g.path)
  {
    var k :| i + 1 <= k < Count(v) && Reached(prefix + [StepAt(v, k)], ChildAt(v, k), g);
    ReachedThrough(prefix, v, i, f);
    ReachedThrough(prefix, v, k, g);
    ProperSteps(fold, v, i);
    assert FoldPath(fold, f.path)[|prefix|] == FoldStep(fold, StepAt(v, i));
    assert FoldPath(fold, g.path)[|prefix|] == FoldStep(fold, StepAt(v, k));
  }

  lemma LeavesPart(fold: char -> char, prefix: Path, v: Json, i: nat, f: Found, g: Found)
    requires i < Count(v) && Proper(fold, v)
    requires f in Leaves(prefix + [StepAt(v, i)], ChildAt(v, i)) && g in LeavesFrom(prefix, v, i + 1)
    ensures FoldPath(fold, f.path) != FoldPath(fold, g.path)
  {
    LeavesAreReached(prefix + [StepAt(v, i)], ChildAt(v, i), f);
    LeavesFromAreReached(prefix, v, i + 1, g);
    PathsPart(fold, prefix, v, i, f, g);
  }

  lemma {:induction false} LeavesDistinct(fold: char -> char, prefix: Path, v: Json)
    requires Proper(fold, v)
    ensures DistinctPaths(fold, Leaves(prefix, v))
    decreases v, 1, 0
  {
    if !v.Leaf? {
      LeavesFromDistinct(fold, prefix, v, 0);
    }
  }

  lemma LeavesFromTogether(fold: char -> char, prefix: Path, v: Json, i: nat, here: seq<Found>, later: seq<Found>)
    requires Proper(fold, v) && i < Count(v)
    requires here == Leaves(prefix + [StepAt(v, i)], ChildAt(v, i)) && later == LeavesFrom(prefix, v, i + 1)
    requires DistinctPaths(fold, here) && DistinctPaths(fold, later)
    ensures DistinctPaths(fold, here + later)
  {
    forall f, g | f in here && g in later ensures FoldPath(fold, f.path) != FoldPath(fold, g.path) {
      LeavesPart(fold, prefix, v, i, f, g);
    }
    DistinctTogether(fold, here, later);
  }

  lemma {:induction false} LeavesFromDistinct(fold: char -> char, prefix: Path, v: Json, i: nat)
    requires Proper(fold, v) && i <= Count(v)
    ensures DistinctPaths(fold, LeavesFrom(prefix, v, i))
    decreases v, 0, Count(v) - i
  {
    if i < Count(v) {
      var next := prefix + [StepAt(v, i)];
      ProperSteps(fold, v, i);
      LeavesDistinct(fold, next, ChildAt(v, i));
      LeavesFromDistinct(fold, prefix, v, i + 1);
      LeavesFromTogether(fold, prefix, v, i, Leaves(next, ChildAt(v, i)), LeavesFrom(prefix, v, i + 1));
    }
  }

  lemma GoodAfter(path: Path)
    requires path != [] && GoodStep(path[0]) && GoodPath(path[1..])
    ensures GoodPath(path)
  {
    assert forall k :: 1 <= k < |path| ==> path[k] == path[1..][k - 1];
  }

  lemma {:induction false} PathsGood(fold: char -> char, v: Json, path: Path, value: int)
    requires Proper(fold, v) && LeadsTo(v, path, value)
    ensures GoodPath(path)
    decreases |path|
  {
    if path != [] {
      LeadsThrough(v, path, value);
      var i :| 0 <= i < Count(v) && StepAt(v, i) == path[0] && LeadsTo(ChildAt(v, i), path[1..], value);
      ProperSteps(fold, v, i);
      PathsGood(fold, ChildAt(v, i), path[1..], value);
      GoodAfter(path);
    }
  }

  // ---------------------------------------------------------------- the dictionary is the document

  function Keyed(found: seq<Found>): (pairs: seq<Pair>)
    ensures |pairs| == |found|
    ensures forall i :: 0 <= i < |found| ==> pairs[i] == Pair(Key(found[i].path), found[i].value)
  {
    if found == [] then [] else [Pair(Key(found[0].path), found[0].value)] + Keyed(found[1..])
  }

  lemma KeyedPlus(a: seq<Found>, b: seq<Found>)
    ensures Keyed(a + b) == Keyed(a) + Keyed(b)
  {}

  /** The recursion adds each leaf under the key of its path. */
  lemma {:induction false} PairsAreLeaves(path: Path, v: Json)
    ensures Pairs(Key(path), v) == Keyed(Leaves(path, v))
    decreases v, 1, 0
  {
    if !v.Leaf? {
      PairsFromAreLeaves(path, v, 0);
    }
  }

  lemma {:induction false} PairsFromAreLeaves(path: Path, v: Json, i: nat)
    requires i <= Count(v)
    ensures PairsFrom(Key(path), v, i) == Keyed(LeavesFrom(path, v, i))
    decreases v, 0, Count(v) - i
  {
    if i < Count(v) {
      KeyPlus(path, StepAt(v, i));
      PairsAreLeaves(path + [StepAt(v, i)], ChildAt(v, i));
      PairsFromAreLeaves(path, v, i + 1);
      KeyedPlus(Leaves(path + [StepAt(v, i)], ChildAt(v, i)), LeavesFrom(path, v, i + 1));
    }
  }

  /** f is a leaf of the document, with a good path. */
  lemma LeafIsGood(fold: char -> char, v: Json, f: Found)
    requires Proper(fold, v) && f in Leaves([], v)
    ensures GoodPath(f.path) && LeadsTo(v, f.path, f.value)
  {
    LeavesAreReached([], v, f);
    assert f.path[0..] == f.path;
    PathsGood(fold, v, f.path, f.value);
  }

  lemma KeysDistinct(fold: char -> char, v: Json)
    requires Faithful(fold) && Proper(fold, v)
    ensures DistinctKeys(fold, Keyed(Leaves([], v)))
  {
    var found := Leaves([], v);
    var pairs := Keyed(found);
    LeavesDistinct(fold, [], v);
    forall i, j | 0 <= i < j < |pairs| ensures Fold(fold, pairs[i].key) != Fold(fold, pairs[j].key) {
      LeafIsGood(fold, v, found[i]);
      LeafIsGood(fold, v, found[j]);
      KeysInjective(fold, found[i].path, found[j].path);
    }
  }

  function Flattened(config: Config, v: Json): (Store, Outcome) {
    PutAll(config, Store(0, []), Pairs("", v))
  }

  /**
   Flattening succeeds exactly when the leaves are within the limit, and then stores them all; otherwise the first
   limit leaves in document order are stored, and the request is too large.
   */
  lemma FlattenedLeaves(config: Config, v: Json)
    requires Faithful(config.fold) && Proper(config.fold, v)
    ensures
      var found, bound := Leaves([], v), AtLeastZero(config.limit);
      Flattened(config, v) == if |found| <= bound then (Store(|found|, Keyed(found)), Added)
                              else (Store(bound + 1, Keyed(found[..bound])), TooLarge)
  {
    var found, bound := Leaves([], v), AtLeastZero(config.limit);
    PairsAreLeaves([], v);
    KeysDistinct(config.fold, v);
    PutAllDistinct(config, Keyed(found));
    if |found| > bound {
      assert Keyed(found)[..bound] == Keyed(found[..bound]);
    }
  }

  /** The key of a leaf parses to its path. */
  lemma EntryIsLeaf(fold: char -> char, v: Json, f: Found)
    requires Proper(fold, v) && f in Leaves([], v)
    ensures ParseKey(Key(f.path)) == f.path && LeadsTo(v, f.path, f.value)
  {
    LeafIsGood(fold, v, f);
    ParseKeyOfPath(f.path);
  }

  lemma LeafIsEntry(v: Json, path: Path, value: int)
    requires LeadsTo(v, path, value)
    ensures Pair(Key(path), value) in Keyed(Leaves([], v))
  {
    var found := Leaves([], v);
    LeavesAreReached([], v, Found(path, value));
    assert path[0..] == path;
    var i :| 0 <= i < |found| && found[i] == Found(path, value);
    assert Keyed(found)[i] == Pair(Key(path), value);
  }

  /**
   The dictionary undone: an entry's key parses to the path of a leaf with the entry's value, and every path that
   leads to a leaf has its entry.
   */
  lemma FlattenedIsDocument(config: Config, v: Json)
    requires Faithful(config.fold) && Proper(config.fold, v) && |Leaves([], v)| <= config.limit
    ensures
      var entries := Flattened(config, v).0.entries;
      && (forall e :: e in entries ==> LeadsTo(v, ParseKey(e.key), e.value) && Key(ParseKey(e.key)) == e.key)
      && (forall path, value :: LeadsTo(v, path, value) ==> Pair(Key(path), value) in entries)
      && DistinctKeys(config.fold, entries)
  {
    FlattenedLeaves(config, v);
    KeysDistinct(config.fold, v);
    var found := Leaves([], v);
    var entries := Keyed(found);
    forall e | e in entries ensures LeadsTo(v, ParseKey(e.key), e.value) && Key(ParseKey(e.key)) == e.key {
      var i :| 0 <= i < |entries| && entries[i] == e;
      EntryIsLeaf(config.fold, v, found[i]);
    }
    forall path, value | LeadsTo(v, path, value) ensures Pair(Key(path), value) in entries {
      LeafIsEntry(v, path, value);
    }
  }

  // ---------------------------------------------------------------- without the conditions on names

  /** No two leaves have keys that are the same to the comparer. */
  predicate LeavesApart(fold: char -> char, found: seq<Found>) {
    forall i, j :: 0 <= i < j < |found| ==> Fold(fold, Key(found[i].path)) != Fold(fold, Key(found[j].path))
  }

  /**
   For any document, whatever its names: flattening succeeds exactly when the leaves are within the limit and their keys
   are apart, and then the leaves are stored in order under their keys.
   */
  lemma FlattenedIff(config: Config, v: Json)
    ensures
      var found := Leaves([], v);
      && (Flattened(config, v).1.Added? <==> |found| <= AtLeastZero(config.limit) && LeavesApart(config.fold, found))
      && (Flattened(config, v).1.Added? ==> Flattened(config, v).0 == Store(|found|, Keyed(found)))
  {
    var found := Leaves([], v);
    PairsAreLeaves([], v);
    AddedIffDistinct(config, Keyed(found));
    KeyedApart(config.fold, found);
    if Flattened(config, v).1.Added? {
      PutAllDistinct(config, Keyed(found));
    }
  }

  lemma KeyedApart(fold: char -> char, found: seq<Found>)
    ensures DistinctKeys(fold, Keyed(found)) <==> LeavesApart(fold, found)
  {
    var pairs := Keyed(found);
    if LeavesApart(fold, found) {
      forall i, j | 0 <= i < j < |pairs| ensures Fold(fold, pairs[i].key) != Fold(fold, pairs[j].key) {}
    }
    if DistinctKeys(fold, pairs) {
      forall i, j | 0 <= i < j < |found| ensures Fold(fold, Key(found[i].path)) != Fold(fold, Key(found[j].path)) {
        assert pairs[i].key == Key(found[i].path) && pairs[j].key == Key(found[j].path);
      }
    }
  }

  function Nested(a: string, b: string, x: int, c: string, y: int): Json {
    Obj([Entry(a, Obj([Entry(b, Leaf(x))])), Entry(c, Leaf(y))])
  }

  lemma NestedPairs(a: string, b: string, x: int, c: string, y: int)
    ensures Pairs("", Nested(a, b, x, c, y)) == [Pair(MakePropertyKey(a, b), x)] + [Pair(c, y)]
  {
    var v := Nested(a, b, x, c, y);
    var inner := ChildAt(v, 0);
    assert Count(v) == 2 && Count(inner) == 1 && inner == Obj([Entry(b, Leaf(x))]);
    assert PairsFrom(a, inner, 1) == [];
    assert PairsFrom(a, inner, 0) == [Pair(MakePropertyKey(a, b), x)];
    assert PairsFrom("", v, 2) == [];
    assert PairsFrom("", v, 1) == [Pair(c, y)];
    assert MakeKey("", StepAt(v, 0)) == a && Pairs(a, inner) == [Pair(MakePropertyKey(a, b), x)];
    assert PairsFrom("", v, 0) == Pairs(a, inner) + PairsFrom("", v, 1);
  }

  /**
   A dot in a name, or an empty name, can make two leaves' keys the same; the request then fails although it is
   within the limit: with b inside a, and c beside a, exactly when c is spelt like the path to b.
   */
  lemma NamesCollide(config: Config, a: string, b: string, x: int, c: string, y: int)
    requires config.limit >= 2
    ensures Flattened(config, Nested(a, b, x, c, y)).1
         == if Fold(config.fold, MakePropertyKey(a, b)) == Fold(config.fold, c) then Duplicate else Added
    ensures c == a + "." + b && a != "" ==> Flattened(config, Nested(a, b, x, c, y)).1 == Duplicate
    ensures c == b && a == "" ==> Flattened(config, Nested(a, b, x, c, y)).1 == Duplicate
  {
    NestedPairs(a, b, x, c, y);
    TwoPairs(config, Pair(MakePropertyKey(a, b), x), Pair(c, y));
  }

  lemma TwoPairs(config: Config, p: Pair, q: Pair)
    requires config.limit >= 2
    ensures PutAll(config, Store(0, []), [p] + [q]).1
         == if Fold(config.fold, p.key) == Fold(config.fold, q.key) then Duplicate else Added
  {
    PutOne(config, Store(0, []), p);
    PutAllPlus(config, Store(0, []), [p], [q]);
    PutOne(config, Store(1, [p]), q);
    assert [] + [p] == [p] && [p][0] == p;
  }

  lemma PutOne(config: Config, store: Store, p: Pair)
    ensures PutAll(config, store, [p]) == Put(config, store, p)
  {}
}
