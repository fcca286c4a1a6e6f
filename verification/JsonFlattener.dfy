/**
 The JSON value provider's flattening of a document into a dictionary: the key of an entry spells the path to a
 leaf, the dictionary ignores case, and it takes no more than a limited number of entries.
 */
module JsonFlattener {
  import opened Sequences

  // ---------------------------------------------------------------- documents and paths

  datatype Json = Leaf(value: int) | Obj(entries: seq<Entry>) | Arr(items: seq<Json>)

  datatype Entry = Entry(name: string, value: Json)

  datatype Step = Prop(name: string) | Index(i: nat)

  type Path = seq<Step>

  function Count(v: Json): nat {
    match v
    case Leaf(_) => 0
    case Obj(entries) => |entries|
    case Arr(items) => |items|
  }

  function StepAt(v: Json, i: nat): Step
    requires i < Count(v)
  {
    if v.Obj? then Prop(v.entries[i].name) else Index(i)
  }

  function ChildAt(v: Json, i: nat): Json
    requires i < Count(v)
  {
    if v.Obj? then v.entries[i].value else v.items[i]
  }

  /** A leaf and the path that leads to it. */
  datatype Found = Found(path: Path, value: int)

  /** The leaves of v in document order, below a path. */
  function Leaves(path: Path, v: Json): seq<Found>
    decreases v, 1, 0
  {
    if v.Leaf? then [Found(path, v.value)] else LeavesFrom(path, v, 0)
  }

  function LeavesFrom(path: Path, v: Json, i: nat): seq<Found>
    requires i <= Count(v)
    decreases v, 0, Count(v) - i
  {
    if i == Count(v) then [] else Leaves(path + [StepAt(v, i)], ChildAt(v, i)) + LeavesFrom(path, v, i + 1)
  }

  // ---------------------------------------------------------------- keys

  function Digit(d: nat): char
    requires d < 10
  {
    (d + '0' as int) as char
  }

  function Decimal(n: nat): (s: string)
    ensures s != [] && All(s, IsDigit)
  {
    if n < 10 then [Digit(n)] else Decimal(n / 10) + [Digit(n % 10)]
  }

  function MakeArrayKey(prefix: string, index: nat): string {
    prefix + "[" + Decimal(index) + "]"
  }

  function MakePropertyKey(prefix: string, propertyName: string): string {
    if prefix == "" then propertyName else prefix + "." + propertyName
  }

  function MakeKey(prefix: string, step: Step): string {
    match step
    case Prop(name) => MakePropertyKey(prefix, name)
    case Index(i) => MakeArrayKey(prefix, i)
  }

  datatype Pair = Pair(key: string, value: int)

  /** The entries the recursion adds, in order. */
  function Pairs(prefix: string, v: Json): seq<Pair>
    decreases v, 1, 0
  {
    if v.Leaf? then [Pair(prefix, v.value)] else PairsFrom(prefix, v, 0)
  }

  function PairsFrom(prefix: string, v: Json, i: nat): seq<Pair>
    requires i <= Count(v)
    decreases v, 0, Count(v) - i
  {
    if i == Count(v) then []
    else Pairs(MakeKey(prefix, StepAt(v, i)), ChildAt(v, i)) + PairsFrom(prefix, v, i + 1)
  }

  // ---------------------------------------------------------------- the limited dictionary

  /** The limit, and how the dictionary's comparer identifies characters. */
  datatype Config = Config(limit: int, fold: char -> char)

  function Fold(fold: char -> char, s: string): (r: string)
    ensures |r| == |s| && forall i :: 0 <= i < |s| ==> r[i] == fold(s[i])
  {
    if s == [] then [] else [fold(s[0])] + Fold(fold, s[1..])
  }

  datatype Outcome = Added | TooLarge | Duplicate

  datatype Store = Store(itemCount: int, entries: seq<Pair>)

  predicate Holds(fold: char -> char, entries: seq<Pair>, key: string) {
    exists i :: 0 <= i < |entries| && Fold(fold, entries[i].key) == Fold(fold, key)
  }

  function Put(config: Config, store: Store, pair: Pair): (Store, Outcome) {
    var n := store.itemCount + 1;
    if n > config.limit then (Store(n, store.entries), TooLarge)
    else if Holds(config.fold, store.entries, pair.key) then (Store(n, store.entries), Duplicate)
    else (Store(n, store.entries + [pair]), Added)
  }

  /** Adding pairs one after another, up to the first that fails. */
  function PutAll(config: Config, store: Store, pairs: seq<Pair>): (Store, Outcome)
    decreases |pairs|
  {
    if pairs == [] then (store, Added)
    else
      var (next, outcome) := Put(config, store, pairs[0]);
      if outcome.Added? then PutAll(config, next, pairs[1..]) else (next, outcome)
  }

  lemma {:induction false} PutAllPlus(config: Config, store: Store, a: seq<Pair>, b: seq<Pair>)
    ensures PutAll(config, store, a + b)
         == var (next, outcome) := PutAll(config, store, a);
            if outcome.Added? then PutAll(config, next, b) else (next, outcome)
    decreases |a|
  {
    if a == [] {
      assert a + b == b;
    } else {
      assert (a + b)[1..] == a[1..] + b;
      PutAllPlus(config, Put(config, store, a[0]).0, a[1..], b);
    }
  }

  class EntryLimitedDictionary {
    const config: Config
    var innerDictionary: seq<Pair>
    var itemCount: int

    constructor (config: Config)
      ensures this.config == config && State() == Store(0, [])
    {
      this.config, innerDictionary, itemCount := config, [], 0;
    }

    function State(): Store
      reads this
    {
      Store(itemCount, innerDictionary)
    }

    method Add(key: string, value: int) returns (outcome: Outcome)
      modifies this
      ensures (State(), outcome) == Put(config, old(State()), Pair(key, value))
    {
      itemCount := itemCount + 1;
      if itemCount > config.limit {
        return TooLarge;
      }
      if Holds(config.fold, innerDictionary, key) {
        return Duplicate;
      }
      innerDictionary := innerDictionary + [Pair(key, value)];
      return Added;
    }
  }

  /** The recursion: a failed Add ends it everywhere, as the exception does. */
  method AddToBackingStore(backingStore: EntryLimitedDictionary, prefix: string, value: Json)
    returns (outcome: Outcome)
    modifies backingStore
    ensures
      (backingStore.State(), outcome) == PutAll(backingStore.config, old(backingStore.State()), Pairs(prefix, value))
    decreases value
  {
    ghost var config, start := backingStore.config, backingStore.State();
    if value.Leaf? {
      outcome := backingStore.Add(prefix, value.value);
      assert [Pair(prefix, value.value)][1..] == [];
      return;
    }
    for i := 0 to Count(value)
      invariant PutAll(config, backingStore.State(), PairsFrom(prefix, value, i))
             == PutAll(config, start, PairsFrom(prefix, value, 0))
    {
      var key := MakeKey(prefix, StepAt(value, i));
      PutAllPlus(config, backingStore.State(), Pairs(key, ChildAt(value, i)), PairsFrom(prefix, value, i + 1));
      outcome := AddToBackingStore(backingStore, key, ChildAt(value, i));
      if !outcome.Added? {
        return;
      }
    }
    outcome := Added;
  }

  // ---------------------------------------------------------------- success and failure

  predicate DistinctKeys(fold: char -> char, pairs: seq<Pair>) {
    forall i, j :: 0 <= i < j < |pairs| ==> Fold(fold, pairs[i].key) != Fold(fold, pairs[j].key)
  }

  function AtLeastZero(n: int): nat {
    if n < 0 then 0 else n
  }

  /** The state after n additions that all succeeded. */
  function After(pairs: seq<Pair>, n: nat): Store
    requires n <= |pairs|
  {
    Store(n, pairs[..n])
  }

  /** While keys are new and the limit is not reached, every addition succeeds. */
  lemma {:induction false} PutPrefix(config: Config, pairs: seq<Pair>, n: nat)
    requires n <= |pairs| && n <= AtLeastZero(config.limit) && DistinctKeys(config.fold, pairs[..n])
    ensures PutAll(config, Store(0, []), pairs) == PutAll(config, After(pairs, n), pairs[n..])
  {
    if n == 0 {
      assert pairs[..0] == [] && pairs[0..] == pairs;
    } else {
      assert pairs[..n - 1] == pairs[..n][..n - 1];
      PutPrefix(config, pairs, n - 1);
      PutNext(config, pairs, n - 1);
    }
  }

  lemma PutNext(config: Config, pairs: seq<Pair>, n: nat)
    requires n < |pairs| && n < config.limit && DistinctKeys(config.fold, pairs[..n + 1])
    ensures PutAll(config, After(pairs, n), pairs[n..]) == PutAll(config, After(pairs, n + 1), pairs[n + 1..])
  {
    var rest := pairs[n..];
    assert rest[0] == pairs[n] && rest[1..] == pairs[n + 1..] && pairs[..n + 1] == pairs[..n] + [pairs[n]];
    forall i | 0 <= i < |pairs[..n]| ensures Fold(config.fold, pairs[..n][i].key) != Fold(config.fold, pairs[n].key) {
      assert pairs[..n][i] == pairs[..n + 1][i] && pairs[n] == pairs[..n + 1][n];
    }
  }

  /** With distinct keys, adding succeeds exactly within the limit; past it, the first limit pairs are stored. */
  lemma PutAllDistinct(config: Config, pairs: seq<Pair>)
    requires DistinctKeys(config.fold, pairs)
    ensures PutAll(config, Store(0, []), pairs)
         == if |pairs| <= AtLeastZero(config.limit) then (Store(|pairs|, pairs), Added)
            else (Store(AtLeastZero(config.limit) + 1, pairs[..AtLeastZero(config.limit)]), TooLarge)
  {
    var bound := AtLeastZero(config.limit);
    var n := if |pairs| <= bound then |pairs| else bound;
    PutPrefix(config, pairs, n);
    assert pairs[..|pairs|] == pairs && pairs[|pairs|..] == [];
  }

  /** Nothing else succeeds: adding fails as soon as two keys are the same to the comparer. */
  lemma {:induction false} AddedMeansDistinct(config: Config, pairs: seq<Pair>, n: nat)
    requires n <= |pairs| && n <= AtLeastZero(config.limit) && DistinctKeys(config.fold, pairs[..n])
    requires PutAll(config, After(pairs, n), pairs[n..]).1.Added?
    ensures DistinctKeys(config.fold, pairs) && |pairs| <= AtLeastZero(config.limit)
    decreases |pairs| - n
  {
    if n == |pairs| {
      assert pairs[..n] == pairs;
    } else {
      DistinctPlusOne(config, pairs, n);
      PutNext(config, pairs, n);
      AddedMeansDistinct(config, pairs, n + 1);
    }
  }

  lemma DistinctPlusOne(config: Config, pairs: seq<Pair>, n: nat)
    requires n < |pairs| && DistinctKeys(config.fold, pairs[..n])
    requires PutAll(config, After(pairs, n), pairs[n..]).1.Added?
    ensures n < config.limit && DistinctKeys(config.fold, pairs[..n + 1])
  {}

  /** Flattening any pairs succeeds exactly when they fit and no two keys are the same to the comparer. */
  lemma AddedIffDistinct(config: Config, pairs: seq<Pair>)
    ensures PutAll(config, Store(0, []), pairs).1.Added?
       <==> DistinctKeys(config.fold, pairs) && |pairs| <= AtLeastZero(config.limit)
  {
    assert pairs[..0] == [] && pairs[0..] == pairs;
    if DistinctKeys(config.fold, pairs) {
      PutAllDistinct(config, pairs);
    } else if PutAll(config, Store(0, []), pairs).1.Added? {
      AddedMeansDistinct(config, pairs, 0);
    }
  }
}
