/**
 Keys and paths.  When property names are non-empty and free of '.' and '[', a key can be parsed back to its path;
 when siblings also differ in more than case, the flattened dictionary is the document, leaf by leaf.
 */
module JsonPaths {
  import opened JsonFlattener
  import opened Sequences

  // ---------------------------------------------------------------- parsing a key

  /** How far a property name, or the digits of an index, extend. */
  function NameLength(s: string): (n: nat)
    ensures n <= |s|
  {
    if s == [] || s[0] == '.' || s[0] == '[' then 0 else 1 + NameLength(s[1..])
  }

  function DigitsLength(s: string): (n: nat)
    ensures n <= |s| && All(s[..n], IsDigit)
  {
    if s != [] && '0' <= s[0] <= '9' then 1 + DigitsLength(s[1..]) else 0
  }

  /** The steps spelt by a key's rest; what cannot be read ends them. */
  function ParseRest(s: string): Path
    decreases |s|
  {
    if s == [] then []
    else if s[0] == '.' then
      var n := NameLength(s[1..]);
      [Prop(s[1..][..n])] + ParseRest(s[1..][n..])
    else if s[0] == '[' then
      var n := DigitsLength(s[1..]);
      [Index(DigitsValue(s[1..][..n]))] + (if n < |s[1..]| then ParseRest(s[1..][n + 1..]) else [])
    else []
  }

  function ParseKey(s: string): Path {
    if s == [] || s[0] == '[' then ParseRest(s) else ParseRest("." + s)
  }

  // ---------------------------------------------------------------- spelling a path

  predicate GoodName(name: string) {
    name != "" && forall i :: 0 <= i < |name| ==> name[i] != '.' && name[i] != '['
  }

  predicate GoodPath(path: Path) {
    forall i :: 0 <= i < |path| ==> path[i].Prop? ==> GoodName(path[i].name)
  }

  /** The key of a path, as the recursion builds it: step after step. */
  function Key(path: Path): string {
    if path == [] then "" else MakeKey(Key(path[..|path| - 1]), path[|path| - 1])
  }

  function Spell(step: Step): (s: string)
    ensures s != ""
  {
    match step
    case Prop(name) => "." + name
    case Index(i) => "[" + Decimal(i) + "]"
  }

  function SpellAll(path: Path): string {
    if path == [] then "" else Spell(path[0]) + SpellAll(path[1..])
  }

  lemma {:induction false} NumberOfDecimal(n: nat)
    ensures DigitsValue(Decimal(n)) == n
  {
    if n < 10 {
      NumberPlus([], n);
    } else {
      NumberOfDecimal(n / 10);
      NumberPlus(Decimal(n / 10), n % 10);
    }
  }

  /** The digits have no zero in front. */
  lemma {:induction false} DecimalPlain(n: nat)
    ensures Decimal(n)[0] == '0' <==> n == 0
    ensures |Decimal(n)| == 1 <==> n < 10
  {
    if n >= 10 {
      DecimalPlain(n / 10);
      assert Decimal(n)[0] == Decimal(n / 10)[0];
    }
  }

  lemma NumberPlus(digits: string, d: nat)
    requires d < 10 && All(digits, IsDigit)
    ensures DigitsValue(digits + [Digit(d)]) == 10 * DigitsValue(digits) + d
  {}

  lemma {:induction false} DigitsLengthOf(digits: string, rest: string)
    requires All(digits, IsDigit)
    requires rest == [] || !('0' <= rest[0] <= '9')
    ensures DigitsLength(digits + rest) == |digits|
  {
    if digits == [] {
      assert digits + rest == rest;
    } else {
      assert (digits + rest)[1..] == digits[1..] + rest;
      DigitsLengthOf(digits[1..], rest);
    }
  }

  lemma {:induction false} NameLengthOf(name: string, rest: string)
    requires forall i :: 0 <= i < |name| ==> name[i] != '.' && name[i] != '['
    requires rest == [] || rest[0] == '.' || rest[0] == '['
    ensures NameLength(name + rest) == |name|
  {
    if name == [] {
      assert name + rest == rest;
    } else {
      assert (name + rest)[1..] == name[1..] + rest;
      NameLengthOf(name[1..], rest);
    }
  }

  lemma ParseProp(name: string, rest: string)
    requires GoodName(name) && (rest == [] || rest[0] == '.' || rest[0] == '[')
    ensures ParseRest(Spell(Prop(name)) + rest) == [Prop(name)] + ParseRest(rest)
  {
    var s := Spell(Prop(name)) + rest;
    assert s[0] == '.' && s[1..] == name + rest;
    NameLengthOf(name, rest);
    assert (name + rest)[..|name|] == name && (name + rest)[|name|..] == rest;
  }

  lemma ParseIndex(i: nat, rest: string)
    ensures ParseRest(Spell(Index(i)) + rest) == [Index(i)] + ParseRest(rest)
  {
    var s, digits := Spell(Index(i)) + rest, Decimal(i);
    assert s[0] == '[' && s[1..] == digits + ("]" + rest);
    DigitsLengthOf(digits, "]" + rest);
    assert s[1..][..|digits|] == digits && s[1..][|digits| + 1..] == rest;
    NumberOfDecimal(i);
  }

  lemma {:induction false} ParseSpelled(path: Path)
    requires GoodPath(path)
    ensures ParseRest(SpellAll(path)) == path
  {
    if path != [] {
      var first, rest := path[0], path[1..];
      GoodPathSlice(path, 1, |path|);
      ParseSpelled(rest);
      SpelledStart(rest);
      ParseStep(first, SpellAll(rest));
      assert path == [first] + rest;
    }
  }

  lemma SpelledStart(path: Path)
    ensures SpellAll(path) == [] || SpellAll(path)[0] == '.' || SpellAll(path)[0] == '['
  {}

  lemma ParseStep(step: Step, rest: string)
    requires GoodPath([step]) && (rest == [] || rest[0] == '.' || rest[0] == '[')
    ensures ParseRest(Spell(step) + rest) == [step] + ParseRest(rest)
  {
    match step {
      case Prop(name) =>
        assert [step][0].Prop?;
        ParseProp(name, rest);
      case Index(i) => ParseIndex(i, rest);
    }
  }

  lemma {:induction false} SpellAllPlus(path: Path, step: Step)
    ensures SpellAll(path + [step]) == SpellAll(path) + Spell(step)
  {
    if path == [] {
      assert [step][1..] == [];
    } else {
      assert (path + [step])[1..] == path[1..] + [step];
      SpellAllPlus(path[1..], step);
    }
  }

  /** s is a path's key when its first step is, or is not, a property, and the spelt path is spelt. */
  predicate IsKey(s: string, startsWithProp: bool, spelt: string) {
    if startsWithProp then spelt == "." + s else spelt == s
  }

  lemma MakeKeySpells(prefix: string, step: Step)
    requires prefix != ""
    ensures MakeKey(prefix, step) == prefix + Spell(step)
  {
    match step {
      case Prop(name) =>
        PlusAssociates(prefix, ".", name);
      case Index(i) =>
        PlusAssociates(prefix, "[", Decimal(i));
        PlusAssociates(prefix, "[" + Decimal(i), "]");
    }
  }

  lemma KeyNext(prefix: string, isProp: bool, spelt: string, step: Step)
    requires IsKey(prefix, isProp, spelt) && prefix != ""
    ensures IsKey(MakeKey(prefix, step), isProp, spelt + Spell(step))
  {}

  lemma KeyPlus(path: Path, step: Step)
    ensures Key(path + [step]) == MakeKey(Key(path), step)
  {}

  predicate Spelled(path: Path, key: string) {
    IsKey(key, path != [] && path[0].Prop?, SpellAll(path)) && (key == "" <==> path == [])
  }

  lemma SpelledPlus(path: Path, step: Step, key: string)
    requires Spelled(path, key) && (step.Prop? ==> GoodName(step.name))
    ensures Spelled(path + [step], MakeKey(key, step))
  {
    SpellAllPlus(path, step);
    if path == [] {
      KeyOfOne(step);
    } else {
      KeyNext(key, path[0].Prop?, SpellAll(path), step);
      MakeKeySpells(key, step);
    }
  }

  lemma GoodPathSlice(path: Path, i: nat, j: nat)
    requires i <= j <= |path| && GoodPath(path)
    ensures GoodPath(path[i..j])
  {}

  /** A key is its path spelt out, less a leading dot. */
  lemma {:induction false} KeySpelled(path: Path)
    requires GoodPath(path)
    ensures Spelled(path, Key(path))
  {
    if path != [] {
      var front, last := path[..|path| - 1], path[|path| - 1];
      GoodPathSlice(path, 0, |path| - 1);
      KeySpelled(front);
      SpelledPlus(front, last, Key(front));
      KeyPlus(front, last);
      assert path == front + [last];
    }
  }

  lemma KeyOfOne(step: Step)
    requires step.Prop? ==> GoodName(step.name)
    ensures IsKey(MakeKey("", step), step.Prop?, Spell(step)) && MakeKey("", step) != ""
  {}

  /** Round trip: parsing the key of a path returns the path. */
  lemma ParseKeyOfPath(path: Path)
    requires GoodPath(path)
    ensures ParseKey(Key(path)) == path
  {
    KeySpelled(path);
    ParseSpelled(path);
    if path != [] && path[0].Prop? {
      KeyStart(path);
    } else if path != [] {
      assert SpellAll(path)[0] == '[';
    }
  }

  lemma FirstOf(key: string, name: string, rest: string)
    requires "." + key == ("." + name) + rest && name != ""
    ensures key != "" && key[0] == name[0]
  {
    assert |"." + key| >= 2;
    assert key[0] == ("." + key)[1] == ("." + name)[1] == name[0];
  }

  lemma KeyStart(path: Path)
    requires GoodPath(path) && path != [] && path[0].Prop? && Spelled(path, Key(path))
    ensures Key(path) != "" && Key(path)[0] == path[0].name[0]
  {
    FirstOf(Key(path), path[0].name, SpellAll(path[1..]));
  }
}
