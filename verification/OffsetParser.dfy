/**
 Popper's offset expressions, such as "10 + -5%p, 3vh": how the string is cut into fragments, how signs are
 told from operators, how a fragment becomes pixels, and how each list is summed up.
 */
module OffsetParser {
  import opened Sequences
  import opened Wrappers

  // ---------------------------------------------------------------- characters

  predicate IsSign(c: char) {
    c == '+' || c == '-'
  }

  /** White space as the regular expression \s and String.trim know it. */
  predicate IsSpace(c: char) {
    || c == ' ' || '\t' <= c <= '\r' || c == '\U{A0}' || c == '\U{FEFF}'
    || c == '\U{1680}' || '\U{2000}' <= c <= '\U{200A}' || c == '\U{2028}' || c == '\U{2029}' || c == '\U{202F}'
    || c == '\U{205F}' || c == '\U{3000}'
  }

  predicate IsSeparator(c: char) {
    c == ',' || IsSpace(c)
  }

  /** The complements, by name. */
  predicate NotSeparator(c: char) {
    !IsSeparator(c)
  }

  predicate NotLineEnd(c: char) {
    c != '\n' && c != '\r' && c != '\U{2028}' && c != '\U{2029}'
  }

  // ---------------------------------------------------------------- cutting the string

  /** offset.split(/(\+|\-)/): the text between signs, with the signs themselves in between. */
  function SplitSigns(s: string): (frags: seq<string>)
    ensures |frags| > 0
  {
    if s == [] then [[]]
    else
      var rest := SplitSigns(s[1..]);
      if IsSign(s[0]) then [[], [s[0]]] + rest else [[s[0]] + rest[0]] + rest[1..]
  }

  function TrimLeft(s: string): string {
    if s != [] && IsSpace(s[0]) then TrimLeft(s[1..]) else s
  }

  function TrimRight(s: string): string {
    if s != [] && IsSpace(s[|s| - 1]) then TrimRight(s[..|s| - 1]) else s
  }

  function Trim(s: string): string {
    TrimRight(TrimLeft(s))
  }

  function TrimAll(frags: seq<string>): (trimmed: seq<string>)
    ensures |trimmed| == |frags|
  {
    if frags == [] then [] else [Trim(frags[0])] + TrimAll(frags[1..])
  }

  /** The index of the first character that ends a run of characters satisfying the predicate. */
  function Run(s: string, p: char -> bool): (n: nat)
    ensures n <= |s|
  {
    if s != [] && p(s[0]) then 1 + Run(s[1..], p) else 0
  }

  predicate HasSeparator(frag: string) {
    Run(frag, NotSeparator) < |frag|
  }

  /** The first fragment with a comma or white space in it. */
  function Divider(frags: seq<string>): (d: Option<nat>)
    ensures d.Some? ==> d.value < |frags| && HasSeparator(frags[d.value])
  {
    if frags == [] then None
    else if HasSeparator(frags[0]) then Some(0)
    else
      var d := Divider(frags[1..]);
      if d.Some? then Some(d.value + 1) else None
  }

  /** One match of /\s*,\s*|\s+/ at the start of s: how much it takes. */
  function SeparatorLength(s: string): (n: nat)
    ensures n <= |s|
  {
    var spaces := Run(s, IsSpace);
    if spaces < |s| && s[spaces] == ',' then spaces + 1 + Run(s[spaces + 1..], IsSpace) else spaces
  }

  /** The first two elements of the fragment split at that expression. */
  function SplitPair(frag: string): (string, string)
    requires HasSeparator(frag)
  {
    var first := Run(frag, NotSeparator);
    var rest := frag[first..][SeparatorLength(frag[first..])..];
    (frag[..first], rest[..Run(rest, NotSeparator)])
  }

  /** The fragments of the x list and, after a divider, of the y list. */
  function Lists(offset: string): (seq<string>, Option<seq<string>>) {
    var frags := TrimAll(SplitSigns(offset));
    var divider := Divider(frags);
    if divider.None? then (frags, None)
    else
      var d := divider.value;
      var (last, first) := SplitPair(frags[d]);
      (frags[..d] + [last], Some([first] + frags[d + 1..]))
  }

  // ---------------------------------------------------------------- signs that are not operators

  predicate IsOperator(frag: string) {
    frag == "+" || frag == "-"
  }

  /** The fold that gives a sign after an empty fragment to the fragment that follows it. */
  function Aggregated(a: seq<string>, mergeWithPrevious: bool, op: seq<string>): seq<string>
    decreases op
  {
    if op == [] then a
    else if a != [] && a[|a| - 1] == "" && IsOperator(op[0]) then Aggregated(a[|a| - 1 := op[0]], true, op[1..])
    else if a != [] && mergeWithPrevious then Aggregated(a[|a| - 1 := a[|a| - 1] + op[0]], false, op[1..])
    else Aggregated(a + [op[0]], mergeWithPrevious, op[1..])
  }

  method Aggregate(op: seq<string>) returns (a: seq<string>)
    ensures a == Aggregated([], false, op)
  {
    a := [];
    var mergeWithPrevious := false;
    for i := 0 to |op|
      invariant Aggregated(a, mergeWithPrevious, op[i..]) == Aggregated([], false, op)
    {
      var b := op[i];
      assert op[i..][0] == b && op[i..][1..] == op[i + 1..];
      if a != [] && a[|a| - 1] == "" && IsOperator(b) {
        a := a[|a| - 1 := b];
        mergeWithPrevious := true;
      } else if a != [] && mergeWithPrevious {
        a := a[|a| - 1 := a[|a| - 1] + b];
        mergeWithPrevious := false;
      } else {
        a := a + [b];
      }
    }
    assert op[|op|..] == [];
  }

  // ---------------------------------------------------------------- a fragment in pixels

  function Pow10(n: nat): (p: real)
    ensures p > 0.0
  {
    if n == 0 then 1.0 else 10.0 * Pow10(n - 1)
  }

  lemma {:induction false} RunAll(s: string, p: char -> bool)
    ensures All(s[..Run(s, p)], p)
    ensures Run(s, p) < |s| ==> !p(s[Run(s, p)])
  {
    if s != [] && p(s[0]) {
      RunAll(s[1..], p);
      assert s[..Run(s, p)] == [s[0]] + s[1..][..Run(s[1..], p)];
    }
  }

  /** What the expression ((?:\-|\+)?\d*\.?\d*)(.*) captures, with the number taken apart. */
  datatype Scan = Scan(sign: string, whole: string, point: bool, fraction: string, unit: string)

  function Scanned(s: string): (r: Scan)
    ensures All(r.whole, IsDigit) && All(r.fraction, IsDigit)
  {
    if s != [] && IsSign(s[0]) then ScanNumeral(s[1..]).(sign := s[..1]) else ScanNumeral(s)
  }

  function ScanNumeral(s: string): (r: Scan)
    ensures All(r.whole, IsDigit) && All(r.fraction, IsDigit)
  {
    var whole := Run(s, IsDigit);
    var rest := s[whole..];
    var point := rest != [] && rest[0] == '.';
    var after := if point then rest[1..] else rest;
    var fraction := Run(after, IsDigit);
    RunAll(s, IsDigit);
    RunAll(after, IsDigit);
    Scan("", s[..whole], point, after[..fraction], UpToLineEnd(after[fraction..]))
  }

  function UpToLineEnd(s: string): string {
    s[..Run(s, NotLineEnd)]
  }

  /** The numeral's value; None is NaN, and no numeral at all is 0. */
  function NumberOf(scan: Scan): Option<real>
    requires All(scan.whole, IsDigit) && All(scan.fraction, IsDigit)
  {
    if scan.whole == [] && scan.fraction == [] then
      if scan.sign == [] && !scan.point then Some(0.0) else None
    else
      var magnitude := DigitsValue(scan.whole) as real
                     + DigitsValue(scan.fraction) as real / Pow10(|scan.fraction|);
      Some(if scan.sign == "-" then -magnitude else magnitude)
  }

  datatype Size = Size(width: real, height: real)

  /** Everything measured: the popper, the reference element and the viewport. */
  datatype Sizes = Sizes(popper: Size, reference: Size, viewport: Size)

  function Along(size: Size, useHeight: bool): real {
    if useHeight then size.height else size.width
  }

  /** A fragment after conversion: a number, or the string itself. */
  datatype Item = Number(value: real) | Text(text: string)

  function ToValue(str: string, useHeight: bool, sizes: Sizes): Item {
    ItemOf(str, Scanned(str), useHeight, sizes)
  }

  function ItemOf(str: string, scan: Scan, useHeight: bool, sizes: Sizes): Item
    requires All(scan.whole, IsDigit) && All(scan.fraction, IsDigit)
  {
    var value := NumberOf(scan);
    if value.None? || value.value == 0.0 then Text(str)
    else if scan.unit != [] && scan.unit[0] == '%' then
      var element := if scan.unit == "%p" then sizes.popper else sizes.reference;
      Number(Along(element, useHeight) / 100.0 * value.value)
    else if scan.unit == "vh" then Number(sizes.viewport.height / 100.0 * value.value)
    else if scan.unit == "vw" then Number(sizes.viewport.width / 100.0 * value.value)
    else Number(value.value)
  }

  function Radix(prefix: char): (r: nat)
    ensures r == 0 || 2 <= r <= 16
  {
    if prefix == 'x' || prefix == 'X' then 16
    else if prefix == 'b' || prefix == 'B' then 2
    else if prefix == 'o' || prefix == 'O' then 8
    else 0
  }

  function RadixDigit(c: char): nat {
    if IsDigit(c) then DigitValue(c)
    else if 'a' <= c <= 'f' then 10 + (c as int - 'a' as int)
    else if 'A' <= c <= 'F' then 10 + (c as int - 'A' as int)
    else 16
  }

  /** Hexadecimal, binary and octal numerals, such as "0x1F". */
  predicate HasRadix(s: string) {
    |s| > 2 && s[0] == '0' && forall i :: 2 <= i < |s| ==> RadixDigit(s[i]) < Radix(s[1])
  }

  function RadixValue(digits: string, radix: nat): nat {
    if digits == [] then 0 else radix * RadixValue(digits[..|digits| - 1], radix) + RadixDigit(digits[|digits| - 1])
  }

  /**
   The number a string stands for as a whole.  (A string is left only where its leading numeral is 0 or missing, so one
   with an exponent is worth 0 and need not be told from one that is not numeric.)
   */
  function TextNumber(s: string): Option<real> {
    var text := Trim(s);
    var scan := Scanned(text);
    if HasRadix(text) then Some(RadixValue(text[2..], Radix(text[1])) as real)
    else if scan.unit == [] && (scan.whole != [] || scan.fraction != []) then NumberOf(scan)
    else None
  }

  /** What an item adds: nothing unless it is numeric. */
  function Worth(item: Item): real {
    match item
    case Number(value) => value
    case Text(text) => if TextNumber(text).Some? then TextNumber(text).value else 0.0
  }

  // ---------------------------------------------------------------- summing up

  function ToValues(op: seq<string>, useHeight: bool, sizes: Sizes): (items: seq<Item>)
    ensures |items| == |op|
    ensures forall i :: 0 <= i < |op| ==> items[i] == ToValue(op[i], useHeight, sizes)
  {
    seq(|op|, i requires 0 <= i < |op| => ToValue(op[i], useHeight, sizes))
  }

  /** For each item, whether it is a minus, and what it is worth. */
  function Weights(items: seq<Item>): (weights: seq<(bool, real)>)
    ensures |weights| == |items|
  {
    if items == [] then []
    else
      var last := items[|items| - 1];
      Weights(items[..|items| - 1]) + [(last == Text("-"), Worth(last))]
  }

  lemma {:induction false} WeightAt(items: seq<Item>, i: nat)
    requires i < |items|
    ensures Weights(items)[i] == (items[i] == Text("-"), Worth(items[i]))
  {
    if i < |items| - 1 {
      WeightAt(items[..|items| - 1], i);
    }
  }

  /** The worth of the items before k, each counted negatively if the item before it is a minus. */
  function SumUpTo(weights: seq<(bool, real)>, k: nat): real
    requires k <= |weights|
  {
    if k == 0 then 0.0
    else SumUpTo(weights, k - 1) + (if k > 1 && weights[k - 2].0 then -weights[k - 1].1 else weights[k - 1].1)
  }

  function ListValue(frags: seq<string>, useHeight: bool, sizes: Sizes): real {
    SumUpToEnd(ToValues(Aggregated([], false, frags), useHeight, sizes))
  }

  function SumUpToEnd(items: seq<Item>): real {
    SumUpTo(Weights(items), |items|)
  }

  /** The x list is measured along the height for a popper at the left or right, and the y list the other way. */
  function Parsed(offset: string, sizes: Sizes, basePlacement: string): (real, real) {
    var useHeight := basePlacement == "right" || basePlacement == "left";
    var (xs, ys) := Lists(offset);
    (ListValue(xs, useHeight, sizes), if ys.Some? then ListValue(ys.value, !useHeight, sizes) else 0.0)
  }

  method SumItems(items: seq<Item>) returns (sum: real)
    ensures sum == SumUpToEnd(items)
  {
    ghost var weights := Weights(items);
    sum := 0.0;
    for k := 0 to |items|
      invariant sum == SumUpTo(weights, k)
    {
      var frag := items[k];
      WeightAt(items, k);
      if k > 0 {
        WeightAt(items, k - 1);
      }
      if frag.Number? || TextNumber(frag.text).Some? {
        sum := sum + Worth(frag) * (if k > 0 && items[k - 1] == Text("-") then -1.0 else 1.0);
      }
    }
  }

  method Evaluate(frags: seq<string>, useHeight: bool, sizes: Sizes) returns (sum: real)
    ensures sum == ListValue(frags, useHeight, sizes)
  {
    var op := Aggregate(frags);
    sum := SumItems(ToValues(op, useHeight, sizes));
  }

  method ParseOffset(offset: string, sizes: Sizes, basePlacement: string) returns (x: real, y: real)
    ensures (x, y) == Parsed(offset, sizes, basePlacement)
  {
    x, y := 0.0, 0.0;
    var useHeight := basePlacement == "right" || basePlacement == "left";
    var (xs, ys) := Lists(offset);
    x := Evaluate(xs, useHeight, sizes);
    if ys.Some? {
      y := Evaluate(ys.value, !useHeight, sizes);
    }
  }
}
