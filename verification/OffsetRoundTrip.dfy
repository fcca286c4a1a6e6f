/**
 Printing an offset expression and parsing it back.  An expression is one sum, or two separated by a comma; a sum
 is a list of terms joined by + and -, each term possibly signed itself, with any white space around the joins,
 the comma and the whole.  Parsing the printed expression gives the arithmetic value of each sum.
 */
module OffsetRoundTrip {
  import opened OffsetParser
  import opened Sequences
  import opened Wrappers

  // ---------------------------------------------------------------- expressions, their text and their value

  datatype Sign = Unsigned | Plus | Minus

  datatype Unit = NoUnit | Px | Percent | PercentR | PercentP | Vh | Vw

  /** A decimal numeral: digits, and if there is a point, digits after it. */
  datatype Literal = Literal(whole: string, point: bool, fraction: string)

  datatype Term = Term(sign: Sign, literal: Literal, unit: Unit)

  /** A join and the term after it, with the white space around the operator. */
  datatype Link = Link(before: string, op: char, after: string, term: Term)

  datatype Sum = Sum(first: Term, rest: seq<Link>)

  datatype Expr =
    | One(left: string, x: Sum, right: string)
    | Two(left: string, x: Sum, beforeComma: string, afterComma: string, y: Sum, right: string)
    | Apart(left: string, x: Sum, gap: string, y: Sum, right: string)

  predicate Blank(s: string) {
    All(s, IsSpace)
  }

  predicate ProperTerm(t: Term) {
    var l := t.literal;
    && All(l.whole, IsDigit) && All(l.fraction, IsDigit)
    && (l.whole != [] || l.fraction != [])
    && (!l.point ==> l.fraction == [])
  }

  predicate ProperLinks(rest: seq<Link>) {
    forall l :: l in rest ==> Blank(l.before) && IsSign(l.op) && Blank(l.after) && ProperTerm(l.term)
  }

  predicate ProperSum(s: Sum) {
    ProperTerm(s.first) && ProperLinks(s.rest)
  }

  predicate Proper(e: Expr) {
    match e
    case One(left, x, right) => Blank(left) && ProperSum(x) && Blank(right)
    case Two(left, x, beforeComma, afterComma, y, right) =>
      Blank(left) && ProperSum(x) && Blank(beforeComma) && Blank(afterComma) && ProperSum(y) && Blank(right)
    case Apart(left, x, gap, y, right) =>
      && Blank(left) && ProperSum(x) && Blank(gap) && gap != "" && ProperSum(y) && Blank(right)
      && y.first.sign == Unsigned
  }

  function SignText(sign: Sign): string {
    match sign case Unsigned => "" case Plus => "+" case Minus => "-"
  }

  function UnitText(unit: Unit): string {
    match unit
    case NoUnit => ""
    case Px => "px"
    case Percent => "%"
    case PercentR => "%r"
    case PercentP => "%p"
    case Vh => "vh"
    case Vw => "vw"
  }

  function LiteralText(l: Literal): string {
    l.whole + ((if l.point then "." else "") + l.fraction)
  }

  /** A term without its sign. */
  function Magnitude(t: Term): string {
    LiteralText(t.literal) + UnitText(t.unit)
  }

  function TermText(t: Term): string {
    SignText(t.sign) + Magnitude(t)
  }

  function SumText(first: Term, rest: seq<Link>): string
    decreases |rest|
  {
    if rest == [] then TermText(first)
    else TermText(first) + (rest[0].before + ([rest[0].op] + (rest[0].after + SumText(rest[0].term, rest[1..]))))
  }

  function Print(e: Expr): string {
    match e
    case One(left, x, right) => left + (SumText(x.first, x.rest) + right)
    case Two(left, x, beforeComma, afterComma, y, right) =>
      left + (SumText(x.first, x.rest) + (beforeComma + "," + afterComma + (SumText(y.first, y.rest) + right)))
    case Apart(left, x, gap, y, right) =>
      left + (SumText(x.first, x.rest) + (gap + (SumText(y.first, y.rest) + right)))
  }

  function TenTo(n: nat): nat {
    if n == 0 then 1 else 10 * TenTo(n - 1)
  }

  /** Each digit counts by its place: before the point. */
  function WholeValue(digits: string): nat
    requires All(digits, IsDigit)
  {
    if digits == [] then 0 else DigitValue(digits[0]) * TenTo(|digits| - 1) + WholeValue(digits[1..])
  }

  /** And behind it. */
  function FractionValue(digits: string): real
    requires All(digits, IsDigit)
  {
    if digits == [] then 0.0 else (DigitValue(digits[0]) as real + FractionValue(digits[1..])) / 10.0
  }

  function LiteralValue(l: Literal): real
    requires All(l.whole, IsDigit) && All(l.fraction, IsDigit)
  {
    WholeValue(l.whole) as real + FractionValue(l.fraction)
  }

  function SignedValue(t: Term): real
    requires ProperTerm(t)
  {
    if t.sign == Minus then -LiteralValue(t.literal) else LiteralValue(t.literal)
  }

  function TermValue(t: Term, useHeight: bool, sizes: Sizes): real
    requires ProperTerm(t)
  {
    UnitWorth(t.unit, SignedValue(t), useHeight, sizes)
  }

  /** So many of a unit, in pixels. */
  function UnitWorth(u: Unit, v: real, useHeight: bool, sizes: Sizes): real {
    match u
    case NoUnit => v
    case Px => v
    case Percent => (if useHeight then sizes.reference.height else sizes.reference.width) / 100.0 * v
    case PercentR => (if useHeight then sizes.reference.height else sizes.reference.width) / 100.0 * v
    case PercentP => (if useHeight then sizes.popper.height else sizes.popper.width) / 100.0 * v
    case Vh => sizes.viewport.height / 100.0 * v
    case Vw => sizes.viewport.width / 100.0 * v
  }

  /** A value with n operators and values applied to it, from left to right. */
  function Total(first: real, links: seq<(char, real)>, n: nat): real
    requires n <= |links|
  {
    if n == 0 then first
    else Total(first, links, n - 1) + (if links[n - 1].0 == '-' then -links[n - 1].1 else links[n - 1].1)
  }

  function LinkValues(rest: seq<Link>, useHeight: bool, sizes: Sizes): (links: seq<(char, real)>)
    requires ProperLinks(rest)
    ensures |links| == |rest|
    ensures forall k :: 0 <= k < |rest| ==> links[k] == (rest[k].op, TermValue(rest[k].term, useHeight, sizes))
  {
    seq(|rest|, k requires 0 <= k < |rest| => (rest[k].op, TermValue(rest[k].term, useHeight, sizes)))
  }

  function SumValue(s: Sum, useHeight: bool, sizes: Sizes): real
    requires ProperSum(s)
  {
    Total(TermValue(s.first, useHeight, sizes), LinkValues(s.rest, useHeight, sizes), |s.rest|)
  }

  // ---------------------------------------------------------------- strings

  lemma {:induction false} RunOver(u: string, rest: string, p: char -> bool)
    requires All(u, p) && (rest == [] || !p(rest[0]))
    ensures Run(u + rest, p) == |u|
  {
    if u == [] {
      assert u + rest == rest;
    } else {
      assert (u + rest)[1..] == u[1..] + rest;
      RunOver(u[1..], rest, p);
    }
  }

  lemma {:induction false} TrimLeftPadded(pad: string, core: string)
    requires Blank(pad) && (core == [] || !IsSpace(core[0]))
    ensures TrimLeft(pad + core) == core
  {
    if pad == [] {
      assert pad + core == core;
    } else {
      assert (pad + core)[1..] == pad[1..] + core;
      TrimLeftPadded(pad[1..], core);
    }
  }

  lemma {:induction false} TrimRightPadded(core: string, pad: string)
    requires Blank(pad) && (core == [] || !IsSpace(core[|core| - 1]))
    ensures TrimRight(core + pad) == core
  {
    if pad == [] {
      assert core + pad == core;
    } else {
      var s := core + pad;
      assert s[..|s| - 1] == core + pad[..|pad| - 1];
      TrimRightPadded(core, pad[..|pad| - 1]);
    }
  }

  /** Trimming on the right stops at a solid end. */
  lemma {:induction false} TrimRightBehind(core: string, s: string)
    requires core != [] && !IsSpace(core[|core| - 1])
    ensures TrimRight(core + s) == core + TrimRight(s)
  {
    if s == [] {
      assert core + s == core;
    } else if IsSpace(s[|s| - 1]) {
      var t := core + s;
      assert t[..|t| - 1] == core + s[..|s| - 1];
      TrimRightBehind(core, s[..|s| - 1]);
    }
  }

  /** A string that begins and ends with something solid, or is empty, is left alone. */
  lemma TrimClean(s: string)
    requires s == [] || (!IsSpace(s[0]) && !IsSpace(s[|s| - 1]))
    ensures Trim(s) == s
  {}

  lemma TrimBlank(s: string)
    requires Blank(s)
    ensures Trim(s) == "" && TrimRight(s) == ""
  {
    assert s + "" == s && "" + s == s;
    TrimLeftPadded(s, "");
    TrimRightPadded("", s);
  }

  lemma {:induction false} TrimAllPlus(a: seq<string>, b: seq<string>)
    ensures TrimAll(a + b) == TrimAll(a) + TrimAll(b)
  {
    if a == [] {
      assert a + b == b;
    } else {
      assert (a + b)[1..] == a[1..] + b;
      TrimAllPlus(a[1..], b);
    }
  }

  /** Neither sign nor separator: the characters terms are made of. */
  predicate Solid(c: char) {
    !IsSign(c) && !IsSeparator(c)
  }

  lemma MagnitudeSolid(t: Term)
    requires ProperTerm(t)
    ensures Magnitude(t) != [] && All(Magnitude(t), Solid)
  {}

  lemma BlankHasNoSigns(s: string)
    requires Blank(s)
    ensures forall i :: 0 <= i < |s| ==> !IsSign(s[i])
  {}

  // ---------------------------------------------------------------- splitting

  /** Fragments with text added in front of the first, or behind the last with more fragments to follow. */
  function InFront(u: string, frags: seq<string>): seq<string>
    requires frags != []
  {
    [u + frags[0]] + frags[1..]
  }

  function Behind(frags: seq<string>, u: string, more: seq<string>): seq<string>
    requires frags != []
  {
    frags[..|frags| - 1] + [frags[|frags| - 1] + u] + more
  }

  lemma {:induction false} SplitPlain(u: string, tail: string)
    requires forall i :: 0 <= i < |u| ==> !IsSign(u[i])
    ensures SplitSigns(u + tail) == InFront(u, SplitSigns(tail))
  {
    if u == [] {
      assert u + tail == tail && u + SplitSigns(tail)[0] == SplitSigns(tail)[0];
    } else {
      assert (u + tail)[1..] == u[1..] + tail;
      SplitPlain(u[1..], tail);
      assert [u[0]] + (u[1..] + SplitSigns(tail)[0]) == u + SplitSigns(tail)[0];
    }
  }

  lemma SplitSign(c: char, tail: string)
    requires IsSign(c)
    ensures SplitSigns([c] + tail) == ["", [c]] + SplitSigns(tail)
  {}

  /** The fragments of a term, with what follows it already split. */
  function TermFrags(t: Term, tail: seq<string>): seq<string>
    requires tail != []
  {
    if t.sign == Unsigned then InFront(Magnitude(t), tail)
    else ["", SignText(t.sign)] + InFront(Magnitude(t), tail)
  }

  function SumFrags(first: Term, rest: seq<Link>, tail: seq<string>): (frags: seq<string>)
    requires tail != []
    ensures frags != []
    decreases |rest|
  {
    if rest == [] then TermFrags(first, tail)
    else
      var l := rest[0];
      TermFrags(first, InFront(l.before, ["", [l.op]] + InFront(l.after, SumFrags(l.term, rest[1..], tail))))
  }

  lemma SplitTerm(t: Term, tail: string)
    requires ProperTerm(t)
    ensures SplitSigns(TermText(t) + tail) == TermFrags(t, SplitSigns(tail))
  {
    MagnitudeSolid(t);
    SplitPlain(Magnitude(t), tail);
    if t.sign == Unsigned {
      assert TermText(t) + tail == Magnitude(t) + tail;
    } else {
      var c := if t.sign == Plus then '+' else '-';
      assert SignText(t.sign) == [c];
      assert TermText(t) + tail == [c] + (Magnitude(t) + tail);
      SplitSign(c, Magnitude(t) + tail);
    }
  }

  /** A join and what follows it. */
  lemma SplitJoin(l: Link, inner: string)
    requires Blank(l.before) && IsSign(l.op) && Blank(l.after)
    ensures SplitSigns(l.before + ([l.op] + (l.after + inner)))
         == InFront(l.before, ["", [l.op]] + InFront(l.after, SplitSigns(inner)))
  {
    BlankHasNoSigns(l.after);
    SplitPlain(l.after, inner);
    SplitSign(l.op, l.after + inner);
    BlankHasNoSigns(l.before);
    SplitPlain(l.before, [l.op] + (l.after + inner));
  }

  lemma SumTextPlus(t: string, before: string, op: string, after: string, more: string, tail: string)
    ensures t + (before + (op + (after + more))) + tail == t + (before + (op + (after + (more + tail))))
  {}

  lemma {:induction false} SplitSum(first: Term, rest: seq<Link>, tail: string)
    requires ProperTerm(first) && ProperLinks(rest)
    ensures SplitSigns(SumText(first, rest) + tail) == SumFrags(first, rest, SplitSigns(tail))
    decreases |rest|
  {
    if rest == [] {
      SplitTerm(first, tail);
    } else {
      var l, more := rest[0], SumText(rest[0].term, rest[1..]);
      SplitSum(l.term, rest[1..], tail);
      SplitJoin(l, more + tail);
      SplitTerm(first, l.before + ([l.op] + (l.after + (more + tail))));
      SumTextPlus(TermText(first), l.before, [l.op], l.after, more, tail);
    }
  }

  // ---------------------------------------------------------------- trimming

  /** The fragments of a sum printed without any white space. */
  function CleanTerm(t: Term): seq<string> {
    if t.sign == Unsigned then [Magnitude(t)] else ["", SignText(t.sign), Magnitude(t)]
  }

  function Clean(first: Term, rest: seq<Link>): (frags: seq<string>)
    ensures frags != []
    decreases |rest|
  {
    if rest == [] then CleanTerm(first) else CleanTerm(first) + ([[rest[0].op]] + Clean(rest[0].term, rest[1..]))
  }

  lemma TrimMagnitude(pad: string, t: Term, tail: seq<string>)
    requires Blank(pad) && ProperTerm(t) && tail != []
    ensures TrimAll(InFront(pad, InFront(Magnitude(t), tail)))
         == [Magnitude(t) + TrimRight(tail[0])] + TrimAll(tail[1..])
  {
    MagnitudeSolid(t);
    var m := Magnitude(t);
    TrimRightBehind(m, tail[0]);
    TrimLeftPadded(pad, m + tail[0]);
    var frags := InFront(pad, InFront(m, tail));
    assert frags[0] == pad + (m + tail[0]) && frags[1..] == tail[1..];
  }

  lemma TrimThree(a: string, b: string, more: seq<string>)
    ensures TrimAll([a, b] + more) == [Trim(a), Trim(b)] + TrimAll(more)
  {}

  lemma InFrontEmpty(frags: seq<string>)
    requires frags != []
    ensures InFront("", frags) == frags
  {
    assert "" + frags[0] == frags[0];
  }

  lemma BehindThree(a: string, b: string, c: string, u: string, more: seq<string>)
    ensures Behind([a, b] + [c], u, more) == [a, b] + ([c + u] + more)
  {
    var frags := [a, b] + [c];
    assert frags[..2] == [a, b];
  }

  /** A sign alone, a blank before it: the sign is left, after an empty fragment. */
  lemma TrimSigned(pad: string, sign: string, m: string, u: string, inner: seq<string>, more: seq<string>)
    requires Blank(pad) && Trim(sign) == sign && TrimAll(inner) == [m + u] + more
    ensures TrimAll(InFront(pad, ["", sign] + inner)) == Behind(["", sign] + [m], u, more)
  {
    TrimBlank(pad);
    assert pad + "" == pad && InFront(pad, ["", sign] + inner) == [pad, sign] + inner;
    TrimThree(pad, sign, inner);
    BehindThree("", sign, m, u, more);
  }

  /** Trimming a term's fragments trims what is behind the term, and the blank in front of it. */
  lemma TrimTermFrags(pad: string, t: Term, tail: seq<string>)
    requires Blank(pad) && ProperTerm(t) && tail != []
    ensures TrimAll(InFront(pad, TermFrags(t, tail))) == Behind(CleanTerm(t), TrimRight(tail[0]), TrimAll(tail[1..]))
  {
    if t.sign == Unsigned {
      TrimMagnitude(pad, t, tail);
    } else {
      var sign, inner := SignText(t.sign), InFront(Magnitude(t), tail);
      TrimMagnitude("", t, tail);
      InFrontEmpty(inner);
      TrimClean(sign);
      TrimSigned(pad, sign, Magnitude(t), TrimRight(tail[0]), inner, TrimAll(tail[1..]));
      assert CleanTerm(t) == ["", sign] + [Magnitude(t)];
    }
  }

  lemma BehindSplits(a: seq<string>, op: string, b: seq<string>, u: string, more: seq<string>)
    requires a != [] && b != []
    ensures Behind(a, "", [op] + Behind(b, u, more)) == Behind(a + ([op] + b), u, more)
  {
    assert a[|a| - 1] + "" == a[|a| - 1];
    assert a[..|a| - 1] + [a[|a| - 1]] == a;
    var c := a + ([op] + b);
    assert c[..|c| - 1] == a + ([op] + b[..|b| - 1]);
  }

  /** The fragments from a join on: its blanks are trimmed away, and its operator stands alone. */
  lemma TrimJoin(before: string, op: char, inner: seq<string>)
    requires Blank(before) && IsSign(op)
    ensures var tail := InFront(before, ["", [op]] + inner);
            TrimRight(tail[0]) == "" && TrimAll(tail[1..]) == [[op]] + TrimAll(inner)
  {
    var tail := InFront(before, ["", [op]] + inner);
    assert before + "" == before;
    TrimBlank(before);
    TrimClean([op]);
    assert tail[1..] == [[op]] + inner && tail[1..][1..] == inner;
  }

  lemma {:induction false} TrimSumFrags(pad: string, first: Term, rest: seq<Link>, tail: seq<string>)
    requires Blank(pad) && ProperTerm(first) && ProperLinks(rest) && tail != []
    ensures TrimAll(InFront(pad, SumFrags(first, rest, tail)))
         == Behind(Clean(first, rest), TrimRight(tail[0]), TrimAll(tail[1..]))
    decreases |rest|
  {
    if rest == [] {
      TrimTermFrags(pad, first, tail);
    } else {
      var l := rest[0];
      var inner := InFront(l.after, SumFrags(l.term, rest[1..], tail));
      TrimTermFrags(pad, first, InFront(l.before, ["", [l.op]] + inner));
      TrimJoin(l.before, l.op, inner);
      TrimSumFrags(l.after, l.term, rest[1..], tail);
      BehindSplits(CleanTerm(first), [l.op], Clean(l.term, rest[1..]), TrimRight(tail[0]), TrimAll(tail[1..]));
    }
  }

  // ---------------------------------------------------------------- the lists

  lemma NoSeparator(frag: string)
    requires All(frag, NotSeparator)
    ensures !HasSeparator(frag)
  {
    assert frag + "" == frag;
    RunOver(frag, "", NotSeparator);
  }

  lemma {:induction false} CleanHasNoSeparators(first: Term, rest: seq<Link>)
    requires ProperTerm(first) && ProperLinks(rest)
    ensures forall frag :: frag in Clean(first, rest) ==> !HasSeparator(frag)
    decreases |rest|
  {
    MagnitudeSolid(first);
    NoSeparator(Magnitude(first));
    NoSeparator(SignText(first.sign));
    NoSeparator("");
    if rest != [] {
      NoSeparator([rest[0].op]);
      CleanHasNoSeparators(rest[0].term, rest[1..]);
    }
  }

  lemma {:induction false} CleanEndsSolid(first: Term, rest: seq<Link>)
    requires ProperTerm(first) && ProperLinks(rest)
    ensures var frags := Clean(first, rest); All(frags[|frags| - 1], Solid)
    decreases |rest|
  {
    if rest == [] {
      MagnitudeSolid(first);
    } else {
      CleanEndsSolid(rest[0].term, rest[1..]);
    }
  }

  lemma DividerNone(frags: seq<string>)
    requires forall frag :: frag in frags ==> !HasSeparator(frag)
    ensures Divider(frags).None?
  {}

  lemma {:induction false} DividerAt(a: seq<string>, frag: string, more: seq<string>)
    requires forall f :: f in a ==> !HasSeparator(f)
    requires HasSeparator(frag)
    ensures Divider(a + [frag] + more) == Some(|a|)
  {
    if a == [] {
      assert a + [frag] + more == [frag] + more;
    } else {
      assert (a + [frag] + more)[1..] == a[1..] + [frag] + more;
      DividerAt(a[1..], frag, more);
    }
  }

  lemma SplitBlank(s: string)
    requires Blank(s)
    ensures SplitSigns(s) == [s]
  {
    BlankHasNoSigns(s);
    SplitPlain(s, "");
    assert s + "" == s;
  }

  lemma FragsOfOne(e: Expr)
    requires Proper(e) && e.One?
    ensures TrimAll(SplitSigns(Print(e))) == Clean(e.x.first, e.x.rest)
  {
    var first, rest := e.x.first, e.x.rest;
    BlankHasNoSigns(e.left);
    SplitPlain(e.left, SumText(first, rest) + e.right);
    SplitSum(first, rest, e.right);
    SplitBlank(e.right);
    TrimSumFrags(e.left, first, rest, [e.right]);
    TrimBlank(e.right);
    BehindNothing(Clean(first, rest));
  }

  lemma BehindNothing(frags: seq<string>)
    requires frags != []
    ensures Behind(frags, "", []) == frags
  {
    assert frags[|frags| - 1] + "" == frags[|frags| - 1];
  }

  lemma ListsOfOne(e: Expr)
    requires Proper(e) && e.One?
    ensures Lists(Print(e)) == (Clean(e.x.first, e.x.rest), None)
  {
    FragsOfOne(e);
    CleanHasNoSeparators(e.x.first, e.x.rest);
    DividerNone(Clean(e.x.first, e.x.rest));
  }

  lemma ListsAt(offset: string, front: seq<string>, frag: string, more: seq<string>)
    requires TrimAll(SplitSigns(offset)) == front + [frag] + more
    requires HasSeparator(frag) && forall f :: f in front ==> !HasSeparator(f)
    ensures Lists(offset) == (front + [SplitPair(frag).0], Some([SplitPair(frag).1] + more))
  {
    DividerAt(front, frag, more);
    var frags := front + [frag] + more;
    assert frags[..|front|] == front && frags[|front| + 1..] == more;
  }

  /** The first fragment of a sum: a magnitude with blanks behind it, or nothing before a sign. */
  lemma FirstFrag(first: Term, rest: seq<Link>, right: string) returns (pad: string)
    requires ProperTerm(first) && ProperLinks(rest) && Blank(right)
    ensures Blank(pad) && SumFrags(first, rest, [right])[0] == Clean(first, rest)[0] + pad
    ensures Clean(first, rest)[0] == "" ==> pad == ""
    ensures All(Clean(first, rest)[0], Solid)
  {
    MagnitudeSolid(first);
    if first.sign != Unsigned {
      pad := "";
    } else if rest == [] {
      pad := right;
    } else {
      pad := rest[0].before;
      assert pad + "" == pad;
    }
  }

  /** The fragment with the comma: the end of the first sum, the comma, and the start of the second sum, if solid. */
  function CommaFrag(m: string, beforeComma: string, afterComma: string, c: string): string {
    m + (beforeComma + ("," + (if c == "" then "" else afterComma + c)))
  }

  /** The separator at the start of a text whose comma may have blanks around it. */
  lemma SeparatorTaken(beforeComma: string, afterComma: string, c: string)
    requires Blank(beforeComma) && Blank(afterComma) && All(c, Solid)
    ensures var x := beforeComma + ("," + (afterComma + c));
            SeparatorLength(x) == |x| - |c| && x[|x| - |c|..] == c
  {
    var x := beforeComma + ("," + (afterComma + c));
    RunOver(beforeComma, "," + (afterComma + c), IsSpace);
    assert x[|beforeComma| + 1..] == afterComma + c;
    RunOver(afterComma, c, IsSpace);
  }

  lemma SplitPairAt(m: string, x: string, c: string)
    requires All(m, NotSeparator) && All(c, NotSeparator)
    requires x != [] && IsSeparator(x[0])
    requires |c| <= |x| && SeparatorLength(x) == |x| - |c| && x[|x| - |c|..] == c
    ensures HasSeparator(m + x) && SplitPair(m + x) == (m, c)
  {
    RunOver(m, x, NotSeparator);
    assert (m + x)[|m|..] == x && (m + x)[..|m|] == m;
    assert c + "" == c;
    RunOver(c, "", NotSeparator);
    assert c[..|c|] == c;
  }

  lemma CommaFragSplits(m: string, beforeComma: string, afterComma: string, c: string)
    requires All(m, Solid) && Blank(beforeComma) && Blank(afterComma) && All(c, Solid)
    ensures var frag := CommaFrag(m, beforeComma, afterComma, c);
            HasSeparator(frag) && SplitPair(frag) == (m, c)
  {
    var after := if c == "" then "" else afterComma;
    var x := beforeComma + ("," + (after + c));
    CommaFragText(m, beforeComma, afterComma, c);
    assert x[0] == if beforeComma == [] then ',' else beforeComma[0];
    SeparatorTaken(beforeComma, after, c);
    SplitPairAt(m, x, c);
  }

  lemma CommaFragText(m: string, beforeComma: string, afterComma: string, c: string)
    ensures CommaFrag(m, beforeComma, afterComma, c)
         == m + (beforeComma + ("," + ((if c == "" then "" else afterComma) + c)))
  {}

  lemma TrimComma(beforeComma: string, afterComma: string, c: string, pad: string)
    requires Blank(afterComma) && Blank(pad) && All(c, Solid) && (c == "" ==> pad == "")
    ensures TrimRight(beforeComma + "," + afterComma + (c + pad))
         == beforeComma + ("," + (if c == "" then "" else afterComma + c))
  {
    if c == "" {
      assert beforeComma + "," + afterComma + (c + pad) == (beforeComma + ",") + afterComma;
      TrimRightPadded(beforeComma + ",", afterComma);
      assert "," + "" == ",";
    } else {
      var core := beforeComma + ("," + (afterComma + c));
      assert core[|core| - 1] == c[|c| - 1];
      assert beforeComma + "," + afterComma + (c + pad) == core + pad;
      TrimRightPadded(core, pad);
    }
  }

  /** The trimmed fragments of two sums: those of the first, the one around what separates them, those of the second. */
  lemma FragsAround(left: string, x: Sum, sep: string, y: Sum, right: string) returns (pad: string)
    requires Blank(left) && ProperSum(x) && ProperSum(y) && Blank(right)
    requires forall i :: 0 <= i < |sep| ==> !IsSign(sep[i])
    ensures Blank(pad) && (Clean(y.first, y.rest)[0] == "" ==> pad == "")
    ensures var xs, ys := Clean(x.first, x.rest), Clean(y.first, y.rest);
            TrimAll(SplitSigns(left + (SumText(x.first, x.rest) + (sep + (SumText(y.first, y.rest) + right)))))
            == xs[..|xs| - 1] + [xs[|xs| - 1] + TrimRight(sep + (ys[0] + pad))] + ys[1..]
  {
    var second := SumFrags(y.first, y.rest, [right]);
    var rest := sep + (SumText(y.first, y.rest) + right);
    BlankHasNoSigns(left);
    SplitPlain(left, SumText(x.first, x.rest) + rest);
    SplitSum(x.first, x.rest, rest);
    SplitPlain(sep, SumText(y.first, y.rest) + right);
    SplitSum(y.first, y.rest, right);
    SplitBlank(right);
    TrimSumFrags(left, x.first, x.rest, InFront(sep, second));
    assert InFront(sep, second)[1..] == second[1..];
    TrimSecond(y.first, y.rest, right);
    pad := FirstFrag(y.first, y.rest, right);
  }

  lemma FragsOfTwo(e: Expr)
    requires Proper(e) && e.Two?
    ensures var xs, ys := Clean(e.x.first, e.x.rest), Clean(e.y.first, e.y.rest);
            TrimAll(SplitSigns(Print(e)))
            == xs[..|xs| - 1] + [CommaFrag(xs[|xs| - 1], e.beforeComma, e.afterComma, ys[0])] + ys[1..]
  {
    BlankHasNoSigns(e.beforeComma);
    BlankHasNoSigns(e.afterComma);
    var pad := FragsAround(e.left, e.x, e.beforeComma + "," + e.afterComma, e.y, e.right);
    CleanStartsSolid(e.y.first, e.y.rest);
    TrimComma(e.beforeComma, e.afterComma, Clean(e.y.first, e.y.rest)[0], pad);
  }

  lemma FragsOfApart(e: Expr)
    requires Proper(e) && e.Apart?
    ensures var xs, ys := Clean(e.x.first, e.x.rest), Clean(e.y.first, e.y.rest);
            TrimAll(SplitSigns(Print(e))) == xs[..|xs| - 1] + [xs[|xs| - 1] + (e.gap + ys[0])] + ys[1..]
  {
    BlankHasNoSigns(e.gap);
    var c := Clean(e.y.first, e.y.rest)[0];
    var pad := FragsAround(e.left, e.x, e.gap, e.y, e.right);
    UnsignedStarts(e.y.first, e.y.rest);
    CleanStartsSolid(e.y.first, e.y.rest);
    PlusAssociates(e.gap, c, pad);
    assert (e.gap + c)[|e.gap + c| - 1] == c[|c| - 1];
    TrimRightPadded(e.gap + c, pad);
  }

  lemma UnsignedStarts(first: Term, rest: seq<Link>)
    requires ProperTerm(first) && first.sign == Unsigned
    ensures Clean(first, rest)[0] != ""
  {}

  /** White space alone separates two lists just as well. */
  lemma GapSplits(m: string, gap: string, c: string)
    requires All(m, Solid) && Blank(gap) && gap != "" && All(c, Solid) && c != ""
    ensures HasSeparator(m + (gap + c)) && SplitPair(m + (gap + c)) == (m, c)
  {
    RunOver(gap, c, IsSpace);
    CutBehind(gap, c);
    assert (gap + c)[|gap|] == c[0] && (gap + c)[0] == gap[0];
    SplitPairAt(m, gap + c, c);
  }

  lemma TrimAllTail(frags: seq<string>)
    requires frags != []
    ensures TrimAll(frags)[1..] == TrimAll(frags[1..])
  {}

  /** The fragments of a sum that stands alone. */
  lemma TrimAlone(first: Term, rest: seq<Link>, right: string)
    requires ProperTerm(first) && ProperLinks(rest) && Blank(right)
    ensures TrimAll(SumFrags(first, rest, [right])) == Clean(first, rest)
  {
    InFrontEmpty(SumFrags(first, rest, [right]));
    TrimSumFrags("", first, rest, [right]);
    TrimBlank(right);
    BehindNothing(Clean(first, rest));
  }

  lemma TrimSecond(first: Term, rest: seq<Link>, right: string)
    requires ProperTerm(first) && ProperLinks(rest) && Blank(right)
    ensures TrimAll(SumFrags(first, rest, [right])[1..]) == Clean(first, rest)[1..]
  {
    TrimAlone(first, rest, right);
    TrimAllTail(SumFrags(first, rest, [right]));
  }

  lemma ListsOfTwo(e: Expr)
    requires Proper(e) && e.Two?
    ensures Lists(Print(e)) == (Clean(e.x.first, e.x.rest), Some(Clean(e.y.first, e.y.rest)))
  {
    var xs, ys := Clean(e.x.first, e.x.rest), Clean(e.y.first, e.y.rest);
    var m := xs[|xs| - 1];
    CleanHasNoSeparators(e.x.first, e.x.rest);
    CleanEndsSolid(e.x.first, e.x.rest);
    CleanStartsSolid(e.y.first, e.y.rest);
    FragsOfTwo(e);
    CommaFragSplits(m, e.beforeComma, e.afterComma, ys[0]);
    ListsOfClean(Print(e), xs, ys, CommaFrag(m, e.beforeComma, e.afterComma, ys[0]));
  }

  lemma ListsOfApart(e: Expr)
    requires Proper(e) && e.Apart?
    ensures Lists(Print(e)) == (Clean(e.x.first, e.x.rest), Some(Clean(e.y.first, e.y.rest)))
  {
    var xs, ys := Clean(e.x.first, e.x.rest), Clean(e.y.first, e.y.rest);
    var m := xs[|xs| - 1];
    CleanHasNoSeparators(e.x.first, e.x.rest);
    CleanEndsSolid(e.x.first, e.x.rest);
    CleanStartsSolid(e.y.first, e.y.rest);
    FragsOfApart(e);
    UnsignedStarts(e.y.first, e.y.rest);
    GapSplits(m, e.gap, ys[0]);
    ListsOfClean(Print(e), xs, ys, m + (e.gap + ys[0]));
  }

  lemma CleanStartsSolid(first: Term, rest: seq<Link>)
    requires ProperTerm(first)
    ensures All(Clean(first, rest)[0], Solid)
  {
    MagnitudeSolid(first);
  }

  lemma ListsOfClean(offset: string, xs: seq<string>, ys: seq<string>, frag: string)
    requires xs != [] && ys != [] && forall f :: f in xs ==> !HasSeparator(f)
    requires HasSeparator(frag) && SplitPair(frag) == (xs[|xs| - 1], ys[0])
    requires TrimAll(SplitSigns(offset)) == xs[..|xs| - 1] + [frag] + ys[1..]
    ensures Lists(offset) == (xs, Some(ys))
  {
    ListsAt(offset, xs[..|xs| - 1], frag, ys[1..]);
    LastOnto(xs);
    FirstOnto(ys);
  }

  lemma LastOnto(frags: seq<string>)
    requires frags != []
    ensures frags[..|frags| - 1] + [frags[|frags| - 1]] == frags
  {}

  lemma FirstOnto(frags: seq<string>)
    requires frags != []
    ensures [frags[0]] + frags[1..] == frags
  {}

  // ---------------------------------------------------------------- signs go back to their terms

  /** A sum's terms, signs included, and operators in turn. */
  function Tokens(first: Term, rest: seq<Link>): (tokens: seq<string>)
    ensures |tokens| == 2 * |rest| + 1
    decreases |rest|
  {
    if rest == [] then [TermText(first)]
    else [TermText(first), [rest[0].op]] + Tokens(rest[0].term, rest[1..])
  }

  lemma AggregateTerm(a: seq<string>, t: Term, more: seq<string>)
    requires ProperTerm(t) && (a == [] || a[|a| - 1] != "")
    ensures Aggregated(a, false, CleanTerm(t) + more) == Aggregated(a + [TermText(t)], false, more)
  {
    var m := Magnitude(t);
    MagnitudeSolid(t);
    var op := CleanTerm(t) + more;
    if t.sign == Unsigned {
      assert TermText(t) == m && op[1..] == more;
    } else {
      var sign := SignText(t.sign);
      assert op[1..] == [sign, m] + more && op[1..][1..] == [m] + more && ([m] + more)[1..] == more;
      assert Aggregated(a, false, op) == Aggregated(a + [""], false, [sign, m] + more);
      assert (a + [""])[|a| := sign] == a + [sign];
      assert Aggregated(a + [""], false, [sign, m] + more) == Aggregated(a + [sign], true, [m] + more);
      assert (a + [sign])[|a| := sign + m] == a + [sign + m];
    }
  }

  lemma AggregateOperator(a: seq<string>, op: string, more: seq<string>)
    requires a != [] && a[|a| - 1] != ""
    ensures Aggregated(a, false, [op] + more) == Aggregated(a + [op], false, more)
  {}

  lemma {:induction false} AggregateClean(a: seq<string>, first: Term, rest: seq<Link>)
    requires ProperTerm(first) && ProperLinks(rest) && (a == [] || a[|a| - 1] != "")
    ensures Aggregated(a, false, Clean(first, rest)) == a + Tokens(first, rest)
    decreases |rest|
  {
    if rest == [] {
      AggregateTerm(a, first, []);
      assert CleanTerm(first) + [] == CleanTerm(first);
    } else {
      var op := [rest[0].op];
      AggregateStep(a, first, op, Clean(rest[0].term, rest[1..]));
      AggregateClean(a + [TermText(first), op], rest[0].term, rest[1..]);
      PlusAssociates(a, [TermText(first), op], Tokens(rest[0].term, rest[1..]));
    }
  }

  lemma AggregateStep(a: seq<string>, t: Term, op: string, more: seq<string>)
    requires ProperTerm(t) && (a == [] || a[|a| - 1] != "")
    ensures Aggregated(a, false, CleanTerm(t) + ([op] + more)) == Aggregated(a + [TermText(t), op], false, more)
  {
    AggregateTerm(a, t, [op] + more);
    MagnitudeSolid(t);
    AggregateOperator(a + [TermText(t)], op, more);
    assert a + [TermText(t)] + [op] == a + [TermText(t), op];
  }

  // ---------------------------------------------------------------- what a token is worth

  lemma CutBehind(u: string, rest: string)
    ensures (u + rest)[..|u|] == u && (u + rest)[|u|..] == rest
  {}

  lemma ScanFraction(l: Literal, unit: Unit)
    requires All(l.fraction, IsDigit)
    ensures var s := l.fraction + UnitText(unit);
            s[..Run(s, IsDigit)] == l.fraction && UpToLineEnd(s[Run(s, IsDigit)..]) == UnitText(unit)
  {
    var u := UnitText(unit);
    RunOver(l.fraction, u, IsDigit);
    CutBehind(l.fraction, u);
    assert u + "" == u;
    RunOver(u, "", NotLineEnd);
  }

  /** A numeral cut into its digits, its point and what is behind. */
  lemma ScanParts(whole: string, point: bool, after: string)
    requires All(whole, IsDigit)
    requires !point ==> after == "" || !(IsDigit(after[0]) || after[0] == '.')
    ensures
      var s := whole + ((if point then "." else "") + after);
      var fraction := Run(after, IsDigit);
      ScanNumeral(s) == Scan("", whole, point, after[..fraction], UpToLineEnd(after[fraction..]))
  {
    var rest := (if point then "." else "") + after;
    RunOver(whole, rest, IsDigit);
    CutBehind(whole, rest);
    if point {
      assert rest[1..] == after;
    } else {
      assert rest == after;
    }
  }

  lemma ScanMagnitude(t: Term)
    requires ProperTerm(t)
    ensures ScanNumeral(Magnitude(t))
         == Scan("", t.literal.whole, t.literal.point, t.literal.fraction, UnitText(t.unit))
  {
    var l, point := t.literal, if t.literal.point then "." else "";
    ScanParts(l.whole, l.point, l.fraction + UnitText(t.unit));
    ScanFraction(l, t.unit);
    PlusAssociates(l.whole, point + l.fraction, UnitText(t.unit));
    PlusAssociates(point, l.fraction, UnitText(t.unit));
  }

  lemma ScanTerm(t: Term)
    requires ProperTerm(t)
    ensures Scanned(TermText(t)) == ScanOf(t)
  {
    ScanMagnitude(t);
    MagnitudeSolid(t);
    if t.sign == Unsigned {
      assert TermText(t) == Magnitude(t);
    } else {
      assert TermText(t)[1..] == Magnitude(t) && TermText(t)[..1] == SignText(t.sign);
    }
  }

  function ScanOf(t: Term): Scan {
    Scan(SignText(t.sign), t.literal.whole, t.literal.point, t.literal.fraction, UnitText(t.unit))
  }

  /** The digits read from the left, by place, are the digits read to the right, ten times over. */
  lemma {:induction false} WholePlus(digits: string, c: char)
    requires All(digits, IsDigit) && IsDigit(c)
    ensures All(digits + [c], IsDigit) && WholeValue(digits + [c]) == 10 * WholeValue(digits) + DigitValue(c)
  {
    if digits == [] {
      assert [c][1..] == [];
    } else {
      assert (digits + [c])[1..] == digits[1..] + [c];
      WholePlus(digits[1..], c);
      OnePlaceUp(DigitValue(digits[0]), |digits|);
    }
  }

  lemma OnePlaceUp(d: nat, n: nat)
    requires n > 0
    ensures d * TenTo(n) == 10 * (d * TenTo(n - 1))
  {}

  lemma {:induction false} WholeIsDigits(digits: string)
    requires All(digits, IsDigit)
    ensures WholeValue(digits) == DigitsValue(digits)
  {
    if digits != [] {
      var front, last := digits[..|digits| - 1], digits[|digits| - 1];
      WholeIsDigits(front);
      WholePlus(front, last);
      assert digits == front + [last];
    }
  }

  lemma {:induction false} TenToIsPow10(n: nat)
    ensures TenTo(n) as real == Pow10(n)
  {
    if n > 0 {
      TenToIsPow10(n - 1);
    }
  }

  lemma Tenth(d: real, v: real, p: real)
    requires p > 0.0
    ensures (d * p + v) / (10.0 * p) == (d + v / p) / 10.0
  {
    var q := v / p;
    assert v == q * p;
    assert (d + q) * p == d * p + v;
    Cancels(d + q, p);
  }

  lemma Cancels(a: real, p: real)
    requires p > 0.0
    ensures (a * p) / (10.0 * p) == a / 10.0
  {
    var r := a / 10.0;
    assert a * p == r * (10.0 * p);
    Quotient(a * p, r, 10.0 * p);
  }

  lemma Quotient(a: real, r: real, b: real)
    requires b != 0.0 && a == r * b
    ensures a / b == r
  {}

  lemma {:induction false} TimesReal(a: nat, b: nat)
    ensures (a * b) as real == a as real * b as real
  {
    if a > 0 {
      TimesReal(a - 1, b);
      assert a * b == (a - 1) * b + b;
    }
  }

  lemma OneMorePlace(d: nat, ten: nat, v: nat, total: nat, p: real)
    requires p > 0.0 && ten as real == p && total == d * ten + v
    ensures total as real / (10.0 * p) == (d as real + v as real / p) / 10.0
  {
    TimesReal(d, ten);
    assert total as real == d as real * p + v as real;
    Tenth(d as real, v as real, p);
  }

  lemma {:induction false} FractionIsDigits(digits: string)
    requires All(digits, IsDigit)
    ensures FractionValue(digits) == DigitsValue(digits) as real / Pow10(|digits|)
  {
    if digits != [] {
      var rest := digits[1..];
      FractionIsDigits(rest);
      WholeIsDigits(digits);
      WholeIsDigits(rest);
      TenToIsPow10(|rest|);
      OneMorePlace(DigitValue(digits[0]), TenTo(|rest|), DigitsValue(rest), DigitsValue(digits), Pow10(|rest|));
    }
  }

  lemma LiteralIsDigits(l: Literal)
    requires All(l.whole, IsDigit) && All(l.fraction, IsDigit)
    ensures
      LiteralValue(l) == DigitsValue(l.whole) as real + DigitsValue(l.fraction) as real / Pow10(|l.fraction|)
  {
    WholeIsDigits(l.whole);
    FractionIsDigits(l.fraction);
  }

  lemma ZeroTerm(t: Term, useHeight: bool, sizes: Sizes)
    requires ProperTerm(t) && SignedValue(t) == 0.0
    ensures TermValue(t, useHeight, sizes) == 0.0
  {}

  lemma NumberOfTerm(t: Term)
    requires ProperTerm(t)
    ensures NumberOf(ScanOf(t)) == Some(SignedValue(t))
  {
    LiteralIsDigits(t.literal);
  }

  lemma ItemOfTerm(t: Term, useHeight: bool, sizes: Sizes)
    requires ProperTerm(t)
    ensures NumberOf(ScanOf(t)) == Some(SignedValue(t))
    ensures ItemOf(TermText(t), ScanOf(t), useHeight, sizes)
         == if SignedValue(t) == 0.0 then Text(TermText(t)) else Number(TermValue(t, useHeight, sizes))
  {
    NumberOfTerm(t);
    ItemOfUnit(TermText(t), ScanOf(t), t.unit, SignedValue(t), useHeight, sizes);
  }

  lemma ItemOfUnit(text: string, scan: Scan, u: Unit, v: real, useHeight: bool, sizes: Sizes)
    requires All(scan.whole, IsDigit) && All(scan.fraction, IsDigit)
    requires NumberOf(scan) == Some(v) && scan.unit == UnitText(u)
    ensures ItemOf(text, scan, useHeight, sizes)
         == if v == 0.0 then Text(text) else Number(UnitWorth(u, v, useHeight, sizes))
  {}

  lemma SecondOfMagnitude(t: Term)
    requires ProperTerm(t) && |Magnitude(t)| > 1 && Magnitude(t)[0] == '0'
    ensures Radix(Magnitude(t)[1]) == 0
  {
    var l, u := t.literal, UnitText(t.unit);
    var rest := (if l.point then "." else "") + l.fraction;
    assert Magnitude(t) == (l.whole + rest) + u;
    if |l.whole| > 1 {
      assert Magnitude(t)[1] == l.whole[1] && IsDigit(l.whole[1]);
    } else if rest != "" {
      assert |l.whole| == 1 && Magnitude(t)[1] == rest[0];
    } else {
      assert l.whole + rest == l.whole && Magnitude(t)[1] == u[0];
    }
  }

  /** A printed term is no numeral with a radix. */
  lemma NoRadix(t: Term)
    requires ProperTerm(t)
    ensures !HasRadix(TermText(t))
  {
    if t.sign == Unsigned {
      assert TermText(t) == Magnitude(t);
      if |Magnitude(t)| > 2 && Magnitude(t)[0] == '0' {
        SecondOfMagnitude(t);
        assert RadixDigit(TermText(t)[2]) >= Radix(TermText(t)[1]);
      }
    } else {
      assert TermText(t)[0] == SignText(t.sign)[0];
    }
  }

  lemma ZeroText(t: Term, useHeight: bool, sizes: Sizes)
    requires ProperTerm(t) && SignedValue(t) == 0.0
    ensures Worth(Text(TermText(t))) == 0.0
  {
    MagnitudeSolid(t);
    TrimClean(TermText(t));
    ScanTerm(t);
    NoRadix(t);
    ItemOfTerm(t, useHeight, sizes);
  }

  /** A term's token is worth the term's value; a zero is left a string, which is worth 0 or not numeric. */
  lemma TermToken(t: Term, useHeight: bool, sizes: Sizes)
    requires ProperTerm(t)
    ensures Worth(ToValue(TermText(t), useHeight, sizes)) == TermValue(t, useHeight, sizes)
  {
    ScanTerm(t);
    ItemOfTerm(t, useHeight, sizes);
    if SignedValue(t) == 0.0 {
      ZeroTerm(t, useHeight, sizes);
      ZeroText(t, useHeight, sizes);
    }
  }

  /** An operator stays a string that is not numeric. */
  lemma OperatorToken(op: char, useHeight: bool, sizes: Sizes)
    requires IsSign(op)
    ensures ToValue([op], useHeight, sizes) == Text([op]) && Worth(Text([op])) == 0.0
  {
    TrimClean([op]);
    assert [op][1..] == [] && [op][..1] == [op];
  }

  /** The weights of a sum's tokens: terms and operators in turn. */
  predicate WeightsOf(weights: seq<(bool, real)>, first: real, links: seq<(char, real)>) {
    && |weights| == 2 * |links| + 1
    && weights[0].1 == first
    && forall k :: 0 <= k < |links| ==>
         weights[2 * k + 1] == (links[k].0 == '-', 0.0) && weights[2 * k + 2].1 == links[k].1
  }

  lemma {:induction false} SumOfWeights(weights: seq<(bool, real)>, first: real, links: seq<(char, real)>, n: nat)
    requires WeightsOf(weights, first, links) && n <= |links|
    ensures SumUpTo(weights, 2 * n + 1) == Total(first, links, n)
  {
    if n == 0 {
      assert SumUpTo(weights, 0) == 0.0;
    } else {
      SumOfWeights(weights, first, links, n - 1);
      var link := links[n - 1];
      assert weights[2 * (n - 1) + 1] == (link.0 == '-', 0.0) && weights[2 * (n - 1) + 2].1 == link.1;
      assert SumUpTo(weights, 2 * n) == SumUpTo(weights, 2 * n - 1);
    }
  }

  lemma {:induction false} TokensAt(first: Term, rest: seq<Link>, k: nat)
    requires k < |rest|
    ensures Tokens(first, rest)[2 * k + 1] == [rest[k].op]
    ensures Tokens(first, rest)[2 * k + 2] == TermText(rest[k].term)
    decreases k
  {
    if k > 0 {
      TokensAt(rest[0].term, rest[1..], k - 1);
    }
  }

  function ItemsOf(s: Sum, useHeight: bool, sizes: Sizes): (items: seq<Item>)
    ensures |items| == 2 * |s.rest| + 1
  {
    ToValues(Tokens(s.first, s.rest), useHeight, sizes)
  }

  lemma FirstWeight(s: Sum, useHeight: bool, sizes: Sizes)
    requires ProperSum(s)
    ensures Weights(ItemsOf(s, useHeight, sizes))[0].1 == TermValue(s.first, useHeight, sizes)
  {
    TermToken(s.first, useHeight, sizes);
    WeightAt(ItemsOf(s, useHeight, sizes), 0);
  }

  lemma OperatorWeight(s: Sum, useHeight: bool, sizes: Sizes, k: nat)
    requires ProperSum(s) && k < |s.rest|
    ensures Weights(ItemsOf(s, useHeight, sizes))[2 * k + 1] == (s.rest[k].op == '-', 0.0)
  {
    TokensAt(s.first, s.rest, k);
    OperatorToken(s.rest[k].op, useHeight, sizes);
    WeightAt(ItemsOf(s, useHeight, sizes), 2 * k + 1);
  }

  lemma TermWeight(s: Sum, useHeight: bool, sizes: Sizes, k: nat)
    requires ProperSum(s) && k < |s.rest|
    ensures Weights(ItemsOf(s, useHeight, sizes))[2 * k + 2].1 == TermValue(s.rest[k].term, useHeight, sizes)
  {
    TokensAt(s.first, s.rest, k);
    TermToken(s.rest[k].term, useHeight, sizes);
    WeightAt(ItemsOf(s, useHeight, sizes), 2 * k + 2);
  }

  lemma WeightsOfTokens(s: Sum, useHeight: bool, sizes: Sizes)
    requires ProperSum(s)
    ensures WeightsOf(Weights(ItemsOf(s, useHeight, sizes)), TermValue(s.first, useHeight, sizes),
                      LinkValues(s.rest, useHeight, sizes))
  {
    var weights, links := Weights(ItemsOf(s, useHeight, sizes)), LinkValues(s.rest, useHeight, sizes);
    FirstWeight(s, useHeight, sizes);
    forall k | 0 <= k < |links|
      ensures weights[2 * k + 1] == (links[k].0 == '-', 0.0)
      ensures weights[2 * k + 2].1 == links[k].1
    {
      OperatorWeight(s, useHeight, sizes, k);
      TermWeight(s, useHeight, sizes, k);
    }
  }

  lemma AggregatedClean(s: Sum)
    requires ProperSum(s)
    ensures Aggregated([], false, Clean(s.first, s.rest)) == Tokens(s.first, s.rest)
  {
    AggregateClean([], s.first, s.rest);
    assert [] + Tokens(s.first, s.rest) == Tokens(s.first, s.rest);
  }

  lemma SumOfAll(weights: seq<(bool, real)>, first: real, links: seq<(char, real)>)
    requires WeightsOf(weights, first, links)
    ensures SumUpTo(weights, |weights|) == Total(first, links, |links|)
  {
    SumOfWeights(weights, first, links, |links|);
  }

  lemma SumOfItems(items: seq<Item>, first: real, links: seq<(char, real)>)
    requires WeightsOf(Weights(items), first, links)
    ensures SumUpToEnd(items) == Total(first, links, |links|)
  {
    SumOfAll(Weights(items), first, links);
  }

  lemma ListValueOfClean(s: Sum, useHeight: bool, sizes: Sizes)
    requires ProperSum(s)
    ensures ListValue(Clean(s.first, s.rest), useHeight, sizes) == SumValue(s, useHeight, sizes)
  {
    AggregatedClean(s);
    var items := ItemsOf(s, useHeight, sizes);
    WeightsOfTokens(s, useHeight, sizes);
    SumOfItems(items, TermValue(s.first, useHeight, sizes), LinkValues(s.rest, useHeight, sizes));
  }

  /**
   Parsing a printed expression returns the arithmetic value of each sum.  The first is measured along the height
   for a popper placed at the left or right and along the width otherwise, the second the other way round; a
   missing second sum counts 0.
   */
  lemma ParsedPrint(e: Expr, sizes: Sizes, basePlacement: string)
    requires Proper(e)
    ensures var useHeight := basePlacement == "right" || basePlacement == "left";
            Parsed(Print(e), sizes, basePlacement) ==
            (SumValue(e.x, useHeight, sizes), if e.One? then 0.0 else SumValue(e.y, !useHeight, sizes))
  {
    var useHeight := basePlacement == "right" || basePlacement == "left";
    ListValueOfClean(e.x, useHeight, sizes);
    if e.One? {
      ListsOfOne(e);
    } else {
      if e.Two? {
        ListsOfTwo(e);
      } else {
        ListsOfApart(e);
      }
      ListValueOfClean(e.y, !useHeight, sizes);
    }
  }

  // ---------------------------------------------------------------- numerals with a radix

  const RADIX_DIGITS := "0123456789abcdef"

  function Times(n: nat, radix: nat): (q: nat)
    requires 0 < radix
    ensures n > 0 && radix > 1 ==> q < n
  {
    if n < radix then 0 else 1 + Times(n - radix, radix)
  }

  function Remainder(n: nat, radix: nat): (m: nat)
    requires 0 < radix
    ensures m < radix
  {
    if n < radix then n else Remainder(n - radix, radix)
  }

  lemma {:induction false} TimesAndRemainder(n: nat, radix: nat)
    requires 0 < radix
    ensures n == radix * Times(n, radix) + Remainder(n, radix)
  {
    if n >= radix {
      TimesAndRemainder(n - radix, radix);
      assert radix * (1 + Times(n - radix, radix)) == radix + radix * Times(n - radix, radix);
    }
  }

  /** The digits of n in a radix, lower case. */
  function RadixText(n: nat, radix: nat): (s: string)
    requires 2 <= radix <= 16
    ensures s != ""
  {
    if n < radix then [RADIX_DIGITS[n]]
    else RadixText(Times(n, radix), radix) + [RADIX_DIGITS[Remainder(n, radix)]]
  }

  lemma RadixDigitIs(d: nat, digits: string)
    requires d < 16 && digits == RADIX_DIGITS
    ensures RadixDigit(digits[d]) == d
  {}

  predicate InRadix(digits: string, radix: nat) {
    forall i :: 0 <= i < |digits| ==> RadixDigit(digits[i]) < radix
  }

  lemma RadixPlus(digits: string, c: char, radix: nat)
    requires InRadix(digits, radix) && RadixDigit(c) < radix
    ensures RadixValue(digits + [c], radix) == radix * RadixValue(digits, radix) + RadixDigit(c)
    ensures InRadix(digits + [c], radix)
  {
    assert (digits + [c])[..|digits|] == digits;
  }

  lemma {:induction false} RadixRoundTrip(n: nat, radix: nat)
    requires 2 <= radix <= 16
    ensures RadixValue(RadixText(n, radix), radix) == n && InRadix(RadixText(n, radix), radix)
  {
    if n < radix {
      RadixNext("", n, radix, RADIX_DIGITS);
      assert "" + [RADIX_DIGITS[n]] == [RADIX_DIGITS[n]];
    } else {
      RadixRoundTrip(Times(n, radix), radix);
      RadixNext(RadixText(Times(n, radix), radix), Remainder(n, radix), radix, RADIX_DIGITS);
      TimesAndRemainder(n, radix);
    }
  }

  lemma RadixNext(text: string, m: nat, radix: nat, digits: string)
    requires m < radix <= 16 && InRadix(text, radix) && digits == RADIX_DIGITS
    ensures InRadix(text + [digits[m]], radix)
    ensures RadixValue(text + [digits[m]], radix) == radix * RadixValue(text, radix) + m
  {
    RadixDigitIs(m, digits);
    RadixPlus(text, digits[m], radix);
  }

  /** A hexadecimal, octal or binary numeral is worth the number it stands for. */
  lemma RadixWorth(n: nat, prefix: char, radix: nat)
    requires (prefix in "xX" && radix == 16) || (prefix in "oO" && radix == 8) || (prefix in "bB" && radix == 2)
    ensures Worth(Text(['0', prefix] + RadixText(n, radix))) == n as real
  {
    var digits := RadixText(n, radix);
    RadixPrefixIs(prefix, radix);
    RadixRoundTrip(n, radix);
    RadixDigitsSolid(digits, radix);
    RadixNumber(['0', prefix] + digits, prefix, digits, radix);
  }

  lemma RadixPrefixIs(prefix: char, radix: nat)
    requires (prefix in "xX" && radix == 16) || (prefix in "oO" && radix == 8) || (prefix in "bB" && radix == 2)
    ensures Radix(prefix) == radix
  {}

  lemma RadixNumber(s: string, prefix: char, digits: string, radix: nat)
    requires s == ['0', prefix] + digits && Radix(prefix) == radix && InRadix(digits, radix)
    requires digits != "" && !IsSpace(digits[|digits| - 1])
    ensures TextNumber(s) == Some(RadixValue(digits, radix) as real)
  {
    assert s[|s| - 1] == digits[|digits| - 1] && s[0] == '0';
    TrimClean(s);
    assert s[2..] == digits;
    assert forall i :: 2 <= i < |s| ==> s[i] == digits[i - 2];
  }

  lemma RadixDigitsSolid(digits: string, radix: nat)
    requires radix <= 16 && digits != "" && InRadix(digits, radix)
    ensures !IsSpace(digits[|digits| - 1])
  {
    assert RadixDigit(digits[|digits| - 1]) < 16;
  }

  // ---------------------------------------------------------------- which measures count

  /** The measures a list is taken by. */
  predicate SameAlong(a: Sizes, b: Sizes, useHeight: bool) {
    && a.viewport == b.viewport
    && if useHeight then a.reference.height == b.reference.height && a.popper.height == b.popper.height
       else a.reference.width == b.reference.width && a.popper.width == b.popper.width
  }

  lemma SameTerm(t: Term, useHeight: bool, a: Sizes, b: Sizes)
    requires ProperTerm(t) && SameAlong(a, b, useHeight)
    ensures TermValue(t, useHeight, a) == TermValue(t, useHeight, b)
  {}

  lemma SameSum(s: Sum, useHeight: bool, a: Sizes, b: Sizes)
    requires ProperSum(s) && SameAlong(a, b, useHeight)
    ensures SumValue(s, useHeight, a) == SumValue(s, useHeight, b)
  {
    SameTerm(s.first, useHeight, a, b);
    forall k | 0 <= k < |s.rest|
      ensures LinkValues(s.rest, useHeight, a)[k] == LinkValues(s.rest, useHeight, b)[k]
    {
      SameTerm(s.rest[k].term, useHeight, a, b);
    }
    assert LinkValues(s.rest, useHeight, a) == LinkValues(s.rest, useHeight, b);
  }

  /**
   For a popper at the left or right, x depends on heights and y on widths alone, besides the viewport; for any other it
   is the other way round.
   */
  lemma AxesMatter(e: Expr, a: Sizes, b: Sizes, basePlacement: string)
    requires Proper(e)
    ensures
      var sideways := basePlacement == "left" || basePlacement == "right";
      && (SameAlong(a, b, sideways) ==> Parsed(Print(e), a, basePlacement).0 == Parsed(Print(e), b, basePlacement).0)
      && (SameAlong(a, b, !sideways) ==> Parsed(Print(e), a, basePlacement).1 == Parsed(Print(e), b, basePlacement).1)
  {
    var sideways := basePlacement == "left" || basePlacement == "right";
    ParsedPrint(e, a, basePlacement);
    ParsedPrint(e, b, basePlacement);
    if SameAlong(a, b, sideways) {
      SameSum(e.x, sideways, a, b);
    }
    if SameAlong(a, b, !sideways) && !e.One? {
      SameSum(e.y, !sideways, a, b);
    }
  }

  // ---------------------------------------------------------------- white space

  /** The white space that trimming takes off is that of ECMAScript, by code unit. */
  lemma SpacesByCode(c: char)
    ensures IsSpace(c) <==>
      c as int in {
        0x9, 0xA, 0xB, 0xC, 0xD, 0x20, 0xA0, 0x1680, 0x2000, 0x2001, 0x2002, 0x2003, 0x2004, 0x2005, 0x2006, 0x2007,
        0x2008, 0x2009, 0x200A, 0x2028, 0x2029, 0x202F, 0x205F, 0x3000, 0xFEFF}
  {}
}
