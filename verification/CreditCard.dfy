/**
 The credit card rule of jQuery's form validation: the Luhn check of ISO/IEC 7812-1, Annex B, over the digits of a
 value in which dashes are ignored.
 */
module CreditCard {
  import opened Sequences

  type Digit = d: int | 0 <= d < 10

  /** What is left of a value when everything but its digits is removed. */
  function Digits(value: string): (digits: seq<Digit>) {
    if value == "" then [] else DigitsOf(value[0]) + Digits(value[1..])
  }

  function DigitsOf(c: char): seq<Digit> {
    if IsDigit(c) then [DigitValue(c)] else []
  }

  // ---------------------------------------------------------------- the check sum

  /** The sum of the decimal digits of twice d. */
  function Twice(d: Digit): (r: Digit)
    ensures r == 2 * d / 10 + 2 * d % 10
  {
    if 2 * d > 9 then 2 * d - 9 else 2 * d
  }

  /** Every second digit counts twice, starting with the second from the right; right is the distance from there. */
  predicate Doubled(right: nat) {
    if right == 0 then false else !Doubled(right - 1)
  }

  function Contribution(d: Digit, doubled: bool): (r: Digit) {
    if doubled then Twice(d) else d
  }

  function LuhnSum(digits: seq<Digit>): (sum: nat) {
    if digits == [] then 0 else Contribution(digits[0], Doubled(|digits| - 1)) + LuhnSum(digits[1..])
  }

  predicate Valid(digits: seq<Digit>) {
    LuhnSum(digits) % 10 == 0
  }

  datatype Verdict = DependencyMismatch | Verdict(accepted: bool)

  predicate DigitsAndDashes(value: string) {
    forall i :: 0 <= i < |value| ==> IsDigit(value[i]) || value[i] == '-'
  }

  /** The rule; whether an empty field is all right is the form's business. */
  method Check(value: string, optional: bool) returns (verdict: Verdict)
    ensures verdict == if optional then DependencyMismatch
                       else Verdict(DigitsAndDashes(value) && Valid(Digits(value)))
  {
    if optional {
      return DependencyMismatch;
    }
    if !DigitsAndDashes(value) {
      return Verdict(false);
    }
    var digits := Digits(value);
    var nCheck: nat, bEven := 0, false;
    var n := |digits| - 1;
    while n >= 0
      invariant -1 <= n < |digits|
      invariant nCheck == LuhnSum(digits[n + 1..])
      invariant bEven == Doubled(|digits| - 1 - n)
    {
      var nDigit: int := digits[n];
      if bEven {
        nDigit := nDigit * 2;
        if nDigit > 9 {
          nDigit := nDigit - 9;
        }
      }
      SumStep(digits, n);
      nCheck := nCheck + nDigit;
      bEven := !bEven;
      n := n - 1;
    }
    assert digits[0..] == digits;
    return Verdict(nCheck % 10 == 0);
  }

  lemma SumStep(digits: seq<Digit>, n: nat)
    requires n < |digits|
    ensures LuhnSum(digits[n..]) == Contribution(digits[n], Doubled(|digits| - 1 - n)) + LuhnSum(digits[n + 1..])
  {}

  // ---------------------------------------------------------------- what the check detects

  /** The part of the sum that a digit's place and value decide. */
  lemma {:induction false} SumWith(digits: seq<Digit>, i: nat, d: Digit)
    requires i < |digits|
    ensures LuhnSum(digits[i := d])
         == LuhnSum(digits) - Contribution(digits[i], Doubled(|digits| - 1 - i)) + Contribution(d, Doubled(|digits| - 1 - i))
  {
    var changed := digits[i := d];
    if i == 0 {
      assert changed[1..] == digits[1..];
    } else {
      assert changed[1..] == digits[1..][i - 1 := d];
      SumWith(digits[1..], i - 1, d);
    }
  }

  lemma SameResidue(a: int, b: int)
    requires a % 10 == 0 && b % 10 == 0 && -9 <= a - b <= 9
    ensures a == b
  {}

  lemma ContributionInjective(a: Digit, b: Digit, doubled: bool)
    ensures Contribution(a, doubled) == Contribution(b, doubled) <==> a == b
  {}

  /** Changing any one digit of an accepted number makes it rejected. */
  lemma OneDigitDetected(digits: seq<Digit>, i: nat, d: Digit)
    requires i < |digits| && Valid(digits) && d != digits[i]
    ensures !Valid(digits[i := d])
  {
    SumWith(digits, i, d);
    ContributionInjective(digits[i], d, Doubled(|digits| - 1 - i));
    if Valid(digits[i := d]) {
      SameResidue(LuhnSum(digits), LuhnSum(digits[i := d]));
    }
  }

  function Swapped(digits: seq<Digit>, i: nat): seq<Digit>
    requires i + 1 < |digits|
  {
    digits[i := digits[i + 1]][i + 1 := digits[i]]
  }

  /** Swapping adjacent digits of an accepted number goes unnoticed exactly when they are equal, or 0 and 9. */
  lemma SwapDetected(digits: seq<Digit>, i: nat)
    requires i + 1 < |digits| && Valid(digits)
    ensures Valid(Swapped(digits, i))
       <==> digits[i] == digits[i + 1] || {digits[i], digits[i + 1]} == {0, 9}
  {
    var a, b, right := digits[i], digits[i + 1], |digits| - 2 - i;
    SumWith(digits, i, b);
    SumWith(digits[i := b], i + 1, a);
    SwapSum(LuhnSum(digits), LuhnSum(Swapped(digits, i)), a, b, Doubled(right));
    assert {a, b} == {0, 9} <==> (a == 0 && b == 9) || (a == 9 && b == 0) by {
      if {a, b} == {0, 9} {
        assert 0 in {a, b} && 9 in {a, b};
      }
    }
  }

  lemma SwapSum(before: int, after: int, a: Digit, b: Digit, doubled: bool)
    requires before % 10 == 0
    requires after == before - Contribution(a, !doubled) + Contribution(b, !doubled)
                             - Contribution(b, doubled) + Contribution(a, doubled)
    ensures after % 10 == 0 <==> a == b || (a == 0 && b == 9) || (a == 9 && b == 0)
  {
    if after % 10 == 0 {
      SameResidue(before, after);
    }
  }

  /** Every number has exactly one check digit. */
  lemma OneCheckDigit(digits: seq<Digit>)
    ensures exists d: Digit :: Valid(digits + [d])
    ensures forall d: Digit, e: Digit :: Valid(digits + [d]) && Valid(digits + [e]) ==> d == e
  {
    var sum := LuhnSum(digits + [0]);
    forall d: Digit ensures LuhnSum(digits + [d]) == sum + d {
      assert digits + [d] == (digits + [0])[|digits| := d];
      SumWith(digits + [0], |digits|, d);
    }
    var missing := Missing(sum);
    assert Valid(digits + [missing]);
    forall d: Digit, e: Digit | Valid(digits + [d]) && Valid(digits + [e]) ensures d == e {
      SameResidue(sum + d, sum + e);
    }
  }

  function Missing(sum: nat): (d: Digit)
    ensures (sum + d) % 10 == 0
  {
    if sum % 10 == 0 then 0 else 10 - sum % 10
  }

  // ---------------------------------------------------------------- dashes

  lemma {:induction false} DigitsPlus(a: string, b: string)
    ensures Digits(a + b) == Digits(a) + Digits(b)
  {
    if a == "" {
      assert a + b == b;
    } else {
      assert (a + b)[1..] == a[1..] + b && (a + b)[0] == a[0];
      DigitsPlus(a[1..], b);
      PlusAssociates(DigitsOf(a[0]), Digits(a[1..]), Digits(b));
    }
  }

  lemma DigitsOfDash(dash: string)
    requires |dash| == 1 && dash[0] == '-'
    ensures Digits(dash) == [] && DigitsAndDashes(dash)
  {}

  /** A dash anywhere changes nothing. */
  lemma DashesDoNotMatter(a: string, dash: string, b: string)
    requires |dash| == 1 && dash[0] == '-'
    ensures Digits(a + dash + b) == Digits(a + b)
    ensures DigitsAndDashes(a + dash + b) == DigitsAndDashes(a + b)
  {
    DigitsOfDash(dash);
    DigitsPlus(a + dash, b);
    DigitsPlus(a, dash);
    DigitsPlus(a, b);
    assert Digits(a) + [] == Digits(a);
    AllPlus(a + dash, b);
    AllPlus(a, dash);
    AllPlus(a, b);
  }

  lemma AllPlus(a: string, b: string)
    ensures DigitsAndDashes(a + b) <==> DigitsAndDashes(a) && DigitsAndDashes(b)
  {
    assert forall i :: 0 <= i < |a| ==> (a + b)[i] == a[i];
    assert forall i :: 0 <= i < |b| ==> (a + b)[|a| + i] == b[i];
  }

  // ---------------------------------------------------------------- from the right

  lemma {:induction false} DoubledEverySecond(right: nat)
    ensures Doubled(right) <==> right % 2 == 1
  {
    if right > 0 {
      DoubledEverySecond(right - 1);
    }
  }

  lemma {:induction false} SumBeforeTwo(digits: seq<Digit>, a: Digit, b: Digit)
    ensures LuhnSum(digits + [a, b]) == LuhnSum(digits) + LuhnSum([a, b])
  {
    if digits == [] {
      assert digits + [a, b] == [a, b];
    } else {
      assert (digits + [a, b])[1..] == digits[1..] + [a, b];
      SumBeforeTwo(digits[1..], a, b);
    }
  }

  /**
   The last digit counts as it is, the one before it as the digits of its double, and so on with the next two.  A
   number is accepted when the sum is a multiple of ten.
   */
  lemma SumFromTheRight(digits: seq<Digit>, a: Digit, b: Digit)
    ensures LuhnSum([]) == 0 && LuhnSum([b]) == b
    ensures LuhnSum(digits + [a, b]) == LuhnSum(digits) + 2 * a / 10 + 2 * a % 10 + b
    ensures Valid(digits) <==> exists k: nat :: LuhnSum(digits) == k * 10
  {
    SumBeforeTwo(digits, a, b);
    assert [a, b][1..] == [b] && [b][1..] == [];
    if Valid(digits) {
      assert LuhnSum(digits) == LuhnSum(digits) / 10 * 10;
    }
  }

  /** The characters the rule lets through, and the digit that each of the first ten stands for. */
  lemma DigitsByCharacter(value: string, c: char, d: Digit)
    ensures Digits("") == []
    ensures c == "0123456789"[d] ==> Digits(value + [c]) == Digits(value) + [d]
    ensures c !in "0123456789" ==> Digits(value + [c]) == Digits(value)
  {
    DigitsAre(c);
    if c == "0123456789"[d] {
      DigitAt(c, d);
    }
    DigitsPlus(value, [c]);
    assert [c][1..] == "" && Digits([c]) == DigitsOf(c) + Digits("") == DigitsOf(c);
    assert Digits(value) + [] == Digits(value);
  }

  lemma DigitAt(c: char, d: Digit)
    requires c == "0123456789"[d]
    ensures IsDigit(c) && DigitValue(c) == d
  {}

  lemma OnlyDigitsAndDashes(value: string)
    ensures DigitsAndDashes(value) <==> forall i :: 0 <= i < |value| ==> value[i] in "0123456789" || value[i] == '-'
  {
    forall i | 0 <= i < |value| ensures IsDigit(value[i]) <==> value[i] in "0123456789" {
      DigitsAre(value[i]);
    }
  }
}
