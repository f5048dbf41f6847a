/** Rearranging the digits of a number, and the closed forms of two series; the random draws of the generators
    are the arguments. */
module Digits {
  import opened Sorting

  // ----- Numbers and their digits

  predicate AreDigits(s: seq<int>) {
    forall i :: 0 <= i < |s| ==> 0 <= s[i] <= 9
  }

  function Pow10(n: nat): (p: nat)
    ensures p > 0
  {
    if n == 0 then 1 else 10 * Pow10(n - 1)
  }

  /** int() of a string of digits. */
  function Value(s: seq<int>): int {
    if s == [] then 0 else 10 * Value(s[..|s| - 1]) + s[|s| - 1]
  }

  /** str() of a number, digit by digit. */
  function DigitsOf(n: nat): (s: seq<int>)
    ensures AreDigits(s) && s != []
  {
    if n < 10 then [n] else DigitsOf(n / 10) + [n % 10]
  }

  /** The digits read back as the number, and do not begin with a zero unless the number is zero. */
  lemma {:induction false} ReadBack(n: nat)
    ensures Value(DigitsOf(n)) == n
    ensures n > 0 ==> DigitsOf(n)[0] != 0
    ensures n == 0 ==> DigitsOf(n) == [0]
  {
    if n >= 10 {
      var s := DigitsOf(n);
      assert s[..|s| - 1] == DigitsOf(n / 10);
      ReadBack(n / 10);
    } else {
      assert DigitsOf(n)[..0] == [];
    }
  }

  function Reversed(s: seq<int>): (r: seq<int>)
    ensures |r| == |s| && multiset(r) == multiset(s)
    ensures forall i :: 0 <= i < |s| ==> r[i] == s[|s| - 1 - i]
  {
    if s == [] then []
    else
      assert s == s[..|s| - 1] + [s[|s| - 1]];
      [s[|s| - 1]] + Reversed(s[..|s| - 1])
  }

  /** The two numbers the generator forms, and their difference. */
  function Rearranged(num: nat): (int, int, int) {
    var digits := Sorted(DigitsOf(num));
    var smallest := Value(digits);
    var largest := Value(Reversed(digits));
    (smallest, largest, largest - smallest)
  }

  function ReverseDifference(num: nat): int {
    var reversed := Value(Reversed(DigitsOf(num)));
    if num >= reversed then num - reversed else reversed - num
  }

  // ----- The first digit decides

  lemma {:induction false} FirstDigitFirst(s: seq<int>)
    requires s != []
    ensures Value(s) == s[0] * Pow10(|s| - 1) + Value(s[1..])
  {
    if |s| == 1 {
      assert s[..0] == [] && s[1..] == [];
    } else {
      var front := s[..|s| - 1];
      FirstDigitFirst(front);
      assert front[1..] == s[1..][..|s| - 2];
      assert s[1..][|s| - 2] == s[|s| - 1];
      assert s[0] * Pow10(|s| - 1) == 10 * (s[0] * Pow10(|s| - 2));
    }
  }

  lemma {:induction false} ValueBounds(s: seq<int>)
    requires AreDigits(s)
    ensures 0 <= Value(s) < Pow10(|s|)
  {
    if s != [] {
      ValueBounds(s[..|s| - 1]);
    }
  }

  lemma SmallerFirstDigit(s: seq<int>, t: seq<int>)
    requires AreDigits(s) && AreDigits(t) && s != [] && |s| == |t| && s[0] < t[0]
    ensures Value(s) < Value(t)
  {
    var p := Pow10(|s| - 1);
    FirstDigitFirst(s);
    FirstDigitFirst(t);
    ValueBounds(s[1..]);
    ValueBounds(t[1..]);
    Scaled(s[0], t[0], p);
  }

  lemma Scaled(x: int, y: int, p: int)
    requires x < y && p > 0
    ensures x * p + p <= y * p
  {
    var q := y - x - 1;
    assert q * p >= 0;
    assert y * p == (x + 1 + q) * p == x * p + p + q * p;
  }

  lemma SameFirstDigit(s: seq<int>, t: seq<int>)
    requires s != [] && |s| == |t| && s[0] == t[0]
    ensures Value(s) - Value(t) == Value(s[1..]) - Value(t[1..])
    ensures multiset(s) == multiset(t) ==> multiset(s[1..]) == multiset(t[1..])
  {
    FirstDigitFirst(s);
    FirstDigitFirst(t);
    WithoutFirst(s);
    WithoutFirst(t);
  }

  /** Among all arrangements of the same digits the ascending one has the smallest value. */
  lemma {:induction false} AscendingIsSmallest(s: seq<int>, t: seq<int>)
    requires AreDigits(s) && AreDigits(t) && Ordered(s) && multiset(s) == multiset(t)
    ensures Value(s) <= Value(t)
    decreases |s|
  {
    assert |multiset(s)| == |multiset(t)|;
    if s != [] {
      hide Value, Pow10;
      assert t[0] in multiset(s);
      if s[0] < t[0] {
        SmallerFirstDigit(s, t);
      } else {
        SameFirstDigit(s, t);
        AscendingIsSmallest(s[1..], t[1..]);
      }
    }
  }

  predicate Descending(s: seq<int>) {
    forall i, j :: 0 <= i < j < |s| ==> s[i] >= s[j]
  }

  /** Among all arrangements of the same digits the descending one has the largest value. */
  lemma {:induction false} DescendingIsLargest(s: seq<int>, t: seq<int>)
    requires AreDigits(s) && AreDigits(t) && Descending(s) && multiset(s) == multiset(t)
    ensures Value(t) <= Value(s)
    decreases |s|
  {
    assert |multiset(s)| == |multiset(t)|;
    if s != [] {
      hide Value, Pow10;
      assert t[0] in multiset(s);
      if t[0] < s[0] {
        SmallerFirstDigit(t, s);
      } else {
        SameFirstDigit(s, t);
        DescendingIsLargest(s[1..], t[1..]);
      }
    }
  }

  // ----- What rearranging keeps

  function DigitSum(s: seq<int>): int {
    if s == [] then 0 else s[0] + DigitSum(s[1..])
  }

  lemma {:induction false} SumOfConcatenation(s: seq<int>, t: seq<int>)
    ensures DigitSum(s + t) == DigitSum(s) + DigitSum(t)
  {
    if s == [] {
      assert s + t == t;
    } else {
      assert (s + t)[1..] == s[1..] + t;
      SumOfConcatenation(s[1..], t);
    }
  }

  lemma SumWithoutOne(t: seq<int>, k: nat)
    requires k < |t|
    ensures DigitSum(t) == DigitSum(t[..k] + t[k + 1..]) + t[k]
  {
    var tail := [t[k]] + t[k + 1..];
    assert t == t[..k] + tail && tail[1..] == t[k + 1..];
    SumOfConcatenation(t[..k], tail);
    SumOfConcatenation(t[..k], t[k + 1..]);
  }

  lemma {:induction false} SumIgnoresOrder(s: seq<int>, t: seq<int>)
    requires multiset(s) == multiset(t)
    ensures DigitSum(s) == DigitSum(t)
    decreases |s|
  {
    if s == [] {
      assert |multiset(t)| == 0;
      assert t == [];
    } else {
      assert s[0] in multiset(t);
      var k :| 0 <= k < |t| && t[k] == s[0];
      WithoutFirst(s);
      WithoutOne(t, k);
      SumWithoutOne(t, k);
      SumIgnoresOrder(s[1..], t[..k] + t[k + 1..]);
    }
  }

  /** A number exceeds the sum of its digits by a multiple of nine. */
  lemma {:induction false} CastingOutNines(s: seq<int>) returns (q: int)
    ensures Value(s) == DigitSum(s) + 9 * q
  {
    if s == [] {
      q := 0;
    } else {
      var front, last := s[..|s| - 1], s[|s| - 1];
      var r := CastingOutNines(front);
      assert s == front + [last];
      SumOfConcatenation(front, [last]);
      assert DigitSum([last]) == last;
      q := Value(front) + r;
    }
  }

  lemma ArrangementsDifferByNines(s: seq<int>, t: seq<int>)
    requires multiset(s) == multiset(t)
    ensures (Value(s) - Value(t)) % 9 == 0
  {
    hide Value, DigitSum;
    var q := CastingOutNines(s);
    var r := CastingOutNines(t);
    SumIgnoresOrder(s, t);
    assert Value(s) - Value(t) == 9 * (q - r);
  }

  /** Of all arrangements of the digits of `num`, leading zeros included, one of the two numbers is the smallest
      and the other the largest, both of them arrangements themselves; their difference is a non-negative multiple of
      nine. */
  lemma RearrangedIsExtreme(num: nat, other: seq<int>)
    requires multiset(other) == multiset(DigitsOf(num))
    ensures
      var (smallest, largest, difference) := Rearranged(num);
      && smallest <= Value(other) <= largest
      && smallest <= num <= largest && IsArrangement(num, smallest) && IsArrangement(num, largest)
      && difference == largest - smallest >= 0 && difference % 9 == 0
  {
    hide Value, IsArrangement;
    ReadBack(num);
    SortedArranges(num);
    SortedIsExtreme(DigitsOf(num), other);
    SortedIsExtreme(DigitsOf(num), DigitsOf(num));
    hide DigitsOf, Reversed, Sorted;
  }

  lemma SortedArranges(num: nat)
    ensures
      var (smallest, largest, difference) := Rearranged(num);
      && IsArrangement(num, smallest) && IsArrangement(num, largest)
      && difference == largest - smallest && difference % 9 == 0
  {
    hide Value, DigitsOf, Reversed, Sorted;
    var digits := Sorted(DigitsOf(num));
    assert Arranges(num, digits) && Arranges(num, Reversed(digits));
    BothWaysDifferByNines(digits);
    hide Arranges;
  }

  lemma BothWaysDifferByNines(digits: seq<int>)
    ensures (Value(Reversed(digits)) - Value(digits)) % 9 == 0
  {
    hide Value, Reversed;
    ArrangementsDifferByNines(Reversed(digits), digits);
  }

  predicate Arranges(num: nat, digits: seq<int>) {
    multiset(digits) == multiset(DigitsOf(num))
  }

  /** Some arrangement of the digits of `num` has the value `v`. */
  ghost predicate IsArrangement(num: nat, v: int) {
    exists digits :: Arranges(num, digits) && Value(digits) == v
  }

  lemma SortedIsExtreme(given: seq<int>, other: seq<int>)
    requires AreDigits(given) && multiset(other) == multiset(given)
    ensures Value(Sorted(given)) <= Value(other) <= Value(Reversed(Sorted(given)))
  {
    hide Value;
    var digits, descending := Sorted(given), Reversed(Sorted(given));
    SameDigits(given, digits);
    SameDigits(given, descending);
    SameDigits(given, other);
    AscendingIsSmallest(digits, other);
    DescendingIsLargest(descending, other);
  }

  lemma SameDigits(s: seq<int>, t: seq<int>)
    requires AreDigits(s) && multiset(s) == multiset(t)
    ensures AreDigits(t)
  {
    forall i | 0 <= i < |t| ensures 0 <= t[i] <= 9 {
      assert t[i] in multiset(s);
    }
  }

  /** `v` is the smallest value of an arrangement of `digits` that does not begin with a zero. */
  ghost predicate IsSmallestProper(digits: seq<int>, v: int) {
    && (exists q :: IsProper(digits, q) && Value(q) == v)
    && forall q :: IsProper(digits, q) ==> v <= Value(q)
  }

  predicate IsProper(digits: seq<int>, q: seq<int>) {
    multiset(q) == multiset(digits) && q != [] && q[0] != 0
  }

  lemma ZerosComeFirst(given: seq<int>)
    requires AreDigits(given) && 0 in given
    ensures Sorted(given)[0] == 0
  {
    var digits := Sorted(given);
    SameDigits(given, digits);
    assert 0 in multiset(given);
    assert 0 in multiset(digits);
    var k :| 0 <= k < |digits| && digits[k] == 0;
  }

  /** The text of the exercise asks for the smallest number without a leading zero. The code puts zeros first, so its
      smallest number is the one asked for if and only if no digit is zero. */
  lemma SmallestIsProperIff(num: nat)
    ensures IsSmallestProper(DigitsOf(num), Rearranged(num).0) <==> 0 !in DigitsOf(num)
  {
    hide IsSmallestProper, Value;
    if 0 in DigitsOf(num) {
      ZeroIsNotProper(DigitsOf(num));
    } else {
      NoZeroIsProper(DigitsOf(num));
    }
  }

  lemma ZeroIsNotProper(given: seq<int>)
    requires AreDigits(given) && 0 in given
    ensures !IsSmallestProper(given, Value(Sorted(given)))
  {
    var digits := Sorted(given);
    SameDigits(given, digits);
    ZerosComeFirst(given);
    hide Value;
    forall q | IsProper(given, q) ensures Value(q) != Value(digits) {
      assert |multiset(q)| == |multiset(given)|;
      SameDigits(given, q);
      SmallerFirstDigit(digits, q);
    }
  }

  lemma NoZeroIsProper(given: seq<int>)
    requires AreDigits(given) && 0 !in given && given != []
    ensures IsSmallestProper(given, Value(Sorted(given)))
  {
    var digits := Sorted(given);
    assert digits[0] in multiset(digits);
    assert digits[0] in multiset(given);
    hide Value;
    assert IsProper(given, digits);
    forall q | IsProper(given, q) ensures Value(digits) <= Value(q) {
      SortedIsExtreme(given, q);
    }
  }

  function Backwards(s: seq<int>): seq<int> {
    seq(|s|, i requires 0 <= i < |s| => s[|s| - 1 - i])
  }

  /** The distance between a number and the value of its digits read backwards, which is a multiple of nine. */
  lemma ReverseDifferenceByNines(num: nat)
    ensures
      var reversed := Value(Backwards(DigitsOf(num)));
      && ReverseDifference(num) == (if reversed < num then num - reversed else reversed - num)
      && ReverseDifference(num) % 9 == 0
  {
    hide Value, Reversed, DigitsOf;
    var digits := DigitsOf(num);
    assert Reversed(digits) == Backwards(digits);
    hide Backwards;
    ReadBack(num);
    ArrangementsDifferByNines(digits, Reversed(digits));
    ArrangementsDifferByNines(Reversed(digits), digits);
  }

  // ----- Series

  /** a, a + d, ..., a + (n - 1) d, added up. */
  function ArithmeticSum(a: int, d: int, n: nat): int {
    if n == 0 then 0 else ArithmeticSum(a, d, n - 1) + a + (n - 1) * d
  }

  function ArithmeticTotal(a: int, d: int, n: nat): int {
    n * (a + (a + (n - 1) * d)) / 2
  }

  lemma {:induction false} TwiceArithmeticSum(a: int, d: int, n: nat)
    ensures 2 * ArithmeticSum(a, d, n) == n * (a + (a + (n - 1) * d))
  {
    if n > 0 {
      TwiceArithmeticSum(a, d, n - 1);
      calc {
        2 * ArithmeticSum(a, d, n);
        (n - 1) * (a + (a + (n - 2) * d)) + 2 * a + 2 * (n - 1) * d;
        n * (a + (a + (n - 1) * d));
      }
    }
  }

  /** The closed form is the sum of the terms, and the halving loses nothing. */
  lemma ArithmeticTotalIsSum(a: int, d: int, n: nat)
    ensures ArithmeticTotal(a, d, n) == ArithmeticSum(a, d, n)
  {
    TwiceArithmeticSum(a, d, n);
  }

  function SquareSum(n: nat): int {
    if n == 0 then 0 else SquareSum(n - 1) + n * n
  }

  function SquareTotal(n: nat): int {
    n * (n + 1) * (2 * n + 1) / 6
  }

  lemma Cubics(n: int)
    ensures (n - 1) * n * (2 * n - 1) == 2 * (n * n * n) - 3 * (n * n) + n
    ensures n * (n + 1) * (2 * n + 1) == 2 * (n * n * n) + 3 * (n * n) + n
  {
  }

  lemma {:induction false} SixfoldSquareSum(n: nat)
    ensures 6 * SquareSum(n) == n * (n + 1) * (2 * n + 1)
  {
    if n > 0 {
      SixfoldSquareSum(n - 1);
      Cubics(n);
      assert (n - 1) * n * (2 * (n - 1) + 1) == (n - 1) * n * (2 * n - 1);
    }
  }

  lemma SquareTotalIsSum(n: nat)
    ensures SquareTotal(n) == SquareSum(n)
  {
    SixfoldSquareSum(n);
  }
}
