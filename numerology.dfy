/**
 * The arcanum reduction (`calculateArcanumNumber`): a day of the month at
 * most 22 is its own arcanum; a larger day is replaced by the sum of its
 * decimal digits until the value is at most 22.
 *
 * `Arcanum` is the specification. `CalculateArcanumNumber` is the Java
 * version (arithmetic digit sums in nested `while` loops) and
 * `CalculateArcanumNumberJs` the JavaScript version (digit sums over the
 * decimal string, then `while (sum > 22)`); both are proved equal to it.
 */
module Numerology {

  /** Sum of the decimal digits of `n`, least significant first. */
  function DigitSum(n: nat): nat
  {
    if n == 0 then 0 else n % 10 + DigitSum(n / 10)
  }

  /** The facts the termination argument needs: a digit sum is positive for a
      positive number and strictly smaller than any number of two digits or more. */
  lemma {:induction false} DigitSumBounds(n: nat)
    ensures DigitSum(n) <= n
    ensures n >= 1 ==> DigitSum(n) >= 1
    ensures n >= 10 ==> DigitSum(n) < n
  {
    if n > 0 {
      DigitSumBounds(n / 10);
    }
  }

  /** The `while (sum > 22)` loop: digit sums until the value is at most 22. */
  function Reduce(s: nat): (r: nat)
    ensures r <= 22
    ensures s >= 1 ==> r >= 1
    decreases s
  {
    if s <= 22 then s
    else
      DigitSumBounds(s);
      Reduce(DigitSum(s))
  }

  /** The arcanum of a day: the day itself up to 22, otherwise the reduced digit sum. */
  function Arcanum(day: int): (r: int)
    ensures day >= 1 ==> 1 <= r <= 22
  {
    if day <= 22 then day
    else
      DigitSumBounds(day);
      Reduce(DigitSum(day))
  }

  /** Days up to 22 are returned unchanged, whatever their sign. */
  lemma ArcanumOfSmallDay(day: int)
    requires day <= 22
    ensures Arcanum(day) == day
  {
  }

  /** A two-digit day needs one digit-sum pass only: the sum is at most 18. */
  lemma {:induction false} OnePassForTwoDigitDays(day: int)
    requires 23 <= day <= 99
    ensures Arcanum(day) == day / 10 + day % 10
    ensures Arcanum(day) == DigitSum(day)
  {
    assert DigitSum(day / 10) == day / 10 by {
      assert (day / 10) / 10 == 0;
    }
    assert DigitSum(day) == day % 10 + day / 10;
  }

  /** The arcanum of each day of a month past 22. */
  lemma ArcanumOfLateDays()
    ensures Arcanum(23) == 5 && Arcanum(24) == 6 && Arcanum(25) == 7
    ensures Arcanum(26) == 8 && Arcanum(27) == 9 && Arcanum(28) == 10
    ensures Arcanum(29) == 11 && Arcanum(30) == 3 && Arcanum(31) == 4
  {
    OnePassForTwoDigitDays(23); OnePassForTwoDigitDays(24); OnePassForTwoDigitDays(25);
    OnePassForTwoDigitDays(26); OnePassForTwoDigitDays(27); OnePassForTwoDigitDays(28);
    OnePassForTwoDigitDays(29); OnePassForTwoDigitDays(30); OnePassForTwoDigitDays(31);
  }

  /** Java `calculateArcanumNumber`. The operands of `%` and `/` are positive
      here, so Java's truncating division agrees with Dafny's. */
  method CalculateArcanumNumber(day: int) returns (r: int)
    ensures r == Arcanum(day)
    ensures day <= 22 ==> r == day
    ensures day >= 1 ==> 1 <= r <= 22
  {
    if day <= 22 {
      return day;
    }
    var sum := 0;
    var tempDay := day;
    while tempDay > 0
      invariant 0 <= tempDay && 0 <= sum
      invariant sum + DigitSum(tempDay) == DigitSum(day)
      decreases tempDay
    {
      sum := sum + tempDay % 10;
      tempDay := tempDay / 10;
    }
    while sum > 22
      invariant 0 <= sum
      invariant Reduce(sum) == Arcanum(day)
      decreases sum
    {
      var newSum := 0;
      var tempSum := sum;
      while tempSum > 0
        invariant 0 <= tempSum && 0 <= newSum
        invariant newSum + DigitSum(tempSum) == DigitSum(sum)
        decreases tempSum
      {
        newSum := newSum + tempSum % 10;
        tempSum := tempSum / 10;
      }
      DigitSumBounds(sum);
      sum := newSum;
    }
    r := sum;
  }

  predicate IsDigitChar(c: char)
  {
    '0' <= c <= '9'
  }

  function DigitChar(d: nat): (c: char)
    requires d < 10
    ensures IsDigitChar(c)
  {
    (48 + d) as char
  }

  /** `parseInt` of a one-character digit string. */
  function DigitValue(c: char): (v: nat)
    requires IsDigitChar(c)
    ensures v < 10
  {
    c as int - 48
  }

  /** The value of a string of ASCII digits. */
  function DigitsValue(s: string): nat
    requires forall i :: 0 <= i < |s| ==> IsDigitChar(s[i])
  {
    if s == [] then 0 else DigitsValue(s[..|s| - 1]) * 10 + DigitValue(s[|s| - 1])
  }

  /** `n.toString()` for a non-negative integer: its decimal digits, most significant first. */
  function DecimalString(n: nat): (s: string)
    ensures |s| >= 1
    ensures forall i :: 0 <= i < |s| ==> IsDigitChar(s[i])
    ensures DigitsValue(s) == n
  {
    if n < 10 then
      var s := [DigitChar(n)];
      assert s[..0] == [];
      s
    else
      var s := DecimalString(n / 10) + [DigitChar(n % 10)];
      assert s[..|s| - 1] == DecimalString(n / 10);
      s
  }

  /** `s.split('').reduce((acc, digit) => acc + parseInt(digit), 0)`: a left fold. */
  function SumOfDigitChars(s: string): int
    requires forall i :: 0 <= i < |s| ==> IsDigitChar(s[i])
  {
    if s == [] then 0 else SumOfDigitChars(s[..|s| - 1]) + DigitValue(s[|s| - 1])
  }

  /** The string-based digit sum of JavaScript equals the arithmetic one of Java. */
  lemma {:induction false} StringDigitSumAgrees(n: nat)
    ensures SumOfDigitChars(DecimalString(n)) == DigitSum(n)
  {
    var s := DecimalString(n);
    if n < 10 {
      assert s[..|s| - 1] == [];
    } else {
      assert s[..|s| - 1] == DecimalString(n / 10);
      StringDigitSumAgrees(n / 10);
    }
  }

  /** JavaScript `calculateArcanumNumber`: agrees with the Java version on every integer. */
  method CalculateArcanumNumberJs(day: int) returns (r: int)
    ensures r == Arcanum(day)
    ensures day <= 22 ==> r == day
    ensures day >= 1 ==> 1 <= r <= 22
  {
    if day <= 22 {
      return day;
    }
    StringDigitSumAgrees(day);
    var sum := SumOfDigitChars(DecimalString(day));
    while sum > 22
      invariant 0 <= sum
      invariant Reduce(sum) == Arcanum(day)
      decreases sum
    {
      StringDigitSumAgrees(sum);
      DigitSumBounds(sum);
      sum := SumOfDigitChars(DecimalString(sum));
    }
    r := sum;
  }
}
