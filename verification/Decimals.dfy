/**
 * `Decimal.quantize(Decimal("0.01"))` of the Python standard library under its default context:
 * round to the nearest cent, a tie going to the even cent. An amount is an `int` number of cents
 * and an exact intermediate value is a `real` number of cents.
 */
module Decimals {

  /** The cent nearest to `x`; the two clauses leave only one possible answer (HalfEvenUnique). */
  function HalfEven(x: real): (cents: int)
    ensures -1.0 <= 2.0 * (x - cents as real) <= 1.0
    ensures 2.0 * (x - cents as real) in {-1.0, 1.0} ==> cents % 2 == 0
  {
    var below := x.Floor;
    var twice := 2.0 * (x - below as real);
    if twice < 1.0 then below
    else if twice > 1.0 then below + 1
    else if below % 2 == 0 then below else below + 1
  }

  lemma HalfEvenUnique(x: real, cents: int)
    requires -1.0 <= 2.0 * (x - cents as real) <= 1.0
    requires 2.0 * (x - cents as real) in {-1.0, 1.0} ==> cents % 2 == 0
    ensures cents == HalfEven(x)
  {
  }

  lemma HalfEvenMonotone(x: real, y: real)
    requires x <= y
    ensures HalfEven(x) <= HalfEven(y)
  {
  }

  lemma HalfEvenOfCents(x: real, cents: int)
    requires x == cents as real
    ensures HalfEven(x) == cents
  {
  }

  /** An exact rate times an exact quantity, rounded once. */
  function Times(rate: real, quantity: real): int {
    HalfEven(rate * quantity)
  }

  lemma ProductMonotone(k: real, x: real, y: real)
    requires 0.0 <= k && x <= y
    ensures k * x <= k * y
  {
  }

  /** A product whose laws are used one at a time. */
  function Product(a: real, b: real): real { a * b }

  lemma ProductLaws(n: real, a: real, b: real)
    requires 0.0 < n
    ensures Product(n, a + b) == Product(n, a) + Product(n, b)
    ensures a <= b ==> Product(n, a) <= Product(n, b)
    ensures Product(n, 0.5) == 0.5 * n && Product(n, -0.5) == -0.5 * n
  {
    if a <= b {
      ProductMonotone(n, a, b);
    }
  }

  lemma TimesMonotone(rate: real, less: real, more: real)
    requires 0.0 <= rate && 0.0 <= less <= more
    ensures 0 <= Times(rate, less) <= Times(rate, more)
  {
    ProductMonotone(rate, 0.0, less);
    ProductMonotone(rate, less, more);
    HalfEvenOfCents(0.0, 0);
    HalfEvenMonotone(0.0, rate * less);
    HalfEvenMonotone(rate * less, rate * more);
  }

  /** A fraction of cents over 100 or 10000 is off by at most half its denominator once rounded. */
  lemma HalfEvenOfRatio(x: real, n: int)
    ensures x == n as real / 100.0 ==> -100 <= 2 * (100 * HalfEven(x) - n) <= 100
    ensures x == n as real / 10000.0 ==> -10000 <= 2 * (10000 * HalfEven(x) - n) <= 10000
  {
  }
}
