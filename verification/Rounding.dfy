/** Rounding of exact fractions to whole units, as `Decimal.quantize` does it. */
module Rounding {
  function Abs(x: int): nat { if x < 0 then -x else x }

  /** ROUND_HALF_UP: to the nearest, ties away from zero. */
  function HalfUp(num: int, den: int): int
    requires den > 0
  {
    if num >= 0 then (2 * num + den) / (2 * den) else -((2 * -num + den) / (2 * den))
  }

  lemma DivisionBounds(a: int, b: int)
    requires b > 0
    ensures b * (a / b) <= a < b * (a / b) + b
  {
  }

  /** The result is within half a unit of the fraction. */
  lemma HalfUpWithinHalf(num: int, den: int)
    requires den > 0
    ensures 2 * Abs(den * HalfUp(num, den) - num) <= den
  {
    var m := if num >= 0 then num else -num;
    var q := (2 * m + den) / (2 * den);
    DivisionBounds(2 * m + den, 2 * den);
    assert 2 * den * q == 2 * (den * q);
    if num < 0 { assert den * -q == -(den * q); }
  }

  /** A tie goes away from zero: below zero the result mirrors the one above, and there it is the
      whole number from whose lower half-way point, included, to its upper one, excluded, the
      fraction lies. */
  lemma TiesGoAwayFromZero(num: int, den: int)
    requires den > 0
    ensures HalfUp(-num, den) == -HalfUp(num, den)
    ensures num >= 0 ==> den * (2 * HalfUp(num, den) - 1) <= 2 * num < den * (2 * HalfUp(num, den) + 1)
  {
    if num >= 0 {
      var q := (2 * num + den) / (2 * den);
      DivisionBounds(2 * num + den, 2 * den);
      assert 2 * den * q == den * (2 * q) && den * (2 * q - 1) == den * (2 * q) - den;
    }
  }

  lemma HalfUpMonotone(a: int, b: int, den: int)
    requires den > 0 && a <= b
    ensures HalfUp(a, den) <= HalfUp(b, den)
  {
    if a >= 0 {
      QuotientMonotone(2 * a + den, 2 * b + den, 2 * den);
    } else if b < 0 {
      QuotientMonotone(2 * -b + den, 2 * -a + den, 2 * den);
    } else {
      QuotientMonotone(0, 2 * -a + den, 2 * den);
      QuotientMonotone(0, 2 * b + den, 2 * den);
    }
  }

  lemma QuotientMonotone(a: int, b: int, den: int)
    requires den > 0 && a <= b
    ensures a / den <= b / den
  {
    var p, q := a / den, b / den;
    DivisionBounds(a, den);
    DivisionBounds(b, den);
    assert p > q ==> den * p >= den * (q + 1);
  }

  /** Whole units are left alone. */
  lemma HalfUpExact(units: int)
    ensures HalfUp(units, 1) == units
  {
  }

  /** ROUND_HALF_EVEN, the default: to the nearest, ties to the even neighbour. */
  function HalfEven(x: real): int {
    var below := x.Floor;
    var rest := x - below as real;
    if rest < 0.5 || (rest == 0.5 && below % 2 == 0) then below else below + 1
  }

  lemma HalfEvenWithinHalf(x: real)
    ensures -0.5 <= HalfEven(x) as real - x <= 0.5
    ensures (HalfEven(x) as real - x == 0.5 || HalfEven(x) as real - x == -0.5) ==> HalfEven(x) % 2 == 0
  {
  }

  /** Values more than a unit apart stay apart. Exactly a unit does not do: 1.5 and 2.5 meet. */
  lemma HalfEvenApart(x: real, y: real)
    requires x + 1.0 < y
    ensures HalfEven(x) < HalfEven(y)
  {
    HalfEvenWithinHalf(x);
    HalfEvenWithinHalf(y);
    hide HalfEven;
  }

  /** Mirroring at an even whole number commutes with rounding, ties included. */
  lemma HalfEvenMirrors(n: int, x: real)
    requires n % 2 == 0
    ensures HalfEven(n as real - x) == n - HalfEven(x)
  {
  }

  /** Rounding never swaps two values, though it may make them equal. */
  lemma HalfEvenMonotone(x: real, y: real)
    requires x <= y
    ensures HalfEven(x) <= HalfEven(y)
  {
  }
}
