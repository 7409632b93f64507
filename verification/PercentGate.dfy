/**
 The percentage of covered lines, computed in 28-digit decimal arithmetic and cut down to two
 decimals, and the exact bound up to which comparing it with a two-decimal minimum is the
 comparison of the true fraction.
 */
module PercentGate {
  import opened Decimals
  import opened Wrappers

  const P27: nat := 1_000_000_000_000_000_000_000_000_000
  const P28: nat := 10_000_000_000_000_000_000_000_000_000

  /** The largest denominator up to which the gate never errs. */
  const EXACT_BOUND: nat := 2_000_000_000_000_000_000_000_002

  /** `coefficient * 10^exponent`. */
  datatype Decimal = Decimal(coefficient: nat, exponent: int)

  /** `num / den` rounded to the nearest integer, ties to the even one. */
  function HalfEven(num: nat, den: nat): nat
    requires den > 0
  {
    var q := num / den;
    var r := num % den;
    if 2 * r < den || (2 * r == den && q % 2 == 0) then q else q + 1
  }

  /** `num / den` rounded half-even to 28 significant digits. */
  function Round28(num: nat, den: nat): Decimal
    requires den > 0
    decreases if num < P27 * den then P27 * den - num else if num >= P28 * den then num - den else 0
  {
    if num == 0 then Decimal(0, 0)
    else if num < P27 * den then
      var d := Round28(10 * num, den);
      Decimal(d.coefficient, d.exponent - 1)
    else if num >= P28 * den then
      var d := Round28(num, 10 * den);
      Decimal(d.coefficient, d.exponent + 1)
    else Decimal(HalfEven(num, den), 0)
  }

  function Scaled(a: nat, p: nat): nat {
    a * p
  }

  function Cut(a: nat, p: nat): nat
    requires p > 0
  {
    a / p
  }

  /** The number of whole hundredths in a decimal. */
  function Hundredths(d: Decimal): nat {
    if d.exponent >= -2 then Scaled(d.coefficient, Pow10(d.exponent + 2))
    else Cut(d.coefficient, Pow10(-2 - d.exponent))
  }

  /** `100 * covered / coverable` in decimal arithmetic, in hundredths of a percent, cut down. */
  function DecimalPercent(covered: nat, coverable: nat): Option<nat>
    requires covered <= coverable
  {
    if coverable == 0 then None
    else
      var product := Round28(100 * covered, 1);
      var quotient := Round28(product.coefficient, coverable);
      Some(Hundredths(Decimal(quotient.coefficient, quotient.exponent + product.exponent)))
  }

  // ----- what rounding to 28 digits computes -----

  /** Below 28 integer digits, rounding scales the fraction up by the one power of ten that fills 28 digits. */
  lemma {:induction false} Round28ScalesUp(num: nat, den: nat) returns (up: nat)
    requires 0 < num < P28 * den
    ensures P27 * den <= num * Pow10(up) < P28 * den
    ensures Round28(num, den) == Decimal(HalfEven(num * Pow10(up), den), 0 - up)
    decreases P28 * den - num
  {
    hide HalfEven;
    if num < P27 * den {
      var rest := Round28ScalesUp(10 * num, den);
      up := rest + 1;
      assert num * Pow10(up) == (10 * num) * Pow10(rest);
    } else {
      up := 0;
    }
  }

  lemma HalfEvenOfWhole(x: nat)
    ensures HalfEven(x, 1) == x
  {
  }

  /** The two roundings of the computation merge into one, at a common power of ten. */
  lemma RoundedTwice(a: nat, n: nat) returns (k: nat, up: nat)
    requires 0 < a < P28 && 0 < n
    ensures P27 * n <= a * Pow10(k + up) < P28 * n
    ensures Round28(a, 1).exponent == 0 - k
    ensures Round28(Round28(a, 1).coefficient, n) == Decimal(HalfEven(a * Pow10(k + up), n), 0 - up)
  {
    hide Round28, HalfEven, Pow10;
    k := Round28ScalesUp(a, 1);
    var product := a * Pow10(k);
    HalfEvenOfWhole(product);
    assert product >= P27;
    up := Round28ScalesUp(product, n);
    Pow10Sum(k, up);
    assert product * Pow10(up) == a * (Pow10(k) * Pow10(up));
  }

  lemma AtLeastTwoDecimals(covered: nat, coverable: nat, s: nat)
    requires covered <= coverable && 0 < coverable && P27 * coverable <= 100 * covered * Pow10(s)
    ensures s >= 2
  {
    if s < 2 {
      Pow10Monotone(s, 2);
      assert Pow10(2) == 100;
      MulMonotone(100 * covered, 100 * coverable, Pow10(s), 100);
    }
  }

  /** The computed percentage is one half-even rounding of `10000 * covered * m / coverable`, cut by `m`. */
  lemma PercentIsOneRounding(covered: nat, coverable: nat) returns (j: nat)
    requires 0 < covered <= coverable < P27 / 10
    ensures P27 * coverable <= 10000 * covered * Pow10(j) < P28 * coverable
    ensures DecimalPercent(covered, coverable)
         == Some(HalfEven(10000 * covered * Pow10(j), coverable) / Pow10(j))
  {
    hide Round28, HalfEven;
    var k, up := RoundedTwice(100 * covered, coverable);
    AtLeastTwoDecimals(covered, coverable, k + up);
    j := k + up - 2;
    assert Pow10(k + up) == 10 * Pow10(j + 1) == 100 * Pow10(j);
    assert 100 * covered * Pow10(k + up) == 10000 * covered * Pow10(j);
  }

  lemma MulMonotone(a: nat, a': nat, b: nat, b': nat)
    requires a <= a' && b <= b'
    ensures a * b <= a' * b'
  {
    assert a * b <= a' * b <= a' * b';
  }

  // ----- when the rounding cannot reach the next hundredth -----

  lemma ScaleIsLarge(c: nat, n: nat, k: nat, d: nat, j: nat)
    requires 0 < n && 0 < d && k <= 10000 && k * n == 10000 * c + d
    requires P27 * n <= 10000 * c * Pow10(j)
    ensures P27 < k * Pow10(j)
    ensures Pow10(j) >= 1_000_000_000_000_000_000_000_000
  {
    hide Pow10;
    var m := Pow10(j);
    MulStrict(10000 * c, k * n, m);
    assert (k * n) * m == (k * m) * n;
    if k * m <= P27 {
      MulMonotone(k * m, P27, n, n);
      assert false;
    }
    LargePower(k, j);
  }

  /** With `d` the distance from `10000 * c` up to the next multiple of `n`, the rounding step is below `d * m`. */
  lemma RoundingIsTooSmall(c: nat, n: nat, k: nat, d: nat, j: nat)
    requires 0 < n <= EXACT_BOUND && c <= n && d > 0
    requires k * n == 10000 * c + d
    requires P27 * n <= 10000 * c * Pow10(j)
    ensures n < 2 * d * Pow10(j)
  {
    hide Pow10;
    var m := Pow10(j);
    if k > 10000 {
      MulMonotone(10001, k, n, n);
      assert d >= n;
      MulMonotone(2 * n, 2 * d, 1, m);
    } else {
      ScaleIsLarge(c, n, k, d, j);
      if d >= 2 {
        MulMonotone(4, 2 * d, m, m);
      } else if n >= 2 * m {
        OneStepResidue(c, n, k);
        assert false;
      }
    }
  }

  lemma MulStrict(a: nat, b: nat, m: nat)
    requires a < b && m > 0
    ensures a * m < b * m
  {
  }

  lemma Pow10Values()
    ensures Pow10(23) == 100_000_000_000_000_000_000_000
    ensures Pow10(24) == 1_000_000_000_000_000_000_000_000
  {
    assert Pow10(4) == 10000;
    Pow10Sum(4, 4);
    Pow10Sum(8, 8);
    Pow10Sum(16, 4);
    assert Pow10(23) == 1000 * Pow10(20);
  }

  lemma LargePower(k: nat, j: nat)
    requires k <= 10000 && P27 < k * Pow10(j)
    ensures Pow10(j) >= 1_000_000_000_000_000_000_000_000
  {
    hide Pow10;
    Pow10Values();
    if j <= 23 {
      Pow10Monotone(j, 23);
      MulMonotone(k, 10000, Pow10(j), Pow10(23));
      assert false;
    }
    Pow10Monotone(24, j);
  }

  /** Between twice `10^24` and the bound no denominator has a larger multiple one above a multiple of 10000. */
  lemma OneStepResidue(c: nat, n: nat, k: nat)
    requires 1 < k <= 10000 && k * n == 10000 * c + 1
    requires n >= 2_000_000_000_000_000_000_000_000
    ensures n > EXACT_BOUND
  {
    var i := n - 2_000_000_000_000_000_000_000_000;
    assert k * n == 2_000_000_000_000_000_000_000_000 * k + i * k;
    var t := c - 200_000_000_000_000_000_000 * k;
    assert i * k == 10000 * t + 1;
  }

  lemma DistanceUp(a: nat, n: nat) returns (q: nat, d: nat)
    requires n > 0
    ensures q == a / n && (q + 1) * n == a + d && 0 < d <= n
  {
    q, d := a / n, n - a % n;
  }

  /** Up to the bound, cutting the rounded percentage gives the true number of hundredths. */
  lemma PercentIsExact(covered: nat, coverable: nat)
    requires covered <= coverable && 0 < coverable <= EXACT_BOUND
    ensures DecimalPercent(covered, coverable) == Some(10000 * covered / coverable)
  {
    if covered == 0 {
      assert Pow10(0) == 1 && Pow10(2) == 100;
    } else {
      var j := PercentIsOneRounding(covered, coverable);
      hide DecimalPercent, HalfEven, Pow10;
      var q, d := DistanceUp(10000 * covered, coverable);
      RoundingIsTooSmall(covered, coverable, q + 1, d, j);
      RoundedQuotient(10000 * covered, coverable, Pow10(j), q, d);
    }
  }

  /** A value whose distance to `b` units exceeds half a unit is rounded below `b`. */
  lemma RoundsBelow(x: nat, n: nat, b: nat, e: nat)
    requires n > 0 && b > 0 && x + e == b * n && n < 2 * e
    ensures HalfEven(x, n) < b
  {
    assert b * n == (b - 1) * n + n;
    if e <= n {
      DivBetween(x, b - 1, n);
      assert x % n == x - (b - 1) * n == n - e;
    } else {
      FloorBelow(x, n, b - 1);
    }
  }

  lemma FloorBelow(x: nat, n: nat, b: nat)
    requires n > 0 && x < b * n
    ensures x / n < b
  {
    CutBelow(x, n, b);
  }

  lemma FloorAtLeast(x: nat, n: nat, b: nat)
    requires n > 0 && b * n <= x
    ensures b <= x / n
  {
    CutBelow(x, n, b);
  }

  lemma ScaleUp(a: nat, n: nat, m: nat, q: nat, d: nat)
    requires (q + 1) * n == a + d && d <= n
    ensures a * m + d * m == ((q + 1) * m) * n && (q * m) * n <= a * m
  {
    assert a * m + d * m == (a + d) * m == ((q + 1) * n) * m == ((q + 1) * m) * n;
    assert q * n <= a;
    MulMonotone(q * n, a, m, m);
    assert (q * n) * m == (q * m) * n;
  }

  /** When the distance to the next multiple is too large to be rounded away, rounding then cutting is cutting. */
  lemma RoundedQuotient(a: nat, n: nat, m: nat, q: nat, d: nat)
    requires 0 < n && 0 < m && d <= n
    requires (q + 1) * n == a + d && n < 2 * d * m
    ensures HalfEven(a * m, n) / m == q
  {
    ScaleUp(a, n, m, q, d);
    HalfEvenBetween(a * m, n, q * m, (q + 1) * m, d * m);
    DivBetween(HalfEven(a * m, n), q, m);
  }

  lemma HalfEvenBetween(x: nat, n: nat, low: nat, high: nat, e: nat)
    requires n > 0 && high > 0 && low * n <= x && x + e == high * n && n < 2 * e
    ensures low <= HalfEven(x, n) < high
  {
    FloorAtLeast(x, n, low);
    RoundsBelow(x, n, high, e);
  }

  lemma DivBetween(x: nat, q: nat, m: nat)
    requires m > 0 && q * m <= x < q * m + m
    ensures x / m == q
  {
    var p := x / m;
    assert p * m <= x < p * m + m;
    if p < q {
      MulMonotone(p + 1, q, m, m);
      assert false;
    }
    if p > q {
      MulMonotone(q + 1, p, m, m);
      assert false;
    }
  }

  // ----- the gate -----

  /** The test a coverage class must pass: its cut percentage is not below the minimum, in hundredths. */
  predicate BelowMinimum(covered: nat, coverable: nat, minimum: nat)
    requires covered <= coverable
  {
    var percent := DecimalPercent(covered, coverable);
    percent.Some? && percent.value < minimum
  }

  lemma CutBelow(a: nat, n: nat, k: nat)
    requires n > 0
    ensures a / n < k <==> a < k * n
  {
    var q := a / n;
    assert q * n <= a < (q + 1) * n;
    if q < k {
      MulMonotone(q + 1, k, n, n);
    } else {
      MulMonotone(k, q, n, n);
    }
  }

  /** Up to the bound the gate fails exactly when the true fraction is below the minimum. */
  lemma GateIsExact(covered: nat, coverable: nat, minimum: nat)
    requires covered <= coverable && 0 < coverable <= EXACT_BOUND
    ensures BelowMinimum(covered, coverable, minimum) <==> 10000 * covered < minimum * coverable
  {
    PercentIsExact(covered, coverable);
    CutBelow(10000 * covered, coverable, minimum);
  }

  // ----- the bound is sharp -----

  const SLIP_COVERABLE: nat := 2_000_000_000_000_000_000_000_003
  const SLIP_COVERED: nat := 1_333_400_000_000_000_000_000_002

  /** One past the bound, 66.67 percent is reported although the true fraction is below it. */
  lemma GateSlips()
    ensures !BelowMinimum(SLIP_COVERED, SLIP_COVERABLE, 6667) && 10000 * SLIP_COVERED < 6667 * SLIP_COVERABLE
  {
    var j := PercentIsOneRounding(SLIP_COVERED, SLIP_COVERABLE);
    hide DecimalPercent, HalfEven;
    SlipScale(j);
    SlipRoundsUp();
  }

  lemma SlipScale(j: nat)
    requires P27 * SLIP_COVERABLE <= 10000 * SLIP_COVERED * Pow10(j) < P28 * SLIP_COVERABLE
    ensures Pow10(j) == 1_000_000_000_000_000_000_000_000
  {
    hide Pow10;
    Pow10Values();
    Pow10Sum(24, 1);
    PowTen();
    if j <= 23 {
      Pow10Monotone(j, 23);
    } else if j >= 25 {
      Pow10Monotone(25, j);
    }
  }

  lemma PowTen()
    ensures Pow10(1) == 10
  {
  }

  lemma SlipRoundsUp()
    ensures var m := 1_000_000_000_000_000_000_000_000;
            HalfEven(10000 * SLIP_COVERED * m, SLIP_COVERABLE) / m == 6667
  {
    var m := 1_000_000_000_000_000_000_000_000;
    var x := 10000 * SLIP_COVERED * m;
    assert x == (6667 * m - 1) * SLIP_COVERABLE + (SLIP_COVERABLE - m);
    assert x / SLIP_COVERABLE == 6667 * m - 1;
  }

  /** The gate never errs on denominators up to `bound`. */
  ghost predicate ExactUpTo(bound: nat) {
    forall covered: nat, coverable: nat, minimum: nat | covered <= coverable && 0 < coverable <= bound ::
      BelowMinimum(covered, coverable, minimum) <==> 10000 * covered < minimum * coverable
  }

  /** `2 * 10^24 + 2` is the exact limit: the gate is right up to it and wrong one later. */
  lemma ExactnessLimit(bound: nat)
    ensures ExactUpTo(bound) <==> bound <= EXACT_BOUND
  {
    if bound <= EXACT_BOUND {
      forall covered: nat, coverable: nat, minimum: nat | covered <= coverable && 0 < coverable <= bound
        ensures BelowMinimum(covered, coverable, minimum) <==> 10000 * covered < minimum * coverable
      {
        GateIsExact(covered, coverable, minimum);
      }
    } else {
      GateSlips();
    }
  }
}
