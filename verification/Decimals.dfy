/** Exact decimal arithmetic as real numbers; only the explicit `quantize` calls round. */
module Decimals {

  /** One in the eighth decimal place: the quantum of MONEY and RATE. */
  const SCALE := 100000000.0
  /** Half a quantum: the largest error one `quantize` can make. */
  const HALF_QUANTUM := 0.000000005

  function Max(a: real, b: real): real { if a >= b then a else b }

  function Min(a: real, b: real): real { if a <= b then a else b }

  function MaxInt(a: int, b: int): int { if a >= b then a else b }

  function Abs(x: real): real { if x < 0.0 then -x else x }

  /** Nearest integer, ties to the even neighbour (the default decimal context). */
  function RoundHalfEven(x: real): int {
    var f := x.Floor;
    var d := x - f as real;
    if d < 0.5 || (d == 0.5 && f % 2 == 0) then f else f + 1
  }

  /** Nearest integer, ties away from zero, for the non-negative scores it is used on. */
  function RoundHalfUp(x: real): int { (x + 0.5).Floor }

  /** Truncation toward zero. */
  function Truncate(x: real): int { if x >= 0.0 then x.Floor else -((-x).Floor) }

  /** `quantize(Decimal("0.00000001"))`. */
  function Quantize(x: real): real { RoundHalfEven(x * SCALE) as real / SCALE }

  lemma RoundHalfEvenNearest(x: real)
    ensures Abs(RoundHalfEven(x) as real - x) <= 0.5
  {}

  lemma RoundHalfEvenMonotone(x: real, y: real)
    requires x <= y
    ensures RoundHalfEven(x) <= RoundHalfEven(y)
  {
    if x.Floor != y.Floor { assert x.Floor + 1 <= y.Floor; }
  }

  /** `r` is the multiple of the quantum nearest to `x`, an even one where two are equally near. */
  ghost predicate IsNearest(r: real, x: real) { exists n: int :: NearestMultiple(n, r, x) }

  ghost predicate NearestMultiple(n: int, r: real, x: real) {
    && r == n as real / SCALE
    && n as real - 0.5 <= x * SCALE <= n as real + 0.5
    && (n % 2 == 0 || n as real - 0.5 < x * SCALE < n as real + 0.5)
  }

  lemma QuantizeIsNearest(x: real, r: real)
    ensures r == Quantize(x) <==> IsNearest(r, x)
  {
    var y := x * SCALE;
    RoundIsNearest(y, RoundHalfEven(y));
    assert NearestMultiple(RoundHalfEven(y), Quantize(x), x);
    if n: int :| NearestMultiple(n, r, x) { RoundIsNearest(y, n); }
  }

  lemma RoundIsNearest(y: real, n: int)
    ensures n == RoundHalfEven(y) <==>
      n as real - 0.5 <= y <= n as real + 0.5 && (n % 2 == 0 || n as real - 0.5 < y < n as real + 0.5)
  {}

  lemma QuantizeError(x: real)
    ensures Abs(Quantize(x) - x) <= HALF_QUANTUM
  {
    RoundHalfEvenNearest(x * SCALE);
  }

  lemma QuantizeMonotone(x: real, y: real)
    requires x <= y
    ensures Quantize(x) <= Quantize(y)
  {
    RoundHalfEvenMonotone(x * SCALE, y * SCALE);
  }

  lemma QuantizeMax(x: real, y: real)
    ensures Quantize(Max(x, y)) == Max(Quantize(x), Quantize(y))
  {
    if x >= y { QuantizeMonotone(y, x); } else { QuantizeMonotone(x, y); }
  }

  /** A value that already has eight decimals is unchanged, so quantizing twice is quantizing once. */
  lemma QuantizeFixed(n: int)
    ensures Quantize(n as real / SCALE) == n as real / SCALE
  {
    assert (n as real / SCALE) * SCALE == n as real;
  }

  lemma QuantizeTwice(x: real)
    ensures Quantize(Quantize(x)) == Quantize(x)
  {
    QuantizeFixed(RoundHalfEven(x * SCALE));
  }

  lemma MulMonotone(x: real, y: real, z: real)
    requires x <= y && 0.0 <= z
    ensures x * z <= y * z
  {}

  lemma MulStrict(x: real, y: real, z: real)
    requires x < y && 0.0 < z
    ensures x * z < y * z
  {}

  lemma FactorMonotone(p: real, q: real, d: real)
    requires p * d <= q * d && 0.0 < d
    ensures p <= q
  {}

  lemma QuotientTimes(a: real, b: real)
    requires b != 0.0
    ensures (a / b) * b == a
  {}

  lemma QuotientUnique(a: real, b: real, q: real)
    requires b != 0.0 && q * b == a
    ensures a / b == q
  {}

  lemma QuotientPositive(a: real, b: real)
    requires 0.0 < a && 0.0 < b
    ensures 0.0 < a / b
  {}

  lemma PositiveProduct(x: real, y: real)
    requires 0.0 < x && 0.0 < y
    ensures 0.0 < x * y
  {}

  lemma DivBounds(x: real, y: real)
    requires 0.0 <= x <= y && 0.0 < y
    ensures 0.0 <= x / y <= 1.0
  {
    assert (x / y) * y == x;
  }

  lemma MulBetween(lo: real, r: real, hi: real, unit: real, x: real)
    requires 0.0 < unit && r * unit == x && lo <= r < hi
    ensures lo * unit <= x && x < hi * unit
  {
    MulMonotone(lo, r, unit);
    var gap := hi - r;
    assert 0.0 < gap * unit;
    assert gap * unit == hi * unit - r * unit;
  }

  lemma FloorBounds(x: real, unit: real)
    requires 0.0 <= x && 0.0 < unit
    ensures var q := (x / unit).Floor;
      0 <= q && (q as real) * unit <= x && x < ((q + 1) as real) * unit
  {
    var r := x / unit;
    QuotientTimes(x, unit);
    DivNonNegative(x, unit);
    MulBetween(r.Floor as real, r, (r.Floor + 1) as real, unit, x);
  }

  lemma DivNonNegative(x: real, y: real)
    requires 0.0 <= x && 0.0 < y
    ensures 0.0 <= x / y
  {}
}
