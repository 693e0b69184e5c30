/** The scores behind a candidate: clamped to 0..100 and rounded half up to two decimals. */
module Scoring {
  import opened Decimals

  function Clamp(x: real): real { Min(100.0, Max(0.0, x)) }

  /** Clamp, then round to the nearest hundredth. */
  function QuantizeScore(x: real): (r: real)
    ensures 0.0 <= r <= 100.0
    ensures 0.0 <= x <= 100.0 ==> -0.005 < r - x <= 0.005
  {
    var n := RoundHalfUp(Clamp(x) * 100.0);
    assert 0 <= n <= 10000;
    n as real / 100.0
  }

  /** A score, or the rejection of bounds in the wrong order. */
  datatype Scored = Score(value: real) | InvalidBounds

  function HighIsGood(value: real, minimum: real, maximum: real): Scored {
    if maximum <= minimum then InvalidBounds
    else Score(QuantizeScore((value - minimum) / (maximum - minimum) * 100.0))
  }

  function LowIsGood(value: real, best: real, worst: real): Scored {
    if worst <= best then InvalidBounds
    else Score(QuantizeScore((worst - value) / (worst - best) * 100.0))
  }

  function TriangularScore(value: real, minimum: real, ideal: real, maximum: real): Scored {
    if !(minimum < ideal < maximum) then InvalidBounds
    else if value <= ideal then HighIsGood(value, minimum, ideal)
    else LowIsGood(value, ideal, maximum)
  }

  /** The ranker's own interpolation, which never rejects its bounds. */
  function LinearScore(value: real, minimum: real, maximum: real): (r: real)
    ensures 0.0 <= r <= 100.0
  {
    if value <= minimum then QuantizeScore(0.0)
    else if value >= maximum then QuantizeScore(100.0)
    else QuantizeScore((value - minimum) / (maximum - minimum) * 100.0)
  }

  /** A trapezoid over the average true range as a share of the price. */
  function VolatilityScore(atr: real): (r: real)
    ensures 0.0 <= r <= 100.0
  {
    if atr <= 0.01 || atr >= 0.12 then 0.0
    else if atr < 0.03 then LinearScore(atr, 0.01, 0.03)
    else if atr <= 0.06 then 100.0
    else QuantizeScore((0.12 - atr) / 0.06 * 100.0)
  }

  function TotalScore(trend: real, setup: real, liquidity: real, volatility: real): (r: real)
    ensures 0.0 <= r <= 100.0
  {
    QuantizeScore(trend * 0.25 + setup * 0.45 + liquidity * 0.15 + volatility * 0.15)
  }

  lemma QuantizeScoreMonotone(x: real, y: real)
    requires x <= y
    ensures QuantizeScore(x) <= QuantizeScore(y)
  {
    var a, b := Clamp(x) * 100.0 + 0.5, Clamp(y) * 100.0 + 0.5;
    assert a.Floor <= b.Floor;
  }

  lemma QuantizeHundredths(n: int)
    requires 0 <= n <= 10000
    ensures QuantizeScore(n as real / 100.0) == n as real / 100.0
  {
    var x := n as real / 100.0;
    assert 0.0 <= x <= 100.0;
    assert Clamp(x) * 100.0 == n as real;
    assert (n as real + 0.5).Floor == n;
  }

  /** Scores that already have two decimals are left alone, so quantizing again changes nothing. */
  lemma QuantizeScoreTwice(x: real)
    ensures QuantizeScore(QuantizeScore(x)) == QuantizeScore(x)
  {
    var n := RoundHalfUp(Clamp(x) * 100.0);
    assert 0 <= n <= 10000;
    assert QuantizeScore(x) == n as real / 100.0;
    hide QuantizeScore, RoundHalfUp;
    QuantizeHundredths(n);
  }

  lemma ShareMonotone(a: real, b: real, d: real)
    requires a <= b && 0.0 < d
    ensures a / d * 100.0 <= b / d * 100.0
  {
    var p, q := a / d, b / d;
    assert p * d == a && q * d == b;
    FactorMonotone(p, q, d);
  }

  /** The interpolation of the ranker and the one of the strategy are the same function. */
  lemma LinearIsHighIsGood(value: real, minimum: real, maximum: real)
    requires minimum < maximum
    ensures HighIsGood(value, minimum, maximum) == Score(LinearScore(value, minimum, maximum))
  {
    var d := maximum - minimum;
    if value <= minimum {
      ShareMonotone(value - minimum, 0.0, d);
      assert 0.0 / d == 0.0;
    } else if value >= maximum {
      ShareMonotone(d, value - minimum, d);
      assert d / d == 1.0;
    }
  }

  /** A larger value never lowers the score, whatever the bounds. */
  lemma LinearMonotone(a: real, b: real, minimum: real, maximum: real)
    requires a <= b
    ensures LinearScore(a, minimum, maximum) <= LinearScore(b, minimum, maximum)
  {
    if minimum < a && b < maximum {
      ShareMonotone(a - minimum, b - minimum, maximum - minimum);
      QuantizeScoreMonotone((a - minimum) / (maximum - minimum) * 100.0, (b - minimum) / (maximum - minimum) * 100.0);
    }
    assert QuantizeScore(0.0) == 0.0;
    assert QuantizeScore(100.0) == 100.0;
  }

  /** The triangular score rises to one hundred at the ideal, falls after it and is zero outside. */
  lemma TriangularShape(a: real, b: real, minimum: real, ideal: real, maximum: real)
    requires minimum < ideal < maximum && a <= b
    ensures var s, t := TriangularScore(a, minimum, ideal, maximum), TriangularScore(b, minimum, ideal, maximum);
      s.Score? && t.Score?
      && (b <= ideal ==> s.value <= t.value) && (ideal <= a ==> t.value <= s.value)
      && (a == ideal ==> s.value == 100.0) && (b <= minimum ==> t.value == 0.0) && (maximum <= a ==> s.value == 0.0)
  {
    hide QuantizeScore;
    if a <= ideal {
      LinearIsHighIsGood(a, minimum, ideal);
      if b <= ideal {
        LinearIsHighIsGood(b, minimum, ideal);
        LinearMonotone(a, b, minimum, ideal);
      }
      QuantizeEnds();
    }
    if ideal <= a {
      FallingShape(a, b, ideal, maximum);
    }
  }

  lemma QuantizeEnds()
    ensures QuantizeScore(0.0) == 0.0 && QuantizeScore(100.0) == 100.0
  {}

  lemma FallingShape(a: real, b: real, best: real, worst: real)
    requires best < worst && best <= a <= b
    ensures LowIsGood(b, best, worst).value <= LowIsGood(a, best, worst).value
    ensures a == best ==> LowIsGood(a, best, worst) == Score(100.0)
    ensures worst <= a ==> LowIsGood(a, best, worst) == Score(0.0)
  {
    var d := worst - best;
    ShareMonotone(worst - b, worst - a, d);
    QuantizeScoreMonotone((worst - b) / d * 100.0, (worst - a) / d * 100.0);
    QuantizeEnds();
    if worst <= a { NothingShared(worst - a, d); }
    hide QuantizeScore;
    if a == best { WholeShared(d); }
  }

  lemma WholeShared(d: real)
    requires 0.0 < d
    ensures d / d * 100.0 == 100.0
  {}

  lemma NothingShared(x: real, d: real)
    requires x <= 0.0 < d
    ensures QuantizeScore(x / d * 100.0) == 0.0
  {
    ShareMonotone(x, 0.0, d);
    assert 0.0 / d == 0.0;
  }

  /** Volatility scores rise up to six per cent, fall from three per cent on, and are full in between. */
  lemma VolatilityShape(a: real, b: real)
    requires a <= b
    ensures b <= 0.06 ==> VolatilityScore(a) <= VolatilityScore(b)
    ensures 0.03 <= a ==> VolatilityScore(b) <= VolatilityScore(a)
    ensures 0.03 <= a <= 0.06 ==> VolatilityScore(a) == 100.0
  {
    LinearMonotone(a, b, 0.01, 0.03);
    ShareMonotone(0.12 - b, 0.12 - a, 0.06);
    QuantizeScoreMonotone((0.12 - b) / 0.06 * 100.0, (0.12 - a) / 0.06 * 100.0);
  }

  // ---- the scores as numbers ----

  predicate Hundredths(x: real, n: int) { x * 100.0 == n as real }

  /** Scores are whole hundredths, and what lies outside 0..100 is cut off. */
  lemma QuantizeScoreMeaning(x: real)
    ensures exists n: int :: Hundredths(QuantizeScore(x), n)
    ensures x <= 0.0 ==> QuantizeScore(x) == 0.0
    ensures 100.0 <= x ==> QuantizeScore(x) == 100.0
  {
    var n := RoundHalfUp(Clamp(x) * 100.0);
    assert Hundredths(QuantizeScore(x), n);
  }

  /** `r` is the score of `part` out of `whole` up to rounding: one hundred times their ratio, no less than 0
      and no more than 100. */
  predicate IsShare(r: real, part: real, whole: real) {
    && (part <= 0.0 ==> r == 0.0) && (whole <= part ==> r == 100.0)
    && (0.0 < part < whole ==> -0.005 * whole < r * whole - 100.0 * part <= 0.005 * whole)
  }

  lemma ShareMeaning(part: real, whole: real)
    requires 0.0 < whole
    ensures IsShare(QuantizeScore(part / whole * 100.0), part, whole)
  {
    var ratio := part / whole;
    QuotientTimes(part, whole);
    QuantizeScoreMeaning(ratio * 100.0);
    if part <= 0.0 {
      ShareMonotone(part, 0.0, whole);
      assert 0.0 / whole == 0.0;
    } else if whole <= part {
      ShareMonotone(whole, part, whole);
      assert whole / whole == 1.0;
    } else {
      DivBounds(part, whole);
      hide QuantizeScore;
      ScaleError(QuantizeScore(ratio * 100.0), ratio, whole);
    }
  }

  lemma ScaleError(r: real, ratio: real, whole: real)
    requires 0.0 < whole && -0.005 < r - ratio * 100.0 <= 0.005
    ensures -0.005 * whole < r * whole - 100.0 * (ratio * whole) <= 0.005 * whole
  {
    var e := r - ratio * 100.0;
    MulStrict(-0.005, e, whole);
    MulMonotone(e, 0.005, whole);
    assert e * whole == r * whole - ratio * 100.0 * whole;
  }

  /** A share does not depend on the unit in which part and whole are measured. */
  lemma ShareInUnits(r: real, part: real, whole: real, unit: real)
    requires 0.0 < unit && 0.0 < whole && IsShare(r, part / unit, whole)
    ensures IsShare(r, part, whole * unit)
  {
    var x := part / unit;
    QuotientTimes(part, unit);
    if part <= 0.0 {
      if 0.0 < x { MulStrict(0.0, x, unit); }
    } else if whole * unit <= part {
      if x < whole { MulStrict(x, whole, unit); }
    } else {
      if x <= 0.0 { MulMonotone(x, 0.0, unit); }
      if whole <= x { MulMonotone(whole, x, unit); }
      ErrorInUnits(r, x, whole, unit);
    }
  }

  lemma ErrorInUnits(r: real, x: real, whole: real, unit: real)
    requires 0.0 < unit && -0.005 * whole < r * whole - 100.0 * x <= 0.005 * whole
    ensures -0.005 * (whole * unit) < r * (whole * unit) - 100.0 * (x * unit) <= 0.005 * (whole * unit)
  {
    var e := r * whole - 100.0 * x;
    MulStrict(-0.005 * whole, e, unit);
    MulMonotone(e, 0.005 * whole, unit);
    assert e * unit == r * whole * unit - 100.0 * x * unit;
    assert r * whole * unit == r * (whole * unit);
  }

  /** The two interpolations: how far a value has come from one bound to the other; bounds in the wrong order
      are rejected. */
  lemma InterpolationMeaning(value: real, low: real, high: real)
    ensures HighIsGood(value, low, high).InvalidBounds? <==> high <= low
    ensures LowIsGood(value, low, high).InvalidBounds? <==> high <= low
    ensures low < high ==> IsShare(HighIsGood(value, low, high).value, value - low, high - low)
    ensures low < high ==> IsShare(LowIsGood(value, low, high).value, high - value, high - low)
    ensures low < high ==> IsShare(LinearScore(value, low, high), value - low, high - low)
  {
    if low < high {
      ShareMeaning(value - low, high - low);
      ShareMeaning(high - value, high - low);
      LinearIsHighIsGood(value, low, high);
    }
    hide QuantizeScore, LinearScore;
  }

  /** The triangle: how far a value has come to the ideal, or how far it still is from the upper bound. */
  lemma TriangularMeaning(value: real, minimum: real, ideal: real, maximum: real)
    ensures var r := TriangularScore(value, minimum, ideal, maximum);
      && (r.InvalidBounds? <==> ideal <= minimum || maximum <= ideal)
      && (r.Score? && value <= ideal ==> IsShare(r.value, value - minimum, ideal - minimum))
      && (r.Score? && ideal < value ==> IsShare(r.value, maximum - value, maximum - ideal))
  {
    InterpolationMeaning(value, minimum, ideal);
    InterpolationMeaning(value, ideal, maximum);
    hide QuantizeScore, IsShare;
  }

  /** The trapezoid: nothing up to one per cent, rising to three, full to six, falling to twelve. */
  lemma VolatilityMeaning(atr: real)
    ensures atr <= 0.03 ==> IsShare(VolatilityScore(atr), atr - 0.01, 0.02)
    ensures 0.03 <= atr <= 0.06 ==> VolatilityScore(atr) == 100.0
    ensures 0.06 <= atr ==> IsShare(VolatilityScore(atr), 0.12 - atr, 0.06)
  {
    InterpolationMeaning(atr, 0.01, 0.03);
    ShareMeaning(0.12 - atr, 0.06);
    hide QuantizeScore, LinearScore;
  }

  /** The total is the weighted sum of its components, rounded: a quarter trend, forty-five per cent setup, and
      fifteen each for liquidity and volatility. */
  lemma TotalMeaning(trend: real, setup: real, liquidity: real, volatility: real)
    requires 0.0 <= trend <= 100.0 && 0.0 <= setup <= 100.0 && 0.0 <= liquidity <= 100.0 && 0.0 <= volatility <= 100.0
    ensures var sum := 0.25 * trend + 0.45 * setup + 0.15 * liquidity + 0.15 * volatility;
      -0.005 < TotalScore(trend, setup, liquidity, volatility) - sum <= 0.005
  {
    hide QuantizeScore;
  }

  /** Raising any component never lowers the total, and four equal components total to that value. */
  lemma TotalMonotone(t: real, s: real, l: real, v: real, t2: real, s2: real, l2: real, v2: real)
    requires t <= t2 && s <= s2 && l <= l2 && v <= v2
    ensures TotalScore(t, s, l, v) <= TotalScore(t2, s2, l2, v2)
    ensures TotalScore(QuantizeScore(t), QuantizeScore(t), QuantizeScore(t), QuantizeScore(t)) == QuantizeScore(t)
  {
    QuantizeScoreMonotone(t * 0.25 + s * 0.45 + l * 0.15 + v * 0.15, t2 * 0.25 + s2 * 0.45 + l2 * 0.15 + v2 * 0.15);
    QuantizeScoreTwice(t);
  }
}
