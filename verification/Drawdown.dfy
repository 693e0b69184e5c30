/** The one-pass peak and drawdown loop against its declarative meaning. */
module Drawdown {
  import opened Decimals

  /** The running peak after the last value of `e`. */
  function Peak(e: seq<real>): real
    requires e != []
  {
    if |e| == 1 then e[0] else Max(Peak(e[..|e| - 1]), e[|e| - 1])
  }

  /** The running maximum of `peak - value` after the last value of `e`. */
  function Deepest(e: seq<real>): real
    requires e != []
  {
    if |e| == 1 then 0.0 else Max(Deepest(e[..|e| - 1]), Peak(e) - e[|e| - 1])
  }

  /** `m` is the largest fall from an earlier value to the same or a later one. */
  ghost predicate IsMaxFall(m: real, e: seq<real>) {
    && (exists i, j :: 0 <= i <= j < |e| && m == e[i] - e[j])
    && (forall i, j :: 0 <= i <= j < |e| ==> e[i] - e[j] <= m)
  }

  lemma {:induction false} PeakIsMaximum(e: seq<real>)
    requires e != []
    ensures exists i :: 0 <= i < |e| && e[i] == Peak(e)
    ensures forall i :: 0 <= i < |e| ==> e[i] <= Peak(e)
  {
    if |e| == 1 {
      assert e[0] == Peak(e);
    } else {
      var f := e[..|e| - 1];
      PeakIsMaximum(f);
      var i :| 0 <= i < |f| && f[i] == Peak(f);
      assert e[i] == Peak(f) && e[|e| - 1] == e[|e| - 1];
      forall j | 0 <= j < |e| ensures e[j] <= Peak(e) { if j < |f| { assert e[j] == f[j]; } }
    }
  }

  lemma DeepestStep(e: seq<real>)
    requires |e| > 1
    ensures Deepest(e) == Max(Deepest(e[..|e| - 1]), Peak(e) - e[|e| - 1])
  {}

  lemma FallsWithinDeepest(e: seq<real>, m: real, top: real)
    requires |e| > 1 && (forall i :: 0 <= i < |e| ==> e[i] <= top) && IsMaxFall(m, e[..|e| - 1])
    ensures forall i, j :: 0 <= i <= j < |e| ==> e[i] - e[j] <= Max(m, top - e[|e| - 1])
  {
    var n, f := |e| - 1, e[..|e| - 1];
    forall i, j | 0 <= i <= j < |e| ensures e[i] - e[j] <= Max(m, top - e[n]) {
      if j < n { assert f[i] - f[j] <= m; }
    }
  }

  /** The streaming drawdown equals the maximum over every pair of an earlier and a later value. */
  lemma {:induction false} DeepestIsMaxFall(e: seq<real>)
    requires e != []
    ensures IsMaxFall(Deepest(e), e)
  {
    var n := |e| - 1;
    if n == 0 {
      assert Deepest(e) == e[0] - e[0];
    } else {
      var f := e[..n];
      DeepestIsMaxFall(f);
      PeakIsMaximum(e);
      DeepestStep(e);
      hide Deepest, Peak;
      FallsWithinDeepest(e, Deepest(f), Peak(e));
      if Deepest(f) >= Peak(e) - e[n] {
        var i, j :| 0 <= i <= j < |f| && Deepest(f) == f[i] - f[j];
        assert Deepest(e) == e[i] - e[j];
      } else {
        var i :| 0 <= i < |e| && e[i] == Peak(e);
        assert Deepest(e) == e[i] - e[n];
      }
    }
  }

  lemma MaxFallUnique(m: real, n: real, e: seq<real>)
    requires IsMaxFall(m, e) && IsMaxFall(n, e)
    ensures m == n
  {
    var i, j :| 0 <= i <= j < |e| && m == e[i] - e[j];
    var k, l :| 0 <= k <= l < |e| && n == e[k] - e[l];
    assert m <= n && n <= m;
  }

  /** The running maximum of `(peak - value) / peak`. */
  function DeepestPct(e: seq<real>): real
    requires e != [] && 0.0 < e[0]
    decreases |e|
  {
    if |e| == 1 then 0.0 else
    PeakIsMaximum(e);
    Max(DeepestPct(e[..|e| - 1]), (Peak(e) - e[|e| - 1]) / Peak(e))
  }

  function FallPct(high: real, low: real): real
    requires 0.0 < high
  {
    (high - low) / high
  }

  /** `m` is the largest relative fall from an earlier positive value to the same or a later one. */
  ghost predicate IsMaxFallPct(m: real, e: seq<real>) {
    && (exists i, j :: 0 <= i <= j < |e| && 0.0 < e[i] && m == FallPct(e[i], e[j]))
    && (forall i, j :: 0 <= i <= j < |e| && 0.0 < e[i] ==> FallPct(e[i], e[j]) <= m)
  }

  /** Falling to the same low from a higher start is the larger relative fall. */
  lemma FallPctMonotone(high: real, peak: real, low: real)
    requires 0.0 < high <= peak && 0.0 <= low
    ensures FallPct(high, low) <= FallPct(peak, low)
  {
    RatioAntitone(low, high, peak);
    FallPctComplement(high, low);
    FallPctComplement(peak, low);
  }

  lemma RatioAntitone(low: real, high: real, peak: real)
    requires 0.0 < high <= peak && 0.0 <= low
    ensures low / peak <= low / high
  {
    QuotientTimes(low, peak);
    QuotientTimes(low, high);
    var x, y := low / peak, low / high;
    if x > y {
      PositiveProduct(x - y, high);
      MulMonotone(high, peak, x);
      assert false;
    }
  }

  lemma FallPctComplement(high: real, low: real)
    requires 0.0 < high
    ensures FallPct(high, low) == 1.0 - low / high
  {
    QuotientTimes(low, high);
    var x := low / high;
    assert (1.0 - x) * high == high - x * high;
    QuotientUnique(high - low, high, 1.0 - x);
  }

  lemma DeepestPctStep(e: seq<real>)
    requires |e| > 1 && 0.0 < e[0]
    ensures 0.0 < Peak(e) && DeepestPct(e) == Max(DeepestPct(e[..|e| - 1]), FallPct(Peak(e), e[|e| - 1]))
  {
    PeakIsMaximum(e);
  }

  lemma FallsBelowDeepest(e: seq<real>, m: real, top: real)
    requires |e| > 1 && (forall i :: 0 <= i < |e| ==> 0.0 <= e[i] <= top) && 0.0 < top
    requires IsMaxFallPct(m, e[..|e| - 1])
    ensures forall i, j :: 0 <= i <= j < |e| && 0.0 < e[i] ==> FallPct(e[i], e[j]) <= Max(m, FallPct(top, e[|e| - 1]))
  {
    hide FallPct;
    var n, f := |e| - 1, e[..|e| - 1];
    forall i, j | 0 <= i <= j < |e| && 0.0 < e[i] ensures FallPct(e[i], e[j]) <= Max(m, FallPct(top, e[n])) {
      if j < n { assert FallPct(f[i], f[j]) <= m; } else { FallPctMonotone(e[i], top, e[n]); }
    }
  }

  /** The streaming relative drawdown over non-negative values equals the maximum over all pairs. */
  lemma {:induction false} DeepestPctIsMaxFallPct(e: seq<real>)
    requires e != [] && 0.0 < e[0] && forall i :: 0 <= i < |e| ==> 0.0 <= e[i]
    ensures IsMaxFallPct(DeepestPct(e), e)
  {
    var n := |e| - 1;
    if n == 0 {
      FallPctSelf(e[0]);
      hide FallPct;
      assert DeepestPct(e) == FallPct(e[0], e[0]);
    } else {
      var f := e[..n];
      DeepestPctIsMaxFallPct(f);
      PeakIsMaximum(e);
      DeepestPctStep(e);
      hide FallPct, Peak, DeepestPct;
      var top := Peak(e);
      FallsBelowDeepest(e, DeepestPct(f), top);
      if DeepestPct(f) >= FallPct(top, e[n]) {
        var i, j :| 0 <= i <= j < |f| && 0.0 < f[i] && DeepestPct(f) == FallPct(f[i], f[j]);
        assert DeepestPct(e) == FallPct(e[i], e[j]);
      } else {
        var i :| 0 <= i < |e| && e[i] == top;
        assert DeepestPct(e) == FallPct(e[i], e[n]);
      }
    }
  }

  /** The fall to the `j`-th value, relative to the highest value so far. */
  function FallAt(e: seq<real>, j: int): real
    requires 0 <= j < |e| && 0.0 < e[0]
  {
    PeakPositive(e[..j + 1]);
    FallPct(Peak(e[..j + 1]), e[j])
  }

  ghost predicate IsMaxFallFromPeak(m: real, e: seq<real>) {
    && e != [] && 0.0 < e[0]
    && (forall j :: 0 <= j < |e| ==> FallAt(e, j) <= m)
    && (exists j :: 0 <= j < |e| && m == FallAt(e, j))
  }

  lemma PeakPositive(e: seq<real>)
    requires e != [] && 0.0 < e[0]
    ensures 0.0 < Peak(e)
  {
    PeakIsMaximum(e);
  }

  lemma FallAtPrefix(e: seq<real>, n: int, j: int)
    requires 0 <= j < n <= |e| && 0.0 < e[0]
    ensures FallAt(e[..n], j) == FallAt(e, j)
  {
    assert e[..n][..j + 1] == e[..j + 1];
  }

  lemma FallAtLast(e: seq<real>)
    requires e != [] && 0.0 < e[0]
    ensures 0.0 < Peak(e) && FallAt(e, |e| - 1) == FallPct(Peak(e), e[|e| - 1])
  {
    assert e[..|e| - 1 + 1] == e;
    PeakPositive(e);
  }

  /** Whatever signs the values have, the streaming relative drawdown is the largest fall from the peak
      so far. */
  lemma {:induction false} DeepestPctIsFromPeak(e: seq<real>)
    requires e != [] && 0.0 < e[0]
    ensures IsMaxFallFromPeak(DeepestPct(e), e)
  {
    var n := |e| - 1;
    FallAtLast(e);
    if n == 0 {
      FallPctSelf(e[0]);
    } else {
      var f := e[..n];
      DeepestPctIsFromPeak(f);
      DeepestPctStep(e);
      hide FallPct, Peak, DeepestPct, FallAt;
      forall j | 0 <= j < n ensures FallAt(e, j) == FallAt(f, j) { FallAtPrefix(e, n, j); }
      var i :| 0 <= i < n && DeepestPct(f) == FallAt(f, i);
      var best := if DeepestPct(f) >= FallAt(e, n) then i else n;
      assert DeepestPct(e) == FallAt(e, best);
    }
  }

  lemma FallPctDef(high: real, low: real)
    requires 0.0 < high
    ensures FallPct(high, low) == (high - low) / high
  {}

  lemma FallPctSelf(x: real)
    requires 0.0 < x
    ensures FallPct(x, x) == 0.0
  {}
}
