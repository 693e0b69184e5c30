/** The figures of an independent backtest, computed from its simulated trades. */
module TradeMetrics {
  import opened Options
  import opened Ordering
  import opened Decimals
  import opened Drawdown
  import opened Analysis

  /** Exit date, entry date, symbol, identity. */
  predicate MetricLeq(a: Realized, b: Realized) {
    a.trade.exitDate < b.trade.exitDate || (a.trade.exitDate == b.trade.exitDate &&
      (a.trade.entryDate < b.trade.entryDate || (a.trade.entryDate == b.trade.entryDate &&
        (StrLess(a.trade.symbol, b.trade.symbol) || (a.trade.symbol == b.trade.symbol && a.id <= b.id)))))
  }

  datatype Metrics = Metrics(
    totalSignals: int,
    entered: int,
    skipped: int,
    wins: int,
    losses: int,
    winRate: real,
    grossProfit: real,
    grossLoss: real,
    net: real,
    totalReturn: real,
    averageReturn: real,
    averageHolding: real,
    profitFactor: Option<real>,
    maxDrawdown: real,
    maxConsecutiveWins: int,
    maxConsecutiveLosses: int)

  /** The equity before the first trade and after each of them. */
  function EquityCurve(capital: real, s: Trades): (e: seq<real>)
    ensures |e| == |s| + 1 && e[0] == capital
    decreases |s|
  {
    if s == [] then [capital] else
    var e := EquityCurve(capital, s[..|s| - 1]);
    e + [e[|s| - 1] + Net(s[|s| - 1])]
  }

  predicate Decided(t: Realized) { t.trade.net != 0.0 }

  /** The trades in metric order, without the breakeven ones. */
  function DecidedTrades(s: Trades): Trades { Filter(s, Decided) }

  /** What a trade cost at its stored entry price. */
  function EntryNotional(t: Realized): real { t.trade.entryPrice * (t.trade.quantity as real) }

  /** The average trade return divides by every entry notional. */
  predicate Divisible(trades: Trades) { forall t :: t in trades ==> EntryNotional(t) != 0.0 }

  function TradeReturn(t: Realized): real { if EntryNotional(t) != 0.0 then Net(t) / EntryNotional(t) else 0.0 }

  /** `sum / n`, or zero without anything to average. */
  function Average(sum: real, n: int): real { if n != 0 then sum / n as real else 0.0 }

  function Figures(trades: Trades, totalSignals: int, capital: real): Metrics
    requires 0.0 < capital
  {
    var ordered := Sort(trades, MetricLeq);
    var wins, losses := Filter(trades, Win), Filter(trades, Loss);
    var profit, loss, net := SumOf(wins, Net), SumOf(losses, Net), SumOf(trades, Net);
    Metrics(totalSignals, |trades|, totalSignals - |trades|, |wins|, |losses|,
            Quantize(Average(|wins| as real, |trades|)),
            Quantize(profit), Quantize(loss), Quantize(net), Quantize(net / capital),
            Quantize(Average(SumOf(trades, TradeReturn), |trades|)),
            Quantize(Average(SumOf(trades, HoldingDays), |trades|)),
            if loss != 0.0 then Some(Quantize(profit / Abs(loss))) else None,
            Quantize(DeepestPct(EquityCurve(capital, ordered))),
            Streak(DecidedTrades(ordered), Win), Streak(DecidedTrades(ordered), Loss))
  }

  // ---- the loop ----

  lemma CurveStep(capital: real, s: Trades, i: int)
    requires 0 <= i < |s| && 0.0 < capital
    ensures var e, f := EquityCurve(capital, s[..i]), EquityCurve(capital, s[..i + 1]);
      && f[i + 1] == e[i] + Net(s[i])
      && Peak(f) == Max(Peak(e), f[i + 1]) && 0.0 < Peak(f)
      && DeepestPct(f) == Max(DeepestPct(e), (Peak(f) - f[i + 1]) / Peak(f))
  {
    assert s[..i + 1][..i] == s[..i];
    var e, f := EquityCurve(capital, s[..i]), EquityCurve(capital, s[..i + 1]);
    assert f[..i + 1] == e;
    PeakPositive(f);
    DeepestPctStep(f);
  }

  /** A breakeven trade leaves both counters alone; the others count and reset. */
  lemma StreaksStep(s: Trades, i: int)
    requires 0 <= i < |s|
    ensures var d, e := DecidedTrades(s[..i]), DecidedTrades(s[..i + 1]);
      && (Decided(s[i]) ==> forall p: Realized -> bool ::
            && Trailing(e, p) == (if p(s[i]) then Trailing(d, p) + 1 else 0)
            && Streak(e, p) == MaxInt(Trailing(e, p), Streak(d, p)))
      && (!Decided(s[i]) ==> e == d)
    ensures forall p: Realized -> bool :: 0 <= Streak(DecidedTrades(s[..i]), p)
  {
    var d, e := DecidedTrades(s[..i]), DecidedTrades(s[..i + 1]);
    assert s[..i + 1] == s[..i] + [s[i]];
    FilterSnoc(s[..i], s[i], Decided);
    if Decided(s[i]) { assert e[..|e| - 1] == d; }
    forall p: Realized -> bool ensures 0 <= Streak(d, p) { StreakNonNegative(d, p); }
  }

  /** The one pass over the ordered trades. */
  method Stream(s: Trades, capital: real) returns (drawdown: real, maxWins: int, maxLosses: int)
    requires 0.0 < capital
    ensures drawdown == DeepestPct(EquityCurve(capital, s))
    ensures maxWins == Streak(DecidedTrades(s), Win) && maxLosses == Streak(DecidedTrades(s), Loss)
  {
    var equity, peak := capital, capital;
    var currentWins, currentLosses := 0, 0;
    drawdown, maxWins, maxLosses := 0.0, 0, 0;
    assert EquityCurve(capital, s[..0]) == [capital];
    hide EquityCurve, DecidedTrades, Trailing, Streak, Peak, DeepestPct;
    StreamNothing(s, capital);
    for i := 0 to |s|
      invariant equity == EquityCurve(capital, s[..i])[i] && peak == Peak(EquityCurve(capital, s[..i])) && 0.0 < peak
      invariant drawdown == DeepestPct(EquityCurve(capital, s[..i]))
      invariant currentWins == Trailing(DecidedTrades(s[..i]), Win) &&
        currentLosses == Trailing(DecidedTrades(s[..i]), Loss)
      invariant maxWins == Streak(DecidedTrades(s[..i]), Win) && maxLosses == Streak(DecidedTrades(s[..i]), Loss)
    {
      var trade := s[i];
      CurveStep(capital, s, i);
      StreaksStep(s, i);
      equity := equity + Net(trade);
      peak := Max(peak, equity);
      if peak != 0.0 {
        drawdown := Max(drawdown, (peak - equity) / peak);
      }
      if Net(trade) > 0.0 {
        currentWins, currentLosses := currentWins + 1, 0;
        maxWins := MaxInt(currentWins, maxWins);
      } else if Net(trade) < 0.0 {
        currentLosses, currentWins := currentLosses + 1, 0;
        maxLosses := MaxInt(currentLosses, maxLosses);
      }
    }
    assert s[..|s|] == s;
  }

  lemma StreamNothing(s: Trades, capital: real)
    requires 0.0 < capital
    ensures EquityCurve(capital, s[..0]) == [capital]
    ensures Peak([capital]) == capital && DeepestPct([capital]) == 0.0
    ensures DecidedTrades(s[..0]) == []
    ensures Trailing([], Win) == Trailing([], Loss) == Streak([], Win) == Streak([], Loss) == 0
  {}

  method Sum(s: Trades, f: Realized -> real) returns (sum: real)
    ensures sum == SumOf(s, f)
  {
    sum := 0.0;
    for i := 0 to |s|
      invariant sum == SumOf(s[..i], f)
    {
      assert s[..i + 1] == s[..i] + [s[i]];
      SumOfSnoc(s[..i], s[i], f);
      sum := sum + f(s[i]);
    }
    assert s[..|s|] == s;
  }

  /** The sum of the trade returns, or nothing where a division by zero would raise. */
  method SumReturns(s: Trades) returns (sum: Option<real>)
    ensures sum.Some? <==> Divisible(s)
    ensures sum.Some? ==> sum.value == SumOf(s, TradeReturn)
  {
    var total := 0.0;
    for i := 0 to |s|
      invariant total == SumOf(s[..i], TradeReturn) && Divisible(s[..i])
    {
      var notional := EntryNotional(s[i]);
      if notional == 0.0 {
        assert s[i] in s;
        return None;
      }
      assert s[..i + 1] == s[..i] + [s[i]];
      SumOfSnoc(s[..i], s[i], TradeReturn);
      total := total + Net(s[i]) / notional;
    }
    assert s[..|s|] == s;
    return Some(total);
  }

  method CalculateMetrics(trades: Trades, totalSignals: int, capital: real) returns (m: Option<Metrics>)
    requires 0.0 < capital
    ensures m.Some? <==> Divisible(trades)
    ensures m.Some? ==> m.value == Figures(trades, totalSignals, capital)
  {
    hide Quantize, SumOf, DeepestPct, Divisible;
    var ordered := Sort(trades, MetricLeq);
    var wins, losses := Filter(trades, Win), Filter(trades, Loss);
    var profit := Sum(wins, Net);
    var loss := Sum(losses, Net);
    var net := Sum(trades, Net);
    var drawdown, maxWins, maxLosses := Stream(ordered, capital);
    var count := |trades|;
    var tradeReturns := SumReturns(trades);
    if tradeReturns.None? {
      return None;
    }
    var holding := Sum(trades, HoldingDays);
    return Some(Metrics(totalSignals, count, totalSignals - count, |wins|, |losses|,
                        Quantize(Average(|wins| as real, count)),
                        Quantize(profit), Quantize(loss), Quantize(net), Quantize(net / capital),
                        Quantize(Average(tradeReturns.value, count)), Quantize(Average(holding, count)),
                        if loss != 0.0 then Some(Quantize(profit / Abs(loss))) else None,
                        Quantize(drawdown), maxWins, maxLosses));
  }

  // ---- what the figures mean ----

  lemma {:induction false} CurveIsShifted(capital: real, s: Trades, i: int)
    requires 0 <= i <= |s|
    ensures EquityCurve(capital, s)[i] == capital + SumOf(s[..i], Net)
    decreases |s|
  {
    if s != [] {
      var n, r := |s| - 1, s[..|s| - 1];
      if i < |s| {
        CurveIsShifted(capital, r, i);
        assert r[..i] == s[..i];
      } else {
        CurveIsShifted(capital, r, n);
        assert r[..n] == r;
        assert s[..i] == r + [s[n]];
        hide SumOf, Net;
        SumOfSnoc(r, s[n], Net);
      }
    }
  }

  /** The figures declaratively: the drawdown is the largest fall from the highest equity so far (and over
      all pairs of points while no point is negative), the streaks are the longest blocks of wins and of
      losses once breakeven trades are left out, and the equity ends at the capital plus the net profit. */
  lemma FiguresMeaning(trades: Trades, totalSignals: int, capital: real)
    requires 0.0 < capital
    ensures var m := Figures(trades, totalSignals, capital); var ordered := Sort(trades, MetricLeq);
      var e := EquityCurve(capital, ordered);
      && (exists fall :: IsMaxFallFromPeak(fall, e) && m.maxDrawdown == Quantize(fall))
      && ((forall i :: 0 <= i < |e| ==> 0.0 <= e[i]) ==>
        exists fall :: IsMaxFallPct(fall, e) && m.maxDrawdown == Quantize(fall))
      && IsLongestBlock(m.maxConsecutiveWins, DecidedTrades(ordered), Win)
      && IsLongestBlock(m.maxConsecutiveLosses, DecidedTrades(ordered), Loss)
      && e[|ordered|] == capital + SumOf(trades, Net)
      && m.entered + m.skipped == totalSignals && m.wins + m.losses <= m.entered
  {
    var ordered := Sort(trades, MetricLeq);
    var e := EquityCurve(capital, ordered);
    DeepestPctIsFromPeak(e);
    if forall i :: 0 <= i < |e| ==> 0.0 <= e[i] { DeepestPctIsMaxFallPct(e); }
    StreakIsLongestBlock(DecidedTrades(ordered), Win);
    StreakIsLongestBlock(DecidedTrades(ordered), Loss);
    CurveIsShifted(capital, ordered, |ordered|);
    assert ordered[..|ordered|] == ordered;
    SumOfPermutation(ordered, trades, Net);
    StatsAddUp(trades);
    hide Quantize, DeepestPct, SumOf, EquityCurve, IsMaxFallFromPeak, IsMaxFallPct, Streak;
    assert Figures(trades, totalSignals, capital).maxDrawdown == Quantize(DeepestPct(e));
  }

  lemma MetricLeqIsTotalPreorder()
    ensures TotalPreorder(MetricLeq)
  {
    forall a, b ensures MetricLeq(a, b) || MetricLeq(b, a) { StrLeqTotal(a.trade.symbol, b.trade.symbol); }
    forall a, b, c | MetricLeq(a, b) && MetricLeq(b, c) ensures MetricLeq(a, c) { MetricLeqTransitive(a, b, c); }
  }

  lemma MetricLeqTransitive(a: Realized, b: Realized, c: Realized)
    requires MetricLeq(a, b) && MetricLeq(b, c)
    ensures MetricLeq(a, c)
  {
    if a.trade.exitDate == c.trade.exitDate && a.trade.entryDate == c.trade.entryDate
       && a.trade.symbol != b.trade.symbol && b.trade.symbol != c.trade.symbol {
      StrLeqTransitive(a.trade.symbol, b.trade.symbol, c.trade.symbol);
      if a.trade.symbol == c.trade.symbol { StrLeqAntisymmetric(a.trade.symbol, b.trade.symbol); }
    }
  }

  /** With distinct identities the figures do not depend on the order in which the trades come. */
  lemma FiguresIgnoreOrder(a: Trades, b: Trades, totalSignals: int, capital: real)
    requires 0.0 < capital && DistinctIds(a) && multiset(a) == multiset(b)
    ensures Figures(a, totalSignals, capital) == Figures(b, totalSignals, capital)
  {
    MetricLeqIsTotalPreorder();
    SameElements(a, b);
    MetricNoTies(a);
    SortPermutation(a, b, MetricLeq);
    SumOfPermutation(a, b, Net);
    SumOfPermutation(a, b, TradeReturn);
    SumOfPermutation(a, b, HoldingDays);
    FilterPermutation(a, b, Win);
    FilterPermutation(a, b, Loss);
    SumOfPermutation(Filter(a, Win), Filter(b, Win), Net);
    SumOfPermutation(Filter(a, Loss), Filter(b, Loss), Net);
    SameElements(Filter(a, Win), Filter(b, Win));
    SameElements(Filter(a, Loss), Filter(b, Loss));
    hide Quantize, SumOf, DeepestPct, Streak, Sort, EquityCurve, Average;
  }

  lemma MetricNoTies(s: Trades)
    requires DistinctIds(s)
    ensures NoTies(s, MetricLeq)
  {
    forall x, y | x in s && y in s && MetricLeq(x, y) && MetricLeq(y, x) ensures x == y {
      if StrLess(x.trade.symbol, y.trade.symbol) && StrLess(y.trade.symbol, x.trade.symbol) {
        StrLeqAntisymmetric(x.trade.symbol, y.trade.symbol);
      }
      assert x.id == y.id;
      var i :| 0 <= i < |s| && s[i] == x;
      var j :| 0 <= j < |s| && s[j] == y;
    }
  }
}
