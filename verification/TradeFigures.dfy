/** The figures of an independent backtest, each in terms of its trades. */
module TradeFigures {
  import opened Ordering
  import opened Decimals
  import opened Drawdown
  import opened Analysis
  import opened AnalysisFigures
  import opened TradeMetrics

  /** `x` is the rounded mean of `n` values that add up to `sum`, zero without any. */
  ghost predicate IsRoundedMean(x: real, sum: real, n: int) {
    exists mean :: x == Quantize(mean) && if n == 0 then mean == 0.0 else mean * n as real == sum
  }

  lemma AverageMeaning(sum: real, n: int)
    ensures IsRoundedMean(Quantize(Average(sum, n)), sum, n)
  {
    hide Quantize;
    if n != 0 { QuotientTimes(sum, n as real); }
    assert if n == 0 then Average(sum, n) == 0.0 else Average(sum, n) * n as real == sum;
  }

  /** `x` is the rounded quotient of `a` by `b`. */
  ghost predicate IsRoundedQuotient(x: real, a: real, b: real) { exists y :: x == Quantize(y) && y * b == a }

  lemma QuotientMeaning(a: real, b: real)
    requires b != 0.0
    ensures IsRoundedQuotient(Quantize(a / b), a, b)
  {
    QuotientTimes(a, b);
    hide Quantize;
    assert Quantize(a / b) == Quantize(a / b) && a / b * b == a;
  }

  /** The return of a trade on what its shares cost at the stored entry price. */
  lemma TradeReturnMeaning(t: Realized)
    requires t.trade.entryPrice * t.trade.quantity as real != 0.0
    ensures TradeReturn(t) * (t.trade.entryPrice * t.trade.quantity as real) == t.trade.net
  {
    QuotientTimes(t.trade.net, t.trade.entryPrice * t.trade.quantity as real);
  }

  /** Counts, sums, means and ratios of the report. */
  ghost predicate FiguresAre(r: Metrics, trades: Trades, totalSignals: int, capital: real) {
    var n, profit, loss, net := |trades|, SumOf(trades, Gained), SumOf(trades, Lost), SumOf(trades, Net);
    && r.totalSignals == totalSignals && r.entered == n && r.skipped == totalSignals - n
    && r.wins == |set i | 0 <= i < n && 0.0 < trades[i].trade.net|
    && r.losses == |set i | 0 <= i < n && trades[i].trade.net < 0.0|
    && r.grossProfit == Quantize(profit) && r.grossLoss == Quantize(loss) && r.net == Quantize(net)
    && IsRoundedMean(r.winRate, r.wins as real, n)
    && IsRoundedMean(r.averageReturn, SumOf(trades, TradeReturn), n)
    && IsRoundedMean(r.averageHolding, SumOf(trades, DaysHeld), n)
    && IsRoundedQuotient(r.totalReturn, net, capital)
    && (r.profitFactor.Some? <==> loss < 0.0)
    && (r.profitFactor.Some? ==> IsRoundedQuotient(r.profitFactor.value, profit, -loss))
  }

  lemma FiguresOfTrades(trades: Trades, totalSignals: int, capital: real)
    requires 0.0 < capital
    ensures FiguresAre(Figures(trades, totalSignals, capital), trades, totalSignals, capital)
  {
    var wins, n := Filter(trades, Win), |trades|;
    var profit, loss, net := SumOf(trades, Gained), SumOf(trades, Lost), SumOf(trades, Net);
    CountsMeaning(trades);
    GrossSums(trades);
    HoldingSums(trades);
    LossesLose(trades);
    AverageMeaning(|wins| as real, n);
    AverageMeaning(SumOf(trades, TradeReturn), n);
    AverageMeaning(SumOf(trades, HoldingDays), n);
    QuotientMeaning(net, capital);
    if loss != 0.0 { QuotientMeaning(profit, -loss); }
    hide Quantize, SumOf, Average, IsRoundedMean, IsRoundedQuotient, DeepestPct, EquityCurve, Streak, DecidedTrades,
      Sort, Filter, StatsOf;
  }

  /** The streaks are counted over the trades that gained or lost something. */
  lemma DecidedMeaning(s: Trades, t: Realized)
    ensures multiset(DecidedTrades(s))[t] == if t.trade.net == 0.0 then 0 else multiset(s)[t]
  {
    FilterMultiset(s, Decided, t);
  }

  /** The trades are followed by exit date, then entry date, then symbol, then identity. */
  lemma MetricOrder(trades: Trades)
    ensures var s := Sort(trades, MetricLeq);
      forall i, j :: 0 <= i < j < |s| ==> var a, b := s[i].trade, s[j].trade;
        && a.exitDate <= b.exitDate
        && (a.exitDate == b.exitDate ==> a.entryDate <= b.entryDate)
        && (a.exitDate == b.exitDate && a.entryDate == b.entryDate ==>
              StrLess(a.symbol, b.symbol) || (a.symbol == b.symbol && s[i].id <= s[j].id))
  {
    MetricLeqIsTotalPreorder();
    SortSorts(trades, MetricLeq);
    hide StrLess;
  }
}
