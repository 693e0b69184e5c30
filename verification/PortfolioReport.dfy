/** What the stored snapshots and the reported figures say about the run, field by field. */
module PortfolioReport {
  import opened Dates
  import opened Decimals
  import opened Drawdown
  import opened Backtest
  import opened Sizing
  import opened Portfolio
  import opened PortfolioLedger
  import opened PortfolioRuns
  import opened PortfolioSnapshots
  import opened PortfolioEntries
  import opened PortfolioExecutor

  // ---- equity ----

  /** Equity is cash when nothing is held, and moving one mark moves it by that much for every share. */
  lemma EquityMoves(b: Book, symbol: string, mark: real)
    ensures b.positions == map[] ==> Equity(b) == b.cash
    ensures symbol in b.positions ==> var pos := b.positions[symbol];
      Equity(b.(positions := b.positions[symbol := pos.(lastClose := mark)])) - Equity(b)
        == (mark - pos.lastClose) * pos.quantity as real
  {
    if symbol in b.positions {
      var pos := b.positions[symbol];
      TotalPut(b.positions, Value, symbol, pos.(lastClose := mark));
      Distribute(mark - pos.lastClose, mark, pos.lastClose, pos.quantity as real);
    }
  }

  // ---- snapshots ----

  /** The snapshot of a book in terms of its cash, its equity, the peak so far and what was realized: the
      market value is what equity has beyond cash, the unrealized profit what it has beyond the capital and
      the realized profit, and every field is rounded on its own. */
  ghost predicate Records(s: Snapshot, b: Book, p: PortfolioParameters, peak: real, day: Date) {
    var equity, capital := Equity(b), p.initialCapital;
    && s.date == day && s.openPositions == |b.positions|
    && s.cash == Quantize(b.cash) && s.equity == Quantize(equity) && s.market == Quantize(equity - b.cash)
    && s.realized == Quantize(b.realized) && s.unrealized == Quantize(equity - capital - b.realized)
    && s.peak == Quantize(peak) && s.drawdown == Quantize(peak - equity)
    && (exists share :: s.drawdownPct == Quantize(share) && share * peak == peak - equity)
    && (exists growth :: s.cumulativeReturn == Quantize(growth) && growth * capital == equity - capital)
  }

  lemma RecordsBook(b: Book, p: PortfolioParameters, day: Date)
    requires p.Valid() && Balanced(b, p)
    ensures Records(SnapshotOf(b, p, day), b, p, b.peak, day)
  {
    hide Quantize, Total;
    var equity, capital := Equity(b), p.initialCapital;
    TotalDifference(b.positions);
    QuotientTimes(b.peak - equity, b.peak);
    QuotientTimes(equity, capital);
    var growth := equity / capital - 1.0;
    assert growth * capital == equity - capital;
    var s := SnapshotOf(b, p, day);
    assert s.cumulativeReturn == Quantize(growth);
    assert s.drawdownPct == Quantize((b.peak - equity) / b.peak);
    assert equity - b.cash == Total(b.positions, Value);
    assert equity - capital - b.realized == Total(b.positions, Gain);
  }

  /** Snapshot `j` records the book at the end of day `j`, with the highest equity up to then as its peak. */
  lemma SnapshotFields(p: PortfolioParameters, m: Market, signals: seq<Signal>, j: int)
    requires p.Valid() && m.Valid() && 0 <= j < |m.dates|
    ensures var b := Run(p, m, signals, |m.dates|);
      && |b.snapshots| == |m.dates|
      && Records(b.snapshots[j], Run(p, m, signals, j + 1), p, Peak(Equities(p, m, signals, j + 1)), m.dates[j])
  {
    hide Run, Records, SmallDrift, PositionsOk, Slots, Solvent, SnapshotOf;
    SnapshotsRecordDays(p, m, signals, |m.dates|, j);
    RunHealthy(p, m, signals, j + 1);
    RecordsBook(Run(p, m, signals, j + 1), p, m.dates[j]);
    PeakTracksEquity(p, m, signals, j + 1);
  }

  // ---- utilization ----

  function SumReals(u: seq<real>): real { if u == [] then 0.0 else SumReals(u[..|u| - 1]) + u[|u| - 1] }

  /** `share` is the part of the equity that is invested; nothing without equity. */
  ghost predicate IsInvested(share: real, b: Book) {
    if Equity(b) == 0.0 then share == 0.0 else share * Equity(b) == Equity(b) - b.cash
  }

  /** The invested shares after each of the first `k` days. */
  ghost predicate AreInvested(u: seq<real>, p: PortfolioParameters, m: Market, signals: seq<Signal>, k: int)
    requires p.Valid() && 0 <= k <= |m.dates|
  {
    |u| == k && forall j :: 0 <= j < k ==> IsInvested(u[j], Run(p, m, signals, j + 1))
  }

  lemma {:induction false} UtilizationsAdd(p: PortfolioParameters, m: Market, signals: seq<Signal>, k: int)
    returns (u: seq<real>)
    requires p.Valid() && 0 <= k <= |m.dates|
    ensures AreInvested(u, p, m, signals, k) && SumReals(u) == Run(p, m, signals, k).utilization
    decreases k
  {
    hide Run, IsInvested;
    if k == 0 {
      NoUtilization(p, m, signals);
      u := [];
    } else {
      var w := UtilizationsAdd(p, m, signals, k - 1);
      UtilizationStep(p, m, signals, k);
      var share := Utilization(Run(p, m, signals, k));
      InvestedShare(Run(p, m, signals, k));
      u := w + [share];
      assert u[..k - 1] == w;
    }
  }

  lemma InvestedShare(b: Book)
    ensures IsInvested(Utilization(b), b)
  {
    if Equity(b) != 0.0 { QuotientTimes(Total(b.positions, Value), Equity(b)); }
  }

  // ---- the report ----

  /** Net profit and total return are what was realized, up to rounding, and that is what the trades store. */
  ghost predicate EarnedAsRealized(r: Metrics, capital: real, b: Book) {
    && r.initialCapital == Quantize(capital) && r.finalCash == r.finalEquity == Quantize(b.cash)
    && Abs(r.netProfit - b.realized) <= 2.0 * HALF_QUANTUM
    && Abs(r.totalReturn * capital - b.realized) <= HALF_QUANTUM * (capital + 1.0)
    && Abs(b.realized - StoredNet(b.trades)) <= (|b.trades| as real) * HALF_QUANTUM
  }

  /** The amounts of the report: the final equity is the final cash, the net profit what was realized in the
      run, and the total return that profit relative to the capital, each up to its roundings. */
  lemma ReportedAmounts(p: PortfolioParameters, m: Market, signals: seq<Signal>)
    requires p.Valid() && m.Valid() && Looked(m, signals)
    ensures var b := Run(p, m, signals, |m.dates|); EarnedAsRealized(MetricsOf(p, b, |signals|), p.initialCapital, b)
  {
    hide Run, Quantize, StoredNet, MetricsOf, SmallDrift, EarnedAsRealized;
    var n, b := |m.dates|, Run(p, m, signals, |m.dates|);
    RealizedDrift(p, m, signals);
    FinalAccounting(p, m, signals);
    FinalEquity(p, m, signals);
    QuantizeTwice(b.cash);
    var final := if n == 0 then p.initialCapital else Quantize(b.cash);
    AmountsOf(p, b, |signals|, final);
    QuantizeError(b.cash);
    Earned(MetricsOf(p, b, |signals|), p.initialCapital, b, final);
  }

  lemma Earned(r: Metrics, capital: real, b: Book, final: real)
    requires 0.0 < capital && Abs(final - (capital + b.realized)) <= HALF_QUANTUM && SmallDrift(b.realized, b.trades)
    requires r.initialCapital == Quantize(capital) && r.finalCash == r.finalEquity == Quantize(b.cash)
    requires r.netProfit == Quantize(final - capital) && r.totalReturn == Quantize(final / capital - 1.0)
    ensures EarnedAsRealized(r, capital, b)
  {
    hide Quantize, StoredNet;
    FinalAmounts(capital, b.realized, final);
  }

  lemma RealizedDrift(p: PortfolioParameters, m: Market, signals: seq<Signal>)
    requires p.Valid() && m.Valid()
    ensures var b := Run(p, m, signals, |m.dates|);
      SmallDrift(b.realized, b.trades)
  {
    RunHealthy(p, m, signals, |m.dates|);
    hide Run, SmallDrift, Balanced, PositionsOk, Slots, Solvent;
  }

  lemma AmountsOf(p: PortfolioParameters, b: Book, signals: int, final: real)
    requires p.Valid() && final == if b.snapshots == [] then p.initialCapital else b.snapshots[|b.snapshots| - 1].equity
    ensures var r := MetricsOf(p, b, signals); var capital := p.initialCapital;
      && r.initialCapital == Quantize(capital) && r.finalCash == Quantize(b.cash) && r.finalEquity == Quantize(final)
      && r.netProfit == Quantize(final - capital) && r.totalReturn == Quantize(final / capital - 1.0)
  {
    hide Quantize;
  }

  lemma FinalAmounts(capital: real, realized: real, final: real)
    requires 0.0 < capital && Abs(final - (capital + realized)) <= HALF_QUANTUM
    ensures Abs(Quantize(final - capital) - realized) <= 2.0 * HALF_QUANTUM
    ensures Abs(Quantize(final / capital - 1.0) * capital - realized) <= HALF_QUANTUM * (capital + 1.0)
  {
    hide Quantize;
    QuantizeError(final - capital);
    QuantizeError(final / capital - 1.0);
    GrowthTimes(Quantize(final / capital - 1.0), final, capital, realized, HALF_QUANTUM);
  }

  lemma GrowthTimes(rounded: real, final: real, capital: real, realized: real, h: real)
    requires 0.0 < capital && Abs(rounded - (final / capital - 1.0)) <= h && Abs(final - (capital + realized)) <= h
    ensures Abs(rounded * capital - realized) <= h * (capital + 1.0)
  {
    var ratio := final / capital;
    var growth, error := ratio - 1.0, rounded - (ratio - 1.0);
    QuotientTimes(final, capital);
    Distribute(growth, ratio, 1.0, capital);
    Distribute(error, rounded, growth, capital);
    Scaled(error, h, capital);
    var e, x := error * capital, rounded * capital;
    assert x - realized == e + (final - capital - realized);
    assert h * (capital + 1.0) == h * capital + h;
  }

  lemma Distribute(d: real, x: real, y: real, z: real)
    requires d == x - y
    ensures d * z == x * z - y * z
  {}

  lemma Scaled(x: real, bound: real, z: real)
    requires Abs(x) <= bound && 0.0 <= z
    ensures Abs(x * z) <= bound * z
  {
    MulMonotone(x, bound, z);
    MulMonotone(-bound, x, z);
  }

  /** The remaining figures of the report: drawdowns of the exact equity curve, the counts of trades and skips,
      the most positions open at once, and the mean of the invested shares. */
  lemma ReportedFigures(p: PortfolioParameters, m: Market, signals: seq<Signal>)
    requires p.Valid() && m.Valid() && Looked(m, signals)
    ensures var n := |m.dates|; var b := Run(p, m, signals, n); var e := Equities(p, m, signals, n);
      var r := MetricsOf(p, b, |signals|);
      && (exists fall :: IsMaxFall(fall, e) && r.maxDrawdown == Quantize(fall))
      && (exists fall :: IsMaxFallFromPeak(fall, e) && r.maxDrawdownPct == Quantize(fall))
      && r.totalSignals == |signals| && r.enteredTrades == |b.trades| && r.skippedSignals == |signals| - |b.trades|
      && r.skipReasons == b.skips && SkipCount(r.skipReasons, SkipReason.NoEntryBar) == NoEntryCount(m, signals)
      && IsMostOpen(r.maximumOpenPositionsUsed, p, m, signals, n)
      && exists u :: AreInvested(u, p, m, signals, n)
           && r.averageUtilization == Quantize(if n == 0 then 0.0 else SumReals(u) / n as real)
  {
    hide Run, Quantize, IsMaxFall, IsMaxFallFromPeak, AreInvested, IsMostOpen, SkipCount, NoEntryCount;
    var n := |m.dates|;
    var b := Run(p, m, signals, n);
    MaxDrawdownMeaning(p, m, signals);
    MaxDrawdownPctFromPeak(p, m, signals);
    QuantizedTwice(MaxDrawdown(b.snapshots));
    QuantizedTwice(MaxDrawdownPct(b.snapshots));
    FinalAccounting(p, m, signals);
    CountersMeaning(p, m, signals, n);
    FinalEquity(p, m, signals);
    var u := UtilizationsAdd(p, m, signals, n);
  }

  lemma QuantizedTwice(x: real)
    ensures forall y :: x == Quantize(y) ==> Quantize(x) == x
  {
    forall y | x == Quantize(y) ensures Quantize(x) == x { QuantizeTwice(y); }
  }
}
