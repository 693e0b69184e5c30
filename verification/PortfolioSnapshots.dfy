/** The end-of-day snapshots: what they record, how far rounding moves them, and the drawdown
    and utilization figures computed from them. */
module PortfolioSnapshots {
  import opened Dates
  import opened Ordering
  import opened Decimals
  import opened Drawdown
  import opened Backtest
  import opened Portfolio
  import opened PortfolioLedger
  import opened PortfolioRuns

  /** The snapshot that an end-of-day book calls for. */
  ghost function SnapshotOf(b: Book, p: PortfolioParameters, day: Date): Snapshot
    requires p.Valid()
  {
    Snap(day, b.cash, b.realized, Total(b.positions, Value), Total(b.positions, Gain), b.peak, p, |b.positions|)
  }

  /** One snapshot per day, each recording the book at the end of its day. */
  lemma {:induction false} SnapshotsRecordDays(p: PortfolioParameters, m: Market, signals: seq<Signal>, k: int, j: int)
    requires p.Valid() && 0 <= j < k <= |m.dates|
    ensures |Run(p, m, signals, k).snapshots| == k
    ensures Run(p, m, signals, k).snapshots[j] == SnapshotOf(Run(p, m, signals, j + 1), p, m.dates[j])
    decreases k
  {
    hide Quantize, FallPct, Run, Day;
    RunStep(p, m, signals, k);
    var b, t, events := Run(p, m, signals, k - 1), m.Day(k - 1), Events(m, signals, k - 1);
    DaySnapshot(b, p, t, events);
    if k > 1 {
      SnapshotsRecordDays(p, m, signals, k - 1, if j < k - 1 then j else 0);
    } else {
      NoSnapshots(p, m, signals);
    }
  }

  lemma RunStep(p: PortfolioParameters, m: Market, signals: seq<Signal>, k: int)
    requires p.Valid() && 0 < k <= |m.dates|
    ensures Run(p, m, signals, k) == Day(Run(p, m, signals, k - 1), p, m.Day(k - 1), Events(m, signals, k - 1))
  {
    hide Day;
  }

  lemma NoSnapshots(p: PortfolioParameters, m: Market, signals: seq<Signal>)
    requires p.Valid()
    ensures Run(p, m, signals, 0).snapshots == []
  {}

  lemma {:induction false} ExitsKeepSnapshots(b: Book, p: TradingParameters, t: Today, symbols: seq<string>)
    ensures var a := ExitAll(b, p, t, symbols);
      a.snapshots == b.snapshots && a.peak == b.peak && a.utilization == b.utilization
    decreases |symbols|
  {
    hide Quantize, ExactFill, ExitTerms;
    if symbols != [] { ExitsKeepSnapshots(ExitOne(b, p, t, symbols[0]), p, t, symbols[1..]); }
  }

  lemma {:induction false} EntriesKeepSnapshots(b: Book, p: PortfolioParameters, t: Today, events: seq<Signal>)
    requires p.Valid() && HasBars(events, t.bars)
    ensures var a := EnterAll(b, p, t, events);
      a.snapshots == b.snapshots && a.peak == b.peak && a.utilization == b.utilization
    decreases |events|
  {
    hide SizeEntry, EntryPrice;
    if events != [] { EntriesKeepSnapshots(EnterOne(b, p, t, events[0]), p, t, events[1..]); }
  }

  lemma {:induction false} LiquidationKeepsSnapshots(b: Book, p: TradingParameters, t: Today, symbols: seq<string>)
    ensures var a := LiquidateAll(b, p, t, symbols);
      a.snapshots == b.snapshots && a.peak == b.peak && a.utilization == b.utilization
    decreases |symbols|
  {
    hide Quantize, ExactFill;
    if symbols != [] { LiquidationKeepsSnapshots(LiquidateOne(b, p, t, symbols[0]), p, t, symbols[1..]); }
  }

  lemma BeforeMarksKeepsSnapshots(b: Book, p: PortfolioParameters, t: Today, events: seq<Signal>)
    requires p.Valid() && HasBars(events, t.bars)
    ensures var a := BeforeMarks(b, p, t, events);
      a.snapshots == b.snapshots && a.peak == b.peak && a.utilization == b.utilization
  {
    hide ExitAll, EnterAll, LiquidateAll;
    var b1 := AfterExits(b, p, t);
    var b2 := EnterAll(b1, p, t, events);
    ExitsKeepSnapshots(b, p.trading, t, SortedKeys(b.positions.Keys));
    EntriesKeepSnapshots(b1, p, t, events);
    LiquidationKeepsSnapshots(b2, p.trading, t, SortedKeys(b2.positions.Keys));
  }

  lemma DaySnapshot(b: Book, p: PortfolioParameters, t: Today, events: seq<Signal>)
    requires p.Valid() && HasBars(events, t.bars)
    ensures var a := Day(b, p, t, events);
      && a.snapshots == b.snapshots + [SnapshotOf(a, p, t.date)]
      && a.peak == Max(b.peak, Equity(a))
      && a.utilization == b.utilization + Utilization(a)
  {
    hide Snap, Share, AfterExits, EnterAll, AfterLiquidation;
    BeforeMarksKeepsSnapshots(b, p, t, events);
  }

  // ---- rounding ----

  /** The exact identity behind a snapshot, and how far the quantized fields can be from it. */
  lemma SnapshotBalanced(b: Book, p: PortfolioParameters, day: Date)
    requires p.Valid() && Balanced(b, p)
    ensures Equity(b) == p.initialCapital + b.realized + Total(b.positions, Gain)
    ensures var s := SnapshotOf(b, p, day);
      && Abs(s.equity - (p.initialCapital + s.realized + s.unrealized)) <= 3.0 * HALF_QUANTUM
      && Abs(s.equity - (s.cash + s.market)) <= 3.0 * HALF_QUANTUM
  {
    hide Quantize, FallPct;
    TotalDifference(b.positions);
    QuantizeError(b.cash);
    QuantizeError(Total(b.positions, Value));
    QuantizeError(b.realized);
    QuantizeError(Total(b.positions, Gain));
    QuantizeError(Equity(b));
  }

  /** Every stored snapshot satisfies the ledger identity within 1.5e-8. */
  lemma EverySnapshotBalanced(p: PortfolioParameters, m: Market, signals: seq<Signal>, j: int)
    requires p.Valid() && m.Valid() && 0 <= j < |m.dates|
    ensures var b := Run(p, m, signals, |m.dates|);
      && |b.snapshots| == |m.dates|
      && var s := b.snapshots[j];
         && s.date == m.dates[j]
         && Abs(s.equity - (p.initialCapital + s.realized + s.unrealized)) <= 0.000000015
         && Abs(s.equity - (s.cash + s.market)) <= 0.000000015
  {
    hide Run, SmallDrift, PositionsOk, Slots, Quantize, SnapshotOf;
    SnapshotsRecordDays(p, m, signals, |m.dates|, j);
    RunHealthy(p, m, signals, j + 1);
    SnapshotBalanced(Run(p, m, signals, j + 1), p, m.dates[j]);
    SnapshotDate(Run(p, m, signals, j + 1), p, m.dates[j]);
  }

  lemma SnapshotDate(b: Book, p: PortfolioParameters, day: Date)
    requires p.Valid()
    ensures SnapshotOf(b, p, day).date == day
  {
    hide Quantize, FallPct;
  }

  // ---- drawdown ----

  /** The exact equity curve: the initial capital, then one value per day. */
  ghost function Equities(p: PortfolioParameters, m: Market, signals: seq<Signal>, k: int): (e: seq<real>)
    requires p.Valid() && 0 <= k <= |m.dates|
    ensures |e| == k + 1 && e[0] == p.initialCapital
    decreases k
  {
    if k == 0 then [p.initialCapital] else Equities(p, m, signals, k - 1) + [Equity(Run(p, m, signals, k))]
  }

  lemma {:induction false} PeakTracksEquity(p: PortfolioParameters, m: Market, signals: seq<Signal>, k: int)
    requires p.Valid() && 0 <= k <= |m.dates|
    ensures Run(p, m, signals, k).peak == Peak(Equities(p, m, signals, k))
    decreases k
  {
    hide Day, Quantize;
    if k > 0 {
      PeakTracksEquity(p, m, signals, k - 1);
      RunStep(p, m, signals, k);
      DaySnapshot(Run(p, m, signals, k - 1), p, m.Day(k - 1), Events(m, signals, k - 1));
      var e := Equities(p, m, signals, k);
      assert e[..k] == Equities(p, m, signals, k - 1);
    }
  }

  /** `max(..., default=0)` of the stored drawdowns. */
  function MaxDrawdown(s: seq<Snapshot>): real {
    if s == [] then 0.0
    else if |s| == 1 then s[0].drawdown
    else Max(MaxDrawdown(s[..|s| - 1]), s[|s| - 1].drawdown)
  }

  function MaxDrawdownPct(s: seq<Snapshot>): real {
    if s == [] then 0.0
    else if |s| == 1 then s[0].drawdownPct
    else Max(MaxDrawdownPct(s[..|s| - 1]), s[|s| - 1].drawdownPct)
  }

  lemma QuantizeZero()
    ensures Quantize(0.0) == 0.0
  {
    QuantizeFixed(0);
  }

  lemma MaxDrawdownStep(prev: seq<Snapshot>, s: Snapshot, e: seq<real>)
    requires |e| == |prev| + 2 && 0.0 < e[0]
    requires MaxDrawdown(prev) == Quantize(Deepest(e[..|e| - 1]))
    requires MaxDrawdownPct(prev) == Quantize(DeepestPct(e[..|e| - 1]))
    requires s.drawdown == Quantize(Peak(e) - e[|e| - 1])
    requires PeakPositive(e) && s.drawdownPct == Quantize(FallPct(Peak(e), e[|e| - 1]))
    ensures MaxDrawdown(prev + [s]) == Quantize(Deepest(e))
    ensures MaxDrawdownPct(prev + [s]) == Quantize(DeepestPct(e))
  {
    hide Quantize, FallPct;
    var f, low := e[..|e| - 1], e[|e| - 1];
    assert (prev + [s])[..|prev|] == prev;
    PeakIsMaximum(e);
    FallPctDef(Peak(e), low);
    FallPctNonNegative(Peak(e), low);
    if prev == [] { assert Deepest(f) == 0.0 && DeepestPct(f) == 0.0; }
    QuantizeMax(Deepest(f), Peak(e) - low);
    QuantizeMax(DeepestPct(f), FallPct(Peak(e), low));
  }

  ghost predicate PeakPositive(e: seq<real>)
    requires e != []
  {
    0.0 < Peak(e)
  }

  lemma SnapshotFalls(b: Book, p: PortfolioParameters, day: Date)
    requires p.Valid()
    ensures SnapshotOf(b, p, day).drawdown == Quantize(b.peak - Equity(b))
    ensures SnapshotOf(b, p, day).drawdownPct == Quantize(FallPct(b.peak, Equity(b)))
  {
    FallPctDef(b.peak, Equity(b));
    hide Quantize, FallPct;
  }

  /** What day `k - 1` adds to the snapshots, in terms of the exact equity curve. */
  lemma SnapshotAdded(p: PortfolioParameters, m: Market, signals: seq<Signal>, k: int) returns (s: Snapshot)
    requires p.Valid() && 0 < k <= |m.dates|
    ensures Run(p, m, signals, k).snapshots == Run(p, m, signals, k - 1).snapshots + [s]
    ensures var e := Equities(p, m, signals, k);
      && e[..k] == Equities(p, m, signals, k - 1)
      && s.drawdown == Quantize(Peak(e) - e[k])
      && PeakPositive(e) && s.drawdownPct == Quantize(FallPct(Peak(e), e[k]))
  {
    hide Quantize, FallPct, Day, Run, SnapshotOf, Peak;
    var e := Equities(p, m, signals, k);
    assert e[..k] == Equities(p, m, signals, k - 1);
    RunStep(p, m, signals, k);
    DaySnapshot(Run(p, m, signals, k - 1), p, m.Day(k - 1), Events(m, signals, k - 1));
    var a := Run(p, m, signals, k);
    s := SnapshotOf(a, p, m.dates[k - 1]);
    SnapshotFalls(a, p, m.dates[k - 1]);
    PeakTracksEquity(p, m, signals, k);
  }

  lemma {:induction false} MaxDrawdownIsDeepest(p: PortfolioParameters, m: Market, signals: seq<Signal>, k: int)
    requires p.Valid() && 0 <= k <= |m.dates|
    ensures |Run(p, m, signals, k).snapshots| == k
    ensures MaxDrawdown(Run(p, m, signals, k).snapshots) == Quantize(Deepest(Equities(p, m, signals, k)))
    ensures MaxDrawdownPct(Run(p, m, signals, k).snapshots) == Quantize(DeepestPct(Equities(p, m, signals, k)))
    decreases k
  {
    hide Quantize, FallPct, Day, Run, SnapshotOf;
    if k == 0 {
      NoSnapshots(p, m, signals);
      QuantizeZero();
    } else {
      hide MaxDrawdown, MaxDrawdownPct, Deepest, DeepestPct, Peak, Equities;
      MaxDrawdownIsDeepest(p, m, signals, k - 1);
      var s := SnapshotAdded(p, m, signals, k);
      MaxDrawdownStep(Run(p, m, signals, k - 1).snapshots, s, Equities(p, m, signals, k));
    }
  }

  lemma FallPctNonNegative(high: real, low: real)
    requires 0.0 < high && low <= high
    ensures 0.0 <= FallPct(high, low)
  {
    QuotientTimes(high - low, high);
    var x := FallPct(high, low);
    if x < 0.0 { PositiveProduct(-x, high); }
  }

  /** The reported maximum drawdown is the rounded maximum, over every pair of an earlier and a later
      point of the exact equity curve (the initial capital included), of the fall between them. */
  lemma MaxDrawdownMeaning(p: PortfolioParameters, m: Market, signals: seq<Signal>)
    requires p.Valid()
    ensures var n := |m.dates|; var e := Equities(p, m, signals, n);
      exists fall :: IsMaxFall(fall, e) && MaxDrawdown(Run(p, m, signals, n).snapshots) == Quantize(fall)
  {
    hide Run, Quantize;
    var e := Equities(p, m, signals, |m.dates|);
    DeepestIsMaxFall(e);
    MaxDrawdownIsDeepest(p, m, signals, |m.dates|);
    assert IsMaxFall(Deepest(e), e);
  }

  /** With any parameters, the reported percentage is the rounded largest fall from the running peak. */
  lemma MaxDrawdownPctFromPeak(p: PortfolioParameters, m: Market, signals: seq<Signal>)
    requires p.Valid()
    ensures var n := |m.dates|; var e := Equities(p, m, signals, n);
      exists fall :: IsMaxFallFromPeak(fall, e) && MaxDrawdownPct(Run(p, m, signals, n).snapshots) == Quantize(fall)
  {
    hide Run, Quantize;
    var e := Equities(p, m, signals, |m.dates|);
    DeepestPctIsFromPeak(e);
    MaxDrawdownIsDeepest(p, m, signals, |m.dates|);
    assert IsMaxFallFromPeak(DeepestPct(e), e);
  }

  // ---- utilization ----

  ghost function Utilization(b: Book): real {
    Share(Total(b.positions, Value), Equity(b))
  }

  /** What is held leaves the buffer in cash. */
  ghost predicate HeldSolvent(b: Book, p: PortfolioParameters) { b.positions != map[] ==> Solvent(b, p) }

  lemma ValuesNonNegative(b: Book, p: PortfolioParameters)
    requires p.Valid() && Sound(b, p)
    ensures 0.0 <= Total(b.positions, Value)
  {
    hide Balanced, SmallDrift, Slots, BuyCommission, EntryPrice;
    forall s | s in b.positions ensures Value(b.positions[s]) >= 0.0 {
      assert PositionOk(s, b.positions[s], p.trading);
      MulMonotone(0.0, b.positions[s].lastClose, b.positions[s].quantity as real);
    }
    TotalNonNegative(b.positions, Value);
  }

  lemma EquityNonNegative(b: Book, p: PortfolioParameters)
    requires p.Valid() && Healthy(b, p) && CheapSales(p)
    ensures 0.0 <= Total(b.positions, Value) <= Equity(b)
  {
    ValuesNonNegative(b, p);
    MulMonotone(0.0, p.initialCapital, p.minimumCashBufferPct);
  }

  lemma UtilizationBounds(b: Book, p: PortfolioParameters)
    requires p.Valid() && Sound(b, p) && HeldSolvent(b, p)
    ensures 0.0 <= Utilization(b) <= 1.0
  {
    if b.positions == map[] {
      assert Total(b.positions, Value) == 0.0;
    } else {
      ValuesNonNegative(b, p);
      MulMonotone(0.0, p.initialCapital, p.minimumCashBufferPct);
      hide Sound;
      if Equity(b) != 0.0 { DivBounds(Total(b.positions, Value), Equity(b)); }
    }
  }

  lemma UtilizationStep(p: PortfolioParameters, m: Market, signals: seq<Signal>, k: int)
    requires p.Valid() && 0 < k <= |m.dates|
    ensures Run(p, m, signals, k).utilization ==
      Run(p, m, signals, k - 1).utilization + Utilization(Run(p, m, signals, k))
  {
    hide Day, Utilization, Run;
    RunStep(p, m, signals, k);
    DaySnapshot(Run(p, m, signals, k - 1), p, m.Day(k - 1), Events(m, signals, k - 1));
  }

  lemma {:induction false} UtilizationSum(p: PortfolioParameters, m: Market, signals: seq<Signal>, k: int)
    requires p.Valid() && m.Valid() && 0 <= k <= |m.dates|
    requires forall j :: 0 < j <= k ==> HeldSolvent(Run(p, m, signals, j), p)
    ensures 0.0 <= Run(p, m, signals, k).utilization <= k as real
    decreases k
  {
    hide Sound, Solvent, Utilization, Run, HeldSolvent, Settled, EventCount, NoEntryCount;
    if k == 0 {
      NoUtilization(p, m, signals);
    } else {
      UtilizationSum(p, m, signals, k - 1);
      UtilizationStep(p, m, signals, k);
      RunHealthy(p, m, signals, k);
      UtilizationBounds(Run(p, m, signals, k), p);
    }
  }

  lemma NoUtilization(p: PortfolioParameters, m: Market, signals: seq<Signal>)
    requires p.Valid()
    ensures Run(p, m, signals, 0).utilization == 0.0
  {}

  /** The reported average utilization: the mean over the snapshots, zero without any. */
  function AverageUtilization(sum: real, n: int): real { Quantize(if n == 0 then 0.0 else sum / n as real) }

  ghost predicate UtilizationInRange(p: PortfolioParameters, m: Market, signals: seq<Signal>)
    requires p.Valid()
  {
    0.0 <= AverageUtilization(Run(p, m, signals, |m.dates|).utilization, |m.dates|) <= 1.0
  }

  /** While what is held leaves the buffer in cash, the average stays between zero and one, after rounding
      as well. */
  lemma AverageUtilizationBounds(p: PortfolioParameters, m: Market, signals: seq<Signal>)
    requires p.Valid() && m.Valid()
    requires forall j :: 0 < j <= |m.dates| ==> HeldSolvent(Run(p, m, signals, j), p)
    ensures UtilizationInRange(p, m, signals)
  {
    hide Run, Quantize, HeldSolvent;
    var n := |m.dates|;
    UtilizationSum(p, m, signals, n);
    var mean := if n == 0 then 0.0 else Run(p, m, signals, n).utilization / n as real;
    if n > 0 { DivBounds(Run(p, m, signals, n).utilization, n as real); }
    QuantizeMonotone(0.0, mean);
    QuantizeMonotone(mean, 1.0);
    QuantizeZero();
    QuantizeOne();
  }

  lemma QuantizeOne()
    ensures Quantize(1.0) == 1.0
  {
    QuantizeFixed(100000000);
  }

  /** With sale costs of at most the sale, the relative drawdown has the same declarative meaning. */
  lemma MaxDrawdownPctMeaning(p: PortfolioParameters, m: Market, signals: seq<Signal>)
    requires p.Valid() && m.Valid() && CheapSales(p)
    ensures var n := |m.dates|; var e := Equities(p, m, signals, n);
      exists fall :: IsMaxFallPct(fall, e) && MaxDrawdownPct(Run(p, m, signals, n).snapshots) == Quantize(fall)
  {
    hide Run, Quantize;
    var n := |m.dates|;
    var e := Equities(p, m, signals, n);
    EquitiesNonNegative(p, m, signals, n);
    DeepestPctIsMaxFallPct(e);
    MaxDrawdownIsDeepest(p, m, signals, n);
    assert IsMaxFallPct(DeepestPct(e), e);
  }

  lemma {:induction false} EquitiesNonNegative(p: PortfolioParameters, m: Market, signals: seq<Signal>, k: int)
    requires p.Valid() && m.Valid() && CheapSales(p) && 0 <= k <= |m.dates|
    ensures forall i :: 0 <= i <= k ==> 0.0 <= Equities(p, m, signals, k)[i]
    decreases k
  {
    hide Run, Healthy;
    if k > 0 {
      EquitiesNonNegative(p, m, signals, k - 1);
      RunHealthy(p, m, signals, k);
      EquityNonNegative(Run(p, m, signals, k), p);
    }
  }
}
