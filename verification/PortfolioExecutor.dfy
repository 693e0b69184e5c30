/** The executor as it runs: objects updated event by event inside a loop over the calendar. Each
    method is tied to the function of the same step in module Portfolio. */
module PortfolioExecutor {
  import opened Dates
  import opened Options
  import opened Ordering
  import opened Decimals
  import opened Drawdown
  import opened Backtest
  import opened Sizing
  import opened Portfolio
  import opened PortfolioLedger
  import opened PortfolioRuns
  import opened PortfolioSchedule
  import opened PortfolioSnapshots

  class PortfolioState {
    const initialCapital: real
    var cash: real
    var runningPeak: Positive
    var realizedPnl: real
    var positions: Positions

    constructor Create(capital: real)
      requires 0.0 < capital
      ensures initialCapital == cash == runningPeak == capital && realizedPnl == 0.0 && positions == map[]
    {
      initialCapital, cash, runningPeak, realizedPnl, positions := capital, capital, capital, 0.0, map[];
    }

    /** Cash plus the open positions at their last close, summed in whatever order they come. */
    method Equity() returns (e: real)
      ensures e == cash + Total(positions, Value)
    {
      var market := SumOver(positions, Value);
      e := cash + market;
    }
  }

  /** A sum over the values of a dictionary. */
  method SumOver(m: Positions, f: Position -> real) returns (sum: real)
    ensures sum == Total(m, f)
  {
    sum := 0.0;
    var rest := m;
    while rest != map[]
      invariant sum + Total(rest, f) == Total(m, f)
      decreases |rest|
    {
      assert rest.Keys != {};
      var k :| k in rest.Keys;
      TotalRemove(rest, f, k);
      assert (rest - {k}).Keys == rest.Keys - {k};
      sum, rest := sum + f(rest[k]), rest - {k};
    }
  }

  datatype Metrics = Metrics(
    initialCapital: real,
    finalEquity: real,
    finalCash: real,
    netProfit: real,
    totalReturn: real,
    maxDrawdown: real,
    maxDrawdownPct: real,
    totalSignals: int,
    enteredTrades: int,
    skippedSignals: int,
    skipReasons: Skips,
    maximumOpenPositionsUsed: int,
    averageUtilization: real)

  ghost function MetricsOf(p: PortfolioParameters, b: Book, signals: int): Metrics
    requires p.Valid()
  {
    var finalEquity := if b.snapshots == [] then p.initialCapital else b.snapshots[|b.snapshots| - 1].equity;
    Metrics(Quantize(p.initialCapital), Quantize(finalEquity), Quantize(b.cash),
            Quantize(finalEquity - p.initialCapital), Quantize(finalEquity / p.initialCapital - 1.0),
            Quantize(MaxDrawdown(b.snapshots)), Quantize(MaxDrawdownPct(b.snapshots)), signals, |b.trades|,
            SkipTotal(b.skips), b.skips, b.maximumOpen, AverageUtilization(b.utilization, |b.snapshots|))
  }

  /** The amounts of a sale: what the trade records and what the cash account receives. */
  method Settlement(pos: Position, rawExit: real, p: TradingParameters) returns (fill: Fill, proceeds: real)
    requires pos.entryPrice == EntryPrice(pos.entryRaw, p)
    requires pos.buyCommission == BuyCommission(pos.entryPrice, pos.quantity, p)
    ensures fill == PositionFill(pos, rawExit, p)
    ensures proceeds == Proceeds(rawExit, pos.quantity, p)
  {
    hide ExitPrice, EntryPrice;
    var exitPrice := ExitPrice(rawExit, p);
    var q := pos.quantity as real;
    var sellNotional := exitPrice * q;
    var sellCommission := sellNotional * p.commission;
    var tax := sellNotional * p.sellTax;
    proceeds := sellNotional - sellCommission - tax;
    var gross := (exitPrice - pos.entryPrice) * q;
    var commission := pos.buyCommission + sellCommission;
    fill := Fill(pos.entryPrice, exitPrice, gross, commission, tax,
                 ((pos.entryPrice - pos.entryRaw) + (rawExit - exitPrice)) * q, gross - commission - tax);
  }

  class PortfolioExecution {
    const p: PortfolioParameters
    const state: PortfolioState
    var trades: seq<Trade>
    var skips: Skips
    var snapshots: seq<Snapshot>
    var maximumOpen: int
    var utilizationSum: real

    /** The abstract book that the fields of the two objects make up. */
    ghost function View(): Book
      reads this, state
    {
      Book(state.cash, state.runningPeak, state.realizedPnl, state.positions, trades, skips, snapshots, maximumOpen,
        utilizationSum)
    }

    constructor (p: PortfolioParameters, noEntry: int)
      requires p.Valid()
      ensures this.p == p && fresh(state) && View() == Start(p, noEntry)
    {
      this.p := p;
      state := new PortfolioState.Create(p.initialCapital);
      trades, snapshots, maximumOpen, utilizationSum := [], [], 0, 0.0;
      skips := if noEntry == 0 then map[] else map[SkipReason.NoEntryBar := noEntry];
    }

    method ClosePosition(symbol: string, pos: Position, day: Date, rawExit: real, reason: ExitReason)
      requires pos.entryPrice == EntryPrice(pos.entryRaw, p.trading)
      requires pos.buyCommission == BuyCommission(pos.entryPrice, pos.quantity, p.trading)
      modifies this, state
      ensures View() == Portfolio.ClosePosition(old(View()), p.trading, symbol, pos, day, rawExit, reason)
    {
      hide Quantize, ExactFill, Proceeds;
      var fill, proceeds := Settlement(pos, rawExit, p.trading);
      state.cash := state.cash + proceeds;
      state.realizedPnl := state.realizedPnl + fill.net;
      trades := trades + [RecordTrade(pos.signal, pos.entryDate, pos.quantity,
        Exit(day, reason, rawExit, pos.holdingDays), fill)];
      state.positions := state.positions - {symbol};
    }

    /** Existing positions see today's bar before any entry, in symbol order. */
    method ExitExisting(t: Today)
      requires PositionsOk(state.positions, p.trading)
      modifies this, state
      ensures View() == AfterExits(old(View()), p, t)
    {
      var symbols := SortKeys(state.positions.Keys);
      var i := 0;
      while i < |symbols|
        invariant 0 <= i <= |symbols|
        invariant forall s :: s in state.positions ==> Priced(s, state.positions[s])
        invariant ExitAll(View(), p.trading, t, symbols[i..]) == AfterExits(old(View()), p, t)
      {
        hide ExitTerms, EntryPrice, BuyCommission;
        assert symbols[i..][0] == symbols[i] && symbols[i..][1..] == symbols[i + 1..];
        ExitIfDue(t, symbols[i]);
        i := i + 1;
      }
    }

    /** The part of `PositionOk` that closing relies on. */
    ghost predicate Priced(symbol: string, pos: Position) {
      && pos.entryPrice == EntryPrice(pos.entryRaw, p.trading)
      && pos.buyCommission == BuyCommission(pos.entryPrice, pos.quantity, p.trading)
    }

    method ExitIfDue(t: Today, symbol: string)
      requires forall s :: s in state.positions ==> Priced(s, state.positions[s])
      modifies this, state
      ensures View() == ExitOne(old(View()), p.trading, t, symbol)
      ensures forall s :: s in state.positions ==> Priced(s, state.positions[s])
    {
      hide ExitTerms, EntryPrice, BuyCommission, Quantize, ExactFill, Proceeds;
      if symbol !in state.positions {
        return;
      }
      var position := state.positions[symbol];
      var bar: Option<Bar> := if symbol in t.bars then Some(t.bars[symbol]) else None;
      if bar.None? && t.final {
        bar := Some(FlatBar(position.lastClose));
      }
      if bar.None? {
        return;
      }
      position := position.(holdingDays := position.holdingDays + 1);
      var terms := ExitTerms(position.entryPrice, position.holdingDays, bar.value, p.trading, t.final);
      if terms.None? {
        state.positions := state.positions[symbol := position];
      } else {
        ClosePosition(symbol, position, t.date, terms.value.1, terms.value.0);
      }
    }

    /** Entries are sized on the marks of the previous day, in the order of the signals. */
    method EnterSignals(t: Today, events: seq<Signal>)
      requires p.Valid() && HasBars(events, t.bars)
      modifies this, state
      ensures HasBars(Sort(events, SignalLeq), t.bars)
      ensures View() == EnterAll(old(View()), p, t, Sort(events, SignalLeq))
    {
      var ordered := Sort(events, SignalLeq);
      SortedHasBars(events, t.bars);
      var i := 0;
      while i < |ordered|
        invariant 0 <= i <= |ordered|
        invariant HasBars(ordered[i..], t.bars)
        invariant EnterAll(View(), p, t, ordered[i..]) == EnterAll(old(View()), p, t, ordered)
      {
        assert ordered[i..][0] == ordered[i] && ordered[i..][1..] == ordered[i + 1..];
        EnterSignal(t, ordered[i]);
        i := i + 1;
      }
    }

    method Size(price: real) returns (r: Sizing)
      requires p.Valid()
      ensures r == SizeEntry(View(), p, price)
    {
      hide Target, Affordable;
      var equity := state.Equity();
      assert equity == Portfolio.Equity(View());
      r := AffordableQuantity(Target(equity, p), state.cash, p.Buffer(), price, p.trading.commission);
    }

    method EnterSignal(t: Today, signal: Signal)
      requires p.Valid() && signal.symbol in t.bars
      modifies this, state
      ensures View() == EnterOne(old(View()), p, t, signal)
    {
      hide EntryPrice, SizeEntry, Quantize;
      var skipReason: Option<SkipReason> := None;
      if signal.symbol in state.positions {
        skipReason := Some(DuplicateSymbol);
      } else if |state.positions| >= p.maxOpenPositions {
        skipReason := Some(MaxOpenPositions);
      }
      var bar := t.bars[signal.symbol];
      var effective := EntryPrice(bar.open, p.trading);
      var quantity := 0;
      if skipReason.None? {
        var sized := Size(effective);
        match sized {
          case Buy(q) => quantity := q;
          case Refuse(reason) => skipReason := Some(reason);
        }
      }
      if skipReason.Some? {
        skips := Bump(skips, skipReason.value);
        return;
      }
      var commission := BuyCommission(effective, quantity, p.trading);
      var required := effective * (quantity as real) + commission;
      assert required == Cost(Bought(p.trading, t.date, bar.open, signal, quantity));
      hide Cost, BuyCommission;
      if required > state.cash {
        skips := Bump(skips, InsufficientCash);
        return;
      }
      state.cash := state.cash - required;
      state.positions := state.positions[signal.symbol := Position(signal, t.date, bar.open, effective, quantity,
        commission, effective, 0)];
      maximumOpen := MaxInt(maximumOpen, |state.positions|);
    }

    /** What was entered on the last day leaves at its close. */
    method LiquidateSameDay(t: Today)
      requires PositionsOk(state.positions, p.trading) && OpenedToday(state.positions, t)
      modifies this, state
      ensures View() == LiquidateAll(old(View()), p.trading, t, SortedKeys(old(state.positions.Keys)))
    {
      var symbols := SortKeys(state.positions.Keys);
      var i := 0;
      while i < |symbols|
        invariant 0 <= i <= |symbols|
        invariant forall s :: s in state.positions ==> Priced(s, state.positions[s]) && s in t.bars
        invariant LiquidateAll(View(), p.trading, t, symbols[i..]) == LiquidateAll(old(View()), p.trading, t, symbols)
      {
        hide EntryPrice, BuyCommission, LiquidateOne;
        assert symbols[i..][0] == symbols[i] && symbols[i..][1..] == symbols[i + 1..];
        LiquidateIfToday(t, symbols[i]);
        i := i + 1;
      }
    }

    method LiquidateIfToday(t: Today, symbol: string)
      requires forall s :: s in state.positions ==> Priced(s, state.positions[s]) && s in t.bars
      modifies this, state
      ensures View() == LiquidateOne(old(View()), p.trading, t, symbol)
      ensures forall s :: s in state.positions ==> Priced(s, state.positions[s]) && s in t.bars
    {
      hide EntryPrice, BuyCommission, Quantize, ExactFill, Proceeds;
      if symbol in state.positions && state.positions[symbol].entryDate == t.date {
        ClosePosition(symbol, state.positions[symbol], t.date, t.bars[symbol].close, EndOfPeriod);
      }
    }

    /** Closing marks, then the snapshot of the day. */
    method MarkAndSnapshot(t: Today)
      requires p.Valid()
      modifies this, state
      ensures View() == MarkDay(old(View()), p, t)
    {
      hide Quantize;
      Mark(t);
      var market := SumOver(state.positions, Value);
      var unrealized := SumOver(state.positions, Gain);
      var equity := state.cash + market;
      state.runningPeak := Max(state.runningPeak, equity);
      var drawdown := state.runningPeak - equity;
      utilizationSum := utilizationSum + (if equity != 0.0 then market / equity else 0.0);
      snapshots := snapshots + [Snapshot(t.date, Quantize(state.cash), Quantize(market), Quantize(state.realizedPnl),
                                         Quantize(unrealized), Quantize(equity),
                                         Quantize(equity / p.initialCapital - 1.0), Quantize(state.runningPeak),
                                         Quantize(drawdown), Quantize(drawdown / state.runningPeak),
                                         |state.positions|)];
    }

    /** Every open position with a bar today takes its close as the new mark. */
    method Mark(t: Today)
      modifies state
      ensures View() == old(View()).(positions := Marked(old(state.positions), t.bars))
    {
      var todo := state.positions.Keys;
      ghost var before := state.positions;
      while todo != {}
        invariant todo <= before.Keys && state.positions.Keys == before.Keys
        invariant forall s :: s in before ==>
          state.positions[s] == if s in todo then before[s] else Marked(before, t.bars)[s]
        invariant View() == old(View()).(positions := state.positions)
        decreases todo
      {
        var symbol :| symbol in todo;
        if symbol in t.bars {
          state.positions := state.positions[symbol := state.positions[symbol].(lastClose := t.bars[symbol].close)];
        }
        todo := todo - {symbol};
      }
      assert state.positions == Marked(before, t.bars);
    }

    /** One calendar day: exits, entries, final liquidation, marks. */
    method RunDay(t: Today, events: seq<Signal>)
      requires p.Valid() && HasBars(events, t.bars) && ValidBars(t.bars) && Healthy(View(), p)
      modifies this, state
      ensures HasBars(Sort(events, SignalLeq), t.bars)
      ensures View() == Day(old(View()), p, t, Sort(events, SignalLeq))
      ensures Healthy(View(), p)
    {
      ghost var b, ordered := View(), Sort(events, SignalLeq);
      SortedHasBars(events, t.bars);
      DayHealthy(b, p, t, ordered);
      ExitAllHealthy(b, p, t, SortedKeys(b.positions.Keys));
      EnterAllHealthy(AfterExits(b, p, t), p, t, ordered);
      if t.final { AllOpenedToday(b, p, t, ordered); }
      hide ExitAll, EnterAll, LiquidateAll, MarkDay, Balanced, SmallDrift, Slots, Solvent;
      ExitExisting(t);
      EnterSignals(t, events);
      if t.final {
        LiquidateSameDay(t);
      }
      MarkAndSnapshot(t);
    }
  }

  lemma SortedHasBars(events: seq<Signal>, bars: map<string, Bar>)
    requires HasBars(events, bars)
    ensures HasBars(Sort(events, SignalLeq), bars)
  {
    SameElements(Sort(events, SignalLeq), events);
  }

  lemma AllOpenedToday(b: Book, p: PortfolioParameters, t: Today, events: seq<Signal>)
    requires p.Valid() && HasBars(events, t.bars) && t.final
    ensures OpenedToday(EnterAll(AfterExits(b, p, t), p, t, events).positions, t)
  {
    hide ExitAll, EnterAll;
    FinalExits(b, p.trading, t, SortedKeys(b.positions.Keys));
    EntriesOpenedToday(AfterExits(b, p, t), p, t, events);
  }

  // ---- the whole execution ----

  method FindEntryDay(m: Market, s: Signal) returns (e: Entry)
    ensures e == FindEntry(m, s, 0)
  {
    var i := 0;
    while i < |m.dates|
      invariant 0 <= i <= |m.dates|
      invariant FindEntry(m, s, i) == FindEntry(m, s, 0)
    {
      if m.dates[i] > s.date {
        if m.dates[i] !in m.byDate {
          return MissingDay;
        }
        if s.symbol in m.byDate[m.dates[i]] {
          return At(i);
        }
      }
      i := i + 1;
    }
    return NoEntry;
  }

  datatype Execution = Completed(metrics: Metrics, trades: seq<Trade>, snapshots: seq<Snapshot>) | LookupFailed

  /** Groups the signals by entry day and counts those without one. */
  method EntryEvents(m: Market, signals: seq<Signal>) returns (ok: bool, events: map<int, seq<Signal>>, noEntry: int)
    ensures ok <==> Looked(m, signals)
    ensures ok ==> noEntry == NoEntryCount(m, signals)
    ensures ok ==> Scheduled(m, signals, events)
  {
    hide FindEntry, HasEntry;
    events, noEntry := map[], 0;
    var i := 0;
    while i < |signals|
      invariant 0 <= i <= |signals|
      invariant Looked(m, signals[..i])
      invariant noEntry == NoEntryCount(m, signals[..i])
      invariant Scheduled(m, signals[..i], events)
    {
      var s := signals[i];
      assert signals[..i + 1] == signals[..i] + [s];
      var e := FindEntryDay(m, s);
      ScheduleStep(m, signals[..i], s, events);
      match e {
        case MissingDay =>
          assert s in signals;
          return false, events, noEntry;
        case NoEntry => noEntry := noEntry + 1;
        case At(d) => events := events[d := EventsOn(events, d) + [s]];
      }
      i := i + 1;
    }
    assert signals[..|signals|] == signals;
    return true, events, noEntry;
  }

  /** What one more signal adds to the schedule. */
  lemma ScheduleStep(m: Market, signals: seq<Signal>, s: Signal, events: map<int, seq<Signal>>)
    requires Scheduled(m, signals, events)
    ensures var e := FindEntry(m, s, 0);
      && NoEntryCount(m, signals + [s]) == NoEntryCount(m, signals) + (if e == NoEntry then 1 else 0)
      && Scheduled(m, signals + [s], if e.At? then events[e.index := EventsOn(events, e.index) + [s]] else events)
  {
    hide FindEntry;
    FilterSnoc(signals, s, HasEntry(m, NoEntry));
    forall d | 0 <= d < |m.dates|
      ensures Events(m, signals + [s], d) ==
        if FindEntry(m, s, 0) == At(d) then Events(m, signals, d) + [s] else Events(m, signals, d)
    {
      FilterSnoc(signals, s, HasEntry(m, At(d)));
    }
  }

  /** What is scheduled for day `d`; `entry_events.get(day, [])`. */
  function EventsOn(events: map<int, seq<Signal>>, d: int): seq<Signal> { if d in events then events[d] else [] }

  ghost predicate Scheduled(m: Market, signals: seq<Signal>, events: map<int, seq<Signal>>) {
    forall d :: 0 <= d < |m.dates| ==> EventsOn(events, d) == Events(m, signals, d)
  }

  lemma RunStart(p: PortfolioParameters, m: Market, signals: seq<Signal>)
    requires p.Valid()
    ensures Run(p, m, signals, 0) == Start(p, NoEntryCount(m, signals))
  {}

  lemma RunDayHealthy(p: PortfolioParameters, m: Market, signals: seq<Signal>, k: int)
    requires p.Valid() && m.Valid() && 0 <= k < |m.dates|
    ensures Healthy(Run(p, m, signals, k), p) && ValidBars(m.Bars(k)) && HasBars(Events(m, signals, k), m.Bars(k))
  {
    hide Healthy, Run;
    RunHealthy(p, m, signals, k);
  }

  /** The loop over the calendar. */
  method RunAllDays(p: PortfolioParameters, m: Market, ghost signals: seq<Signal>, events: map<int, seq<Signal>>,
                    noEntry: int)
    returns (run: PortfolioExecution)
    requires p.Valid() && m.Valid() && noEntry == NoEntryCount(m, signals) && Scheduled(m, signals, events)
    requires Sorted(signals, SignalLeq)
    ensures fresh(run) && fresh(run.state)
    ensures run.p == p && run.View() == Run(p, m, signals, |m.dates|)
  {
    hide Day, Healthy, Events, NoEntryCount, Run, HasBars, ValidBars, Start;
    run := new PortfolioExecution(p, noEntry);
    RunStart(p, m, signals);
    var k := 0;
    while k < |m.dates|
      invariant 0 <= k <= |m.dates| && run.p == p && fresh(run) && fresh(run.state)
      invariant run.View() == Run(p, m, signals, k)
    {
      RunDayHealthy(p, m, signals, k);
      RunStep(p, m, signals, k + 1);
      EventsSorted(m, signals, k);
      run.RunDay(m.Day(k), EventsOn(events, k));
      k := k + 1;
    }
  }

  /** The reported figures of a finished run. */
  method Report(run: PortfolioExecution, signals: int) returns (r: Metrics)
    requires run.p.Valid()
    ensures r == MetricsOf(run.p, run.View(), signals)
  {
    hide Quantize;
    var s, capital := run.snapshots, run.p.initialCapital;
    var finalEquity := if s == [] then capital else s[|s| - 1].equity;
    r := Metrics(
      Quantize(capital), Quantize(finalEquity), Quantize(run.state.cash), Quantize(finalEquity - capital),
      Quantize(finalEquity / capital - 1.0), Quantize(MaxDrawdown(s)), Quantize(MaxDrawdownPct(s)),
      signals, |run.trades|, SkipTotal(run.skips), run.skips, run.maximumOpen,
      AverageUtilization(run.utilizationSum, |s|));
  }

  /** What a backtest of the generated signals yields. */
  ghost function ExecutionOf(p: PortfolioParameters, m: Market, generated: seq<Signal>): Execution
    requires p.Valid()
  {
    if Looked(m, generated) then
      var b := Run(p, m, Sort(generated, SignalLeq), |m.dates|);
      Completed(MetricsOf(p, b, |generated|), b.trades, b.snapshots)
    else LookupFailed
  }

  /** The result does not depend on the order in which the signals were generated. */
  lemma ExecutionIgnoresOrder(p: PortfolioParameters, m: Market, x: seq<Signal>, y: seq<Signal>)
    requires p.Valid() && multiset(x) == multiset(y)
    ensures ExecutionOf(p, m, x) == ExecutionOf(p, m, y)
  {
    hide FindEntry, Run, MetricsOf;
    SameElements(x, y);
    SignalsIgnoreOrder(x, y);
  }

  /** The whole backtest: sort the signals, schedule the entries, run every day, report. */
  method Execute(p: PortfolioParameters, m: Market, generated: seq<Signal>) returns (r: Execution)
    requires p.Valid() && m.Valid()
    ensures r.LookupFailed? <==> exists s, k :: s in generated && FailsAt(m, s, 0, k)
    ensures r == ExecutionOf(p, m, generated)
  {
    hide Run, FindEntry, MetricsOf, NoEntryCount, Scheduled, FailsAt;
    var signals := Sort(generated, SignalLeq);
    SameElements(signals, generated);
    SignalsIgnoreOrder(generated, generated);
    LookedExactly(m, generated);
    hide SignalLeq;
    var ok, events, noEntry := EntryEvents(m, signals);
    if !ok {
      return LookupFailed;
    }
    var run := RunAllDays(p, m, signals, events, noEntry);
    var metrics := Report(run, |signals|);
    return Completed(metrics, run.trades, run.snapshots);
  }

  /** The report adds up: every signal is a trade or a skip, and the final equity is the final cash. */
  lemma ReportAddsUp(p: PortfolioParameters, m: Market, signals: seq<Signal>)
    requires p.Valid() && m.Valid()
    requires Looked(m, signals)
    ensures var r := MetricsOf(p, Run(p, m, signals, |m.dates|), |signals|);
      && r.totalSignals == r.enteredTrades + r.skippedSignals
      && r.finalEquity == (if m.dates == [] then r.initialCapital else r.finalCash)
  {
    FinalAccounting(p, m, signals);
    FinalEquity(p, m, signals);
    QuantizeTwice(Run(p, m, signals, |m.dates|).cash);
    hide Run, Quantize;
  }

  /** The last snapshot's equity is the final cash, because nothing is held any more. */
  lemma FinalEquity(p: PortfolioParameters, m: Market, signals: seq<Signal>)
    requires p.Valid()
    ensures var b := Run(p, m, signals, |m.dates|);
      && |b.snapshots| == |m.dates|
      && (m.dates != [] ==> b.snapshots[|m.dates| - 1].equity == Quantize(b.cash))
      && (m.dates == [] ==> b.cash == p.initialCapital)
  {
    hide Run, Quantize, FallPct;
    var n := |m.dates|;
    if n > 0 {
      SnapshotsRecordDays(p, m, signals, n, n - 1);
      NothingHeldAtEnd(p, m, signals);
      assert Equity(Run(p, m, signals, n)) == Run(p, m, signals, n).cash;
    } else {
      NoSnapshots(p, m, signals);
      StartCash(p, m, signals);
    }
  }

  lemma StartCash(p: PortfolioParameters, m: Market, signals: seq<Signal>)
    requires p.Valid()
    ensures Run(p, m, signals, 0).cash == p.initialCapital
  {}
}
