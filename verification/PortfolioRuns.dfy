/** The book invariants over whole runs: every event of every day, and the final accounting. */
module PortfolioRuns {
  import opened Ordering
  import opened Decimals
  import opened Backtest
  import opened Portfolio
  import opened PortfolioLedger

  /** Sale costs that never exceed the sale. */
  predicate CheapSales(p: PortfolioParameters) { p.trading.commission + p.trading.sellTax <= 1.0 }

  /** The invariant of every state a run passes through. */
  ghost predicate Healthy(b: Book, p: PortfolioParameters) {
    Sound(b, p) && (CheapSales(p) ==> Solvent(b, p))
  }

  // ---- phases: `symbols` and `events` are arbitrary, so every state inside a phase is covered ----

  lemma {:induction false} ExitAllHealthy(b: Book, p: PortfolioParameters, t: Today, symbols: seq<string>)
    requires p.Valid() && Healthy(b, p) && ValidBars(t.bars)
    ensures var a := ExitAll(b, p.trading, t, symbols); Healthy(a, p) && Settled(a) == Settled(b)
    decreases |symbols|
  {
    if symbols != [] {
      hide Sound, ExitOne, Solvent;
      ExitOneSound(b, p, t, symbols[0]);
      if CheapSales(p) { ExitOneSolvent(b, p, t, symbols[0]); }
      ExitAllHealthy(ExitOne(b, p.trading, t, symbols[0]), p, t, symbols[1..]);
    }
  }

  lemma {:induction false} EnterAllHealthy(b: Book, p: PortfolioParameters, t: Today, events: seq<Signal>)
    requires p.Valid() && Healthy(b, p) && HasBars(events, t.bars)
    ensures var a := EnterAll(b, p, t, events); Healthy(a, p) && Settled(a) == Settled(b) + |events|
    decreases |events|
  {
    if events != [] {
      hide Sound, EnterOne, Solvent;
      EnterOneSound(b, p, t, events[0]);
      EnterAllHealthy(EnterOne(b, p, t, events[0]), p, t, events[1..]);
    }
  }

  lemma {:induction false} LiquidateAllHealthy(b: Book, p: PortfolioParameters, t: Today, symbols: seq<string>)
    requires p.Valid() && Healthy(b, p) && ValidBars(t.bars)
    ensures var a := LiquidateAll(b, p.trading, t, symbols); Healthy(a, p) && Settled(a) == Settled(b)
    decreases |symbols|
  {
    if symbols != [] {
      hide Sound, LiquidateOne, Solvent;
      LiquidateOneSound(b, p, t, symbols[0]);
      LiquidateAllHealthy(LiquidateOne(b, p.trading, t, symbols[0]), p, t, symbols[1..]);
    }
  }

  /** The book just before the closing marks of a day. */
  ghost function BeforeMarks(b: Book, p: PortfolioParameters, t: Today, events: seq<Signal>): Book
    requires p.Valid() && HasBars(events, t.bars)
  {
    AfterLiquidation(EnterAll(AfterExits(b, p, t), p, t, events), p, t)
  }

  lemma BeforeMarksHealthy(b: Book, p: PortfolioParameters, t: Today, events: seq<Signal>)
    requires p.Valid() && Healthy(b, p) && HasBars(events, t.bars) && ValidBars(t.bars)
    ensures var a := BeforeMarks(b, p, t, events); Healthy(a, p) && Settled(a) == Settled(b) + |events|
  {
    hide Healthy, ExitAll, EnterAll, LiquidateAll;
    var b1 := AfterExits(b, p, t);
    var b2 := EnterAll(b1, p, t, events);
    ExitAllHealthy(b, p, t, SortedKeys(b.positions.Keys));
    EnterAllHealthy(b1, p, t, events);
    if t.final { LiquidateAllHealthy(b2, p, t, SortedKeys(b2.positions.Keys)); }
  }

  lemma DayHealthy(b: Book, p: PortfolioParameters, t: Today, events: seq<Signal>)
    requires p.Valid() && Healthy(b, p) && HasBars(events, t.bars) && ValidBars(t.bars)
    ensures var a := Day(b, p, t, events); Healthy(a, p) && Settled(a) == Settled(b) + |events|
  {
    BeforeMarksHealthy(b, p, t, events);
    hide Sound, AfterExits, EnterAll, AfterLiquidation, Settled, Quantize;
    MarkSound(BeforeMarks(b, p, t, events), p, t);
  }

  // ---- whole runs ----

  /** Entry events of the first `k` days. */
  ghost function EventCount(m: Market, signals: seq<Signal>, k: int): int
    requires 0 <= k <= |m.dates|
  {
    if k == 0 then 0 else EventCount(m, signals, k - 1) + |Events(m, signals, k - 1)|
  }

  lemma StartHealthy(p: PortfolioParameters, noEntry: int)
    requires p.Valid()
    ensures Healthy(Start(p, noEntry), p) && Settled(Start(p, noEntry)) == noEntry
  {
    MulMonotone(p.minimumCashBufferPct, 1.0, p.initialCapital);
  }

  lemma {:induction false} RunHealthy(p: PortfolioParameters, m: Market, signals: seq<Signal>, k: int)
    requires p.Valid() && m.Valid() && 0 <= k <= |m.dates|
    ensures Healthy(Run(p, m, signals, k), p)
    ensures Settled(Run(p, m, signals, k)) == NoEntryCount(m, signals) + EventCount(m, signals, k)
    decreases k
  {
    hide Healthy, Settled, Day;
    if k == 0 {
      StartHealthy(p, NoEntryCount(m, signals));
    } else {
      RunHealthy(p, m, signals, k - 1);
      assert ValidBars(m.Bars(k - 1));
      DayHealthy(Run(p, m, signals, k - 1), p, m.Day(k - 1), Events(m, signals, k - 1));
    }
  }

  /** Every state inside day `k` is healthy too: after any number of exits, entries or liquidations. */
  lemma HealthyThroughout(p: PortfolioParameters, m: Market, signals: seq<Signal>, k: int, n: int)
    requires p.Valid() && m.Valid() && 0 <= k < |m.dates| && 0 <= n
    ensures var b := Run(p, m, signals, k); var t := m.Day(k); var events := Events(m, signals, k);
      var symbols := SortedKeys(b.positions.Keys);
      n <= |symbols| ==> Healthy(ExitAll(b, p.trading, t, symbols[..n]), p)
    ensures var b := AfterExits(Run(p, m, signals, k), p, m.Day(k)); var events := Events(m, signals, k);
      n <= |events| ==> HasBars(events[..n], m.Bars(k)) && Healthy(EnterAll(b, p, m.Day(k), events[..n]), p)
    ensures var b := EnterAll(AfterExits(Run(p, m, signals, k), p, m.Day(k)), p, m.Day(k), Events(m, signals, k));
      var symbols := SortedKeys(b.positions.Keys);
      n <= |symbols| ==> Healthy(LiquidateAll(b, p.trading, m.Day(k), symbols[..n]), p)
  {
    hide Healthy, Settled, ExitAll, EnterAll, LiquidateAll;
    var b, t, events := Run(p, m, signals, k), m.Day(k), Events(m, signals, k);
    assert ValidBars(t.bars);
    RunHealthy(p, m, signals, k);
    var symbols := SortedKeys(b.positions.Keys);
    ExitAllHealthy(b, p, t, symbols);
    if n <= |symbols| { ExitAllHealthy(b, p, t, symbols[..n]); }
    var b1 := AfterExits(b, p, t);
    EnterAllHealthy(b1, p, t, events);
    if n <= |events| {
      assert forall s :: s in events[..n] ==> s in events;
      EnterAllHealthy(b1, p, t, events[..n]);
    }
    var b2 := EnterAll(b1, p, t, events);
    var held := SortedKeys(b2.positions.Keys);
    if n <= |held| { LiquidateAllHealthy(b2, p, t, held[..n]); }
  }

  // ---- the end of a run ----

  lemma {:induction false} FinalExits(b: Book, p: TradingParameters, t: Today, symbols: seq<string>)
    requires t.final
    ensures ExitAll(b, p, t, symbols).positions.Keys == b.positions.Keys - set s | s in symbols
    decreases |symbols|
  {
    if symbols != [] {
      var a := ExitOne(b, p, t, symbols[0]);
      ExitCloses(b, p, t, symbols[0]);
      FinalExits(a, p, t, symbols[1..]);
      assert (set s | s in symbols) == {symbols[0]} + set s | s in symbols[1..];
    }
  }

  lemma ExitCloses(b: Book, p: TradingParameters, t: Today, symbol: string)
    requires t.final
    ensures ExitOne(b, p, t, symbol).positions == b.positions - {symbol}
  {
    hide Quantize, ExactFill;
  }

  /** Positions that were opened today, on a bar. */
  ghost predicate OpenedToday(m: Positions, t: Today) {
    forall s :: s in m ==> m[s].entryDate == t.date && s in t.bars
  }

  lemma {:induction false} EntriesOpenedToday(b: Book, p: PortfolioParameters, t: Today, events: seq<Signal>)
    requires p.Valid() && HasBars(events, t.bars) && OpenedToday(b.positions, t)
    ensures OpenedToday(EnterAll(b, p, t, events).positions, t)
    decreases |events|
  {
    if events != [] {
      hide SizeEntry, EntryPrice;
      EntriesOpenedToday(EnterOne(b, p, t, events[0]), p, t, events[1..]);
    }
  }

  lemma {:induction false} LiquidationCloses(b: Book, p: TradingParameters, t: Today, symbols: seq<string>)
    requires OpenedToday(b.positions, t)
    ensures LiquidateAll(b, p, t, symbols).positions.Keys == b.positions.Keys - set s | s in symbols
    decreases |symbols|
  {
    if symbols != [] {
      hide Quantize, ExactFill;
      var a := LiquidateOne(b, p, t, symbols[0]);
      assert a.positions.Keys == b.positions.Keys - {symbols[0]};
      LiquidationCloses(a, p, t, symbols[1..]);
      assert (set s | s in symbols) == {symbols[0]} + set s | s in symbols[1..];
    }
  }

  lemma LastDayClosesAll(b: Book, p: PortfolioParameters, t: Today, events: seq<Signal>)
    requires p.Valid() && HasBars(events, t.bars) && t.final
    ensures BeforeMarks(b, p, t, events).positions == map[]
    ensures Day(b, p, t, events).positions == map[]
  {
    hide ExitAll, EnterAll, LiquidateAll, Quantize;
    var keys := SortedKeys(b.positions.Keys);
    var b1 := AfterExits(b, p, t);
    FinalExits(b, p.trading, t, keys);
    assert b1.positions.Keys == {};
    var b2 := EnterAll(b1, p, t, events);
    EntriesOpenedToday(b1, p, t, events);
    LiquidationCloses(b2, p.trading, t, SortedKeys(b2.positions.Keys));
    var b3 := AfterLiquidation(b2, p, t);
    assert b3.positions.Keys == {};
    assert b3.positions == map[];
    assert Marked(b3.positions, t.bars) == map[];
  }

  function EntryDay(e: Entry, k: int): int { if e.At? && e.index < k then 1 else 0 }

  lemma {:induction false} EventCountStep(m: Market, s: Signal, signals: seq<Signal>, k: int)
    requires 0 <= k <= |m.dates|
    ensures EventCount(m, [s] + signals, k) == EventCount(m, signals, k) + EntryDay(FindEntry(m, s, 0), k)
  {
    if k > 0 {
      EventCountStep(m, s, signals, k - 1);
      assert ([s] + signals)[1..] == signals;
    }
  }

  /** Every signal has its entry on exactly one day, or on none. */
  lemma {:induction false} EventsPartition(m: Market, signals: seq<Signal>)
    requires Looked(m, signals)
    ensures NoEntryCount(m, signals) + EventCount(m, signals, |m.dates|) == |signals|
  {
    if signals == [] {
      NoEvents(m, |m.dates|);
    } else {
      EventsPartition(m, signals[1..]);
      EventCountStep(m, signals[0], signals[1..], |m.dates|);
      assert signals == [signals[0]] + signals[1..];
    }
  }

  lemma NoEvents(m: Market, k: int)
    requires 0 <= k <= |m.dates|
    ensures EventCount(m, [], k) == 0
  {}

  lemma NothingHeldAtEnd(p: PortfolioParameters, m: Market, signals: seq<Signal>)
    requires p.Valid()
    ensures Run(p, m, signals, |m.dates|).positions == map[]
  {
    hide Day, Events;
    var n := |m.dates|;
    if n > 0 { LastDayClosesAll(Run(p, m, signals, n - 1), p, m.Day(n - 1), Events(m, signals, n - 1)); }
  }

  /** After the last day nothing is held and every signal became exactly one trade or one skip. */
  lemma FinalAccounting(p: PortfolioParameters, m: Market, signals: seq<Signal>)
    requires p.Valid() && m.Valid()
    requires Looked(m, signals)
    ensures var b := Run(p, m, signals, |m.dates|);
      && b.positions == map[]
      && |b.trades| + SkipTotal(b.skips) == |signals|
      && b.cash == p.initialCapital + b.realized
      && Abs(Quantize(b.cash) - (p.initialCapital + StoredNet(b.trades))) <= (|b.trades| + 1) as real * HALF_QUANTUM
  {
    hide PositionsOk, SkipTotal, StoredNet, Quantize, Run;
    var b := Run(p, m, signals, |m.dates|);
    RunHealthy(p, m, signals, |m.dates|);
    EventsPartition(m, signals);
    NothingHeldAtEnd(p, m, signals);
    QuantizeError(b.cash);
  }
}
