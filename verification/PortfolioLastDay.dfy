/** A run whose forced sale on the last day is not the exit of its signal alone. */
module PortfolioLastDay {
  import opened Dates
  import opened Ordering
  import opened Decimals
  import opened Backtest
  import opened Sizing
  import opened Portfolio
  import opened PortfolioTicks
  import opened PortfolioSolvency
  import opened PortfolioTrades

  /** The bars of the symbol: bought at one tick, worthless on the last day. */
  function Fallen(tick: real): seq<DailyBar> {
    [DailyBar(1, Bar(tick, tick, tick, tick)), DailyBar(2, FlatBar(0.0))]
  }

  lemma FallenBars(tick: real)
    ensures SymbolBars(TwoDays(tick, tick, 0.0), SYMBOL, 2) == Fallen(tick)
    ensures Eligible(Fallen(tick), SIGNAL, 2) == Fallen(tick)
  {
    var m := TwoDays(tick, tick, 0.0);
    assert SymbolBars(m, SYMBOL, 0) == [] && SymbolBars(m, SYMBOL, 1) == [Fallen(tick)[0]];
    FilterAll(Fallen(tick), Usable(SIGNAL, 2));
    SortOfSorted(Fallen(tick), DateLeq);
  }

  /** Alone, the signal is stopped out on the last day. */
  lemma StoppedAlone(p: PortfolioParameters, tick: real)
    requires p.Valid() && 0.0 < tick && !NothingAffordable(p, tick)
    ensures var r := Simulation(Fallen(tick), SIGNAL, 2, p.trading); r.Traded? && r.trade.reason == StopLoss
  {
    var entry := EntryPrice(tick, p.trading);
    FallenBars(tick);
    PricePositive(p, tick, 1);
    assert (1 as real) * tick == tick;
    OneShareFits(p, tick);
    hide EntryPrice, ExactFill, Quantize, Eligible, WholeShares, NothingAffordable, LoneExit, Unit, Allowed;
    StoppedOut(entry, tick, p.trading);
  }

  lemma StoppedOut(entry: real, tick: real, p: TradingParameters)
    requires p.Valid() && 0.0 < entry
    ensures LoneExit(Fallen(tick), entry, p).reason == StopLoss
  {
    PositiveProduct(entry, 1.0 - p.stopLoss);
    assert Fallen(tick)[1..] == [Fallen(tick)[1]];
    assert Triggers(entry, Fallen(tick)[1..], 0, p);
  }

  lemma OneShareFits(p: PortfolioParameters, tick: real)
    requires p.Valid() && 0.0 < tick && 0.0 < EntryPrice(tick, p.trading) && !NothingAffordable(p, tick)
    ensures 1 <= WholeShares(p.trading.positionSize, EntryPrice(tick, p.trading))
  {
    var entry := EntryPrice(tick, p.trading);
    AllowedPositive(p);
    OutlayAtLeastPrice(entry, 1, p.trading.commission);
    hide EntryPrice, Allowed, Outlay;
    assert entry <= p.initialCapital;
    AtMostQuotient(1, p.initialCapital, entry);
  }

  lemma HeldSignal(p: PortfolioParameters, tick: real)
    requires p.Valid()
    ensures Held(p, tick, tick, 0.0).signal == SIGNAL
  {
    hide SizeEntry, EntryPrice, BuyCommission;
  }

  lemma LastTrade(p: PortfolioParameters, tick: real) returns (t: Trade)
    requires p.Valid() && 0.0 < tick && !NothingAffordable(p, tick)
    ensures t in Run(p, TwoDays(tick, tick, 0.0), [SIGNAL], 2).trades
    ensures t.exitDate == 2 && SignalOf(t) == SIGNAL && t.symbol == SYMBOL && t.reason == EndOfPeriod
  {
    hide Run, Held, NothingAffordable, Cost, Proceeds, EndsWithSale;
    var b := Run(p, TwoDays(tick, tick, 0.0), [SIGNAL], 2);
    SecondDay(p, tick, tick, 0.0);
    HeldSignal(p, tick);
    t := SaleAtEnd(b, Held(p, tick, tick, 0.0), 2);
  }

  lemma SaleAtEnd(b: Book, pos: Position, day: Date) returns (t: Trade)
    requires EndsWithSale(b, pos, day)
    ensures t in b.trades && t.exitDate == day && SignalOf(t) == pos.signal && t.symbol == pos.signal.symbol &&
      t.reason == EndOfPeriod
  {
    t := b.trades[|b.trades| - 1];
  }

  /** The portfolio closes it as the end of the period instead, so the two trades differ: agreement on the
      last day is a real condition. */
  lemma LastDayDisagrees(p: PortfolioParameters, tick: real) returns (m: Market, t: Trade)
    requires p.Valid() && 0.0 < tick && !NothingAffordable(p, tick)
    ensures m.Valid() && Storable(m, tick) && Looked(m, [SIGNAL]) && m.dates == [1, 2]
    ensures t in Run(p, m, [SIGNAL], 2).trades && t.exitDate == 2 && SignalOf(t) == SIGNAL
    ensures var r := Simulation(SymbolBars(m, SYMBOL, 2), SIGNAL, 2, p.trading);
      r.Traded? && !SameTiming(t, r.trade) && !QuietLastDay(m, p.trading, t)
  {
    m := TwoDays(tick, tick, 0.0);
    t := LastTrade(p, tick);
    OneTick(tick);
    TwoDaysStorable(tick, tick, 0.0);
    Schedule(tick, tick, 0.0);
    StoppedAlone(p, tick);
    FallenBars(tick);
    hide Run, Simulation, NothingAffordable, Storable, Looked, QuietLastDay, SymbolBars, Fallen;
    TradesMatchSimulation(p, m, [SIGNAL], 2);
    assert SimulatedAlike(m, p.trading, 2, t);
  }
}
