/** What an open position is marked at, and the forced sale on the last day, which uses that mark when the
    symbol has no bar. */
module PortfolioMarks {
  import opened Ordering
  import opened Decimals
  import opened Backtest
  import opened Portfolio
  import opened PortfolioSnapshots
  import opened PortfolioTrades

  // ---- marks ----

  /** The position is marked at the close of its symbol's last bar. */
  ghost predicate MarkOk(m: Market, pos: Position, k: int)
    requires 0 <= k <= |m.dates|
  {
    var h := History(m, pos.signal, k);
    h != [] && pos.lastClose == h[|h| - 1].bar.close
  }

  /** A position whose symbol has no bar today is one that was held before, with its mark. */
  ghost predicate Carried(after: Positions, before: Positions, bars: map<string, Bar>) {
    forall s :: s in after && s !in bars ==>
      s in before && after[s].signal == before[s].signal && after[s].lastClose == before[s].lastClose
  }

  lemma {:induction false} ExitsCarry(b: Book, p: TradingParameters, t: Today, symbols: seq<string>)
    ensures Carried(ExitAll(b, p, t, symbols).positions, b.positions, t.bars)
    decreases |symbols|
  {
    hide Quantize, ExactFill, ExitTerms;
    if symbols != [] { ExitsCarry(ExitOne(b, p, t, symbols[0]), p, t, symbols[1..]); }
  }

  lemma {:induction false} EntriesCarry(b: Book, p: PortfolioParameters, t: Today, events: seq<Signal>)
    requires p.Valid() && HasBars(events, t.bars)
    ensures Carried(EnterAll(b, p, t, events).positions, b.positions, t.bars)
    ensures EnterAll(b, p, t, events).trades == b.trades
    decreases |events|
  {
    hide SizeEntry, EntryPrice;
    if events != [] { EntriesCarry(EnterOne(b, p, t, events[0]), p, t, events[1..]); }
  }

  lemma {:induction false} LiquidationCarries(b: Book, p: TradingParameters, t: Today, symbols: seq<string>)
    ensures Carried(LiquidateAll(b, p, t, symbols).positions, b.positions, t.bars)
    decreases |symbols|
  {
    hide Quantize, ExactFill;
    if symbols != [] { LiquidationCarries(LiquidateOne(b, p, t, symbols[0]), p, t, symbols[1..]); }
  }

  lemma DayCarries(b: Book, p: PortfolioParameters, t: Today, events: seq<Signal>)
    requires p.Valid() && HasBars(events, t.bars)
    ensures var a := Day(b, p, t, events).positions;
      && Carried(a, b.positions, t.bars)
      && forall s :: s in a && s in t.bars ==> a[s].lastClose == t.bars[s].close
  {
    hide ExitAll, EnterAll, LiquidateAll, Carried, Marked, Snap;
    var b1 := AfterExits(b, p, t);
    var b2 := EnterAll(b1, p, t, events);
    var b3 := AfterLiquidation(b2, p, t);
    ExitsCarry(b, p.trading, t, SortedKeys(b.positions.Keys));
    EntriesCarry(b1, p, t, events);
    LiquidationCarries(b2, p.trading, t, SortedKeys(b2.positions.Keys));
    MarksCarry(b3.positions, t.bars);
    CarriedTwice(b2.positions, b1.positions, b.positions, t.bars);
    if t.final { CarriedTwice(b3.positions, b2.positions, b.positions, t.bars); }
    CarriedTwice(Marked(b3.positions, t.bars), b3.positions, b.positions, t.bars);
  }

  lemma MarksCarry(m: Positions, bars: map<string, Bar>)
    ensures Carried(Marked(m, bars), m, bars)
    ensures forall s :: s in Marked(m, bars) && s in bars ==> Marked(m, bars)[s].lastClose == bars[s].close
  {}

  lemma CarriedTwice(a: Positions, b: Positions, c: Positions, bars: map<string, Bar>)
    requires Carried(a, b, bars) && Carried(b, c, bars)
    ensures Carried(a, c, bars)
  {}

  /** After every day each open position is marked at the close of its symbol's last bar so far. */
  lemma {:induction false} MarksAreLastCloses(p: PortfolioParameters, m: Market, signals: seq<Signal>, k: int)
    requires p.Valid() && m.Valid() && 0 <= k <= |m.dates|
    ensures forall s :: s in Run(p, m, signals, k).positions ==> MarkOk(m, Run(p, m, signals, k).positions[s], k)
    decreases k
  {
    hide Day, TradeOk;
    if k > 0 {
      var b, a := Run(p, m, signals, k - 1), Run(p, m, signals, k);
      MarksAreLastCloses(p, m, signals, k - 1);
      RunTrades(p, m, signals, k);
      RunStep(p, m, signals, k);
      DayCarries(b, p, m.Day(k - 1), Events(m, signals, k - 1));
      hide Run;
      forall s | s in a.positions ensures MarkOk(m, a.positions[s], k) {
        assert Tracked(m, p.trading, s, a.positions[s], k);
        MarkToday(m, p.trading, s, a.positions[s], k);
      }
    }
  }

  lemma MarkToday(m: Market, p: TradingParameters, symbol: string, pos: Position, k: int)
    requires m.Valid() && 0 < k <= |m.dates| && Tracked(m, p, symbol, pos, k)
    requires symbol in m.Bars(k - 1) ==> pos.lastClose == m.Bars(k - 1)[symbol].close
    requires symbol !in m.Bars(k - 1) ==> MarkOk(m, pos, k - 1)
    ensures MarkOk(m, pos, k)
  {
    hide FirstTrigger, EntryPrice;
    HistoryDates(m, pos.signal, k);
  }

  // ---- the last day ----

  /** A trade closed on the last day is an end of period, at the close of its symbol's last bar, however
      long ago that was; a missing bar on the last day still counts as a day held. */
  ghost predicate ForcedOk(m: Market, p: TradingParameters, t: Trade) {
    && m.dates != []
    && var last := |m.dates| - 1;
       t.exitDate == m.dates[last] ==>
         var e := Usables(m, t);
         && e != [] && t.reason == EndOfPeriod
         && t.exitPrice == Quantize(ExitPrice(e[|e| - 1].bar.close, p))
         && t.holdingDays == (if t.symbol in m.Bars(last) then |e| - 1 else |e|)
  }

  lemma HeldIsForced(m: Market, p: TradingParameters, symbol: string, pos: Position)
    requires m.Valid() && 0 < |m.dates| && Tracked(m, p, symbol, pos, |m.dates| - 1) && MarkOk(m, pos, |m.dates| - 1)
    ensures var last := |m.dates| - 1; var bar := SeenBar(pos, symbol, m.Day(last));
      && bar.Some?
      && ForcedOk(m, p, TradeOf(p, pos, Exit(m.dates[last], EndOfPeriod, bar.value.close, pos.holdingDays + 1)))
  {
    hide FirstTrigger, EntryPrice, ExitPrice, Quantize, TradeOf, Settles;
    var last := |m.dates| - 1;
    var bar := SeenBar(pos, symbol, m.Day(last)).value;
    TradeOfFields(p, pos, Exit(m.dates[last], EndOfPeriod, bar.close, pos.holdingDays + 1));
    HistoryToday(m, pos.signal, last);
  }

  lemma EnteredIsForced(m: Market, p: TradingParameters, symbol: string, pos: Position)
    requires m.Valid() && 0 < |m.dates| && Tracked(m, p, symbol, pos, |m.dates|)
    requires pos.entryDate == m.dates[|m.dates| - 1] && symbol in m.Bars(|m.dates| - 1)
    ensures var last := |m.dates| - 1;
      ForcedOk(m, p, TradeOf(p, pos, Exit(m.dates[last], EndOfPeriod, m.Bars(last)[symbol].close, pos.holdingDays)))
  {
    hide FirstTrigger, EntryPrice, ExitPrice, Quantize, TradeOf, Settles;
    var last := |m.dates| - 1;
    TradeOfFields(p, pos, Exit(m.dates[last], EndOfPeriod, m.Bars(last)[symbol].close, pos.holdingDays));
    HistoryDates(m, pos.signal, last);
    HistoryDates(m, pos.signal, last + 1);
    assert History(m, pos.signal, last) == [] by {
      if History(m, pos.signal, last) != [] {
        HistoryToday(m, pos.signal, last);
        HistoryPrefix(m, pos.signal, last, last + 1);
      }
    }
  }

  /** The last day begins with tracked and marked positions and no forced trade yet. */
  ghost predicate FinalInv(m: Market, p: TradingParameters, b: Book) {
    && m.dates != []
    && (forall t :: t in b.trades ==> ForcedOk(m, p, t))
    && (forall s :: s in b.positions ==>
          Tracked(m, p, s, b.positions[s], |m.dates| - 1) && MarkOk(m, b.positions[s], |m.dates| - 1))
  }

  lemma ForcedExit(m: Market, p: TradingParameters, b: Book, symbol: string)
    requires m.Valid() && FinalInv(m, p, b)
    ensures FinalInv(m, p, ExitOne(b, p, m.Day(|m.dates| - 1), symbol))
  {
    hide Tracked, MarkOk, ForcedOk, Quantize, ExactFill, Proceeds;
    if symbol in b.positions {
      var pos := b.positions[symbol];
      var last := |m.dates| - 1;
      HeldIsForced(m, p, symbol, pos);
      var x := Exit(m.dates[last], EndOfPeriod, SeenBar(pos, symbol, m.Day(last)).value.close, pos.holdingDays + 1);
      AgedTrade(p, pos, x);
      assert ExitOne(b, p, m.Day(last), symbol).trades == b.trades + [TradeOf(p, pos, x)];
    }
  }

  lemma {:induction false} ForcedExits(m: Market, p: TradingParameters, b: Book, symbols: seq<string>)
    requires m.Valid() && FinalInv(m, p, b)
    ensures FinalInv(m, p, ExitAll(b, p, m.Day(|m.dates| - 1), symbols))
    decreases |symbols|
  {
    if symbols != [] {
      hide FinalInv, ExitOne;
      ForcedExit(m, p, b, symbols[0]);
      assert m.dates != [] by { assert FinalInv(m, p, b); }
      ForcedExits(m, p, ExitOne(b, p, m.Day(|m.dates| - 1), symbols[0]), symbols[1..]);
    }
  }

  ghost predicate AllForced(m: Market, p: TradingParameters, b: Book) {
    forall t :: t in b.trades ==> ForcedOk(m, p, t)
  }

  lemma {:induction false} ForcedLiquidation(m: Market, p: TradingParameters, b: Book, symbols: seq<string>)
    requires m.Valid() && p.Valid() && 0 < |m.dates| && RunInv(m, p, b, |m.dates|) && AllForced(m, p, b)
    ensures AllForced(m, p, LiquidateAll(b, p, m.Day(|m.dates| - 1), symbols))
    decreases |symbols|
  {
    if symbols != [] {
      hide RunInv, LiquidateOne, AllForced;
      LiquidateOneInv(m, p, b, symbols[0]);
      LiquidateForced(m, p, b, symbols[0]);
      ForcedLiquidation(m, p, LiquidateOne(b, p, m.Day(|m.dates| - 1), symbols[0]), symbols[1..]);
    }
  }

  lemma LiquidateForced(m: Market, p: TradingParameters, b: Book, symbol: string)
    requires m.Valid() && p.Valid() && 0 < |m.dates| && RunInv(m, p, b, |m.dates|) && AllForced(m, p, b)
    ensures AllForced(m, p, LiquidateOne(b, p, m.Day(|m.dates| - 1), symbol))
  {
    hide ForcedOk, Tracked, TradeOk, Ordered, Quantize, ExactFill, Proceeds;
    var d := |m.dates| - 1;
    if symbol in b.positions && b.positions[symbol].entryDate == m.dates[d] && symbol in m.Bars(d) {
      var pos := b.positions[symbol];
      EnteredIsForced(m, p, symbol, pos);
      var x := Exit(m.dates[d], EndOfPeriod, m.Bars(d)[symbol].close, pos.holdingDays);
      assert LiquidateOne(b, p, m.Day(d), symbol).trades == b.trades + [TradeOf(p, pos, x)];
    }
  }

  lemma FinalDay(p: PortfolioParameters, m: Market, b: Book, events: seq<Signal>)
    requires p.Valid() && m.Valid() && 0 < |m.dates| && RunInv(m, p.trading, b, |m.dates| - 1)
    requires FinalInv(m, p.trading, b) && HasBars(events, m.Bars(|m.dates| - 1)) && EnteredOn(m, events, |m.dates| - 1)
    ensures AllForced(m, p.trading, Day(b, p, m.Day(|m.dates| - 1), events))
  {
    hide RunInv, DayInv, ExitAll, EnterAll, LiquidateAll, EnteredOn, HasBars, Tracked, MarkOk, ForcedOk, Snap;
    var d, t := |m.dates| - 1, m.Day(|m.dates| - 1);
    ExitsInv(p, m, b, d);
    var b1 := AfterExits(b, p, t);
    ForcedExits(m, p.trading, b, SortedKeys(b.positions.Keys));
    EnterAllInv(m, p, b1, d, events);
    var b2 := EnterAll(b1, p, t, events);
    EntriesCarry(b1, p, t, events);
    DayEnds(m, p.trading, b2, d);
    ForcedLiquidation(m, p.trading, b2, SortedKeys(b2.positions.Keys));
  }

  /** Every trade closed on the last day, whether held before or entered that day, whether or not its symbol
      has a bar, is sold at the close of the symbol's last bar. */
  lemma ForcedSales(p: PortfolioParameters, m: Market, signals: seq<Signal>)
    requires p.Valid() && m.Valid()
    ensures forall t :: t in Run(p, m, signals, |m.dates|).trades ==> ForcedOk(m, p.trading, t)
  {
    hide Day, EnteredOn, Tracked, MarkOk;
    var n := |m.dates|;
    if n > 0 {
      var b := Run(p, m, signals, n - 1);
      RunTrades(p, m, signals, n - 1);
      MarksAreLastCloses(p, m, signals, n - 1);
      EventsEntered(m, signals, n - 1);
      RunStep(p, m, signals, n);
      hide Run;
      assert FinalInv(m, p.trading, b) by { hide TradeOk, Ordered; }
      FinalDay(p, m, b, Events(m, signals, n - 1));
    }
  }
}
