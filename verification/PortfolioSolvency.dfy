/** What the range checks of the parameters leave open: the exact conditions under which every run of
    every market that can be stored keeps the cash buffer and reports the largest relative fall. */
module PortfolioSolvency {
  import opened Dates
  import opened Ordering
  import opened Decimals
  import opened Drawdown
  import opened Backtest
  import opened Sizing
  import opened Portfolio
  import opened PortfolioLedger
  import opened PortfolioRuns
  import opened PortfolioSnapshots
  import opened PortfolioTicks

  // ---- single days of a market with one or two symbols ----

  lemma NoKeys()
    ensures SortedKeys({}) == []
  {}

  lemma OneKey(x: string)
    ensures SortedKeys({x}) == [x]
  {
    var r := SortedKeys({x});
    assert |r| == 1 && r[0] in r;
  }

  /** Without bars of the held symbols an ordinary day exits nothing. */
  lemma {:induction false} QuietExits(b: Book, p: TradingParameters, t: Today, symbols: seq<string>)
    requires !t.final && forall x :: x in symbols && x in b.positions ==> x !in t.bars
    ensures ExitAll(b, p, t, symbols) == b
    decreases |symbols|
  {
    if symbols != [] {
      assert ExitOne(b, p, t, symbols[0]) == b;
      QuietExits(b, p, t, symbols[1..]);
    }
  }

  /** The position that an entry of `s` opens, if it buys anything. */
  ghost function Entered(b: Book, p: PortfolioParameters, t: Today, s: Signal): Position
    requires p.Valid() && s.symbol in t.bars
  {
    var open := t.bars[s.symbol].open;
    match SizeEntry(b, p, EntryPrice(open, p.trading))
    case Buy(quantity) => Bought(p.trading, t.date, open, s, quantity)
    case Refuse(_) => Bought(p.trading, t.date, open, s, 0)
  }

  ghost predicate CanEnter(b: Book, p: PortfolioParameters, t: Today, s: Signal)
    requires p.Valid()
  {
    && s.symbol in t.bars && s.symbol !in b.positions && |b.positions| < p.maxOpenPositions
    && SizeEntry(b, p, EntryPrice(t.bars[s.symbol].open, p.trading)).Buy?
  }

  lemma EntryOpens(b: Book, p: PortfolioParameters, t: Today, s: Signal)
    requires p.Valid() && CanEnter(b, p, t, s)
    ensures EnterOne(b, p, t, s) == Open(b, s.symbol, Entered(b, p, t, s))
    ensures var pos := Entered(b, p, t, s);
      && 1 <= pos.quantity && 0.0 < pos.entryPrice == EntryPrice(t.bars[s.symbol].open, p.trading)
      && 0.0 <= Cost(pos) <= b.cash - p.Buffer()
      && Cost(pos) == Outlay(pos.entryPrice, pos.quantity, p.trading.commission)
      && SizeEntry(b, p, pos.entryPrice) == Buy(pos.quantity)
  {
    EntryIsAffordable(b, p, t, s);
    var pos := Entered(b, p, t, s);
    hide SizeEntry, EntryPrice, BuyCommission, Open, Cost;
    CostIsOutlay(pos, p.trading);
    OutlayPositive(pos.entryPrice, pos.quantity, p.trading.commission);
  }

  lemma OutlayPositive(price: real, quantity: int, commission: real)
    requires 0.0 <= price && 0 <= quantity && 0.0 <= commission
    ensures 0.0 <= Outlay(price, quantity, commission)
  {
    OutlayAtLeastPrice(price, quantity, commission);
    MulMonotone(0.0, quantity as real, price);
  }

  /** An ordinary day on which the held symbols have no bar and one signal enters. */
  lemma OneEntryDay(b: Book, p: PortfolioParameters, t: Today, s: Signal)
    requires p.Valid() && !t.final && CanEnter(b, p, t, s) && forall x :: x in b.positions ==> x !in t.bars
    ensures HasBars([s], t.bars)
    ensures var a := Day(b, p, t, [s]); var pos := Entered(b, p, t, s);
      && a.positions == b.positions[s.symbol := pos.(lastClose := t.bars[s.symbol].close)]
      && a.cash == b.cash - Cost(pos)
  {
    var pos := Entered(b, p, t, s);
    QuietExits(b, p.trading, t, SortedKeys(b.positions.Keys));
    EntryOpens(b, p, t, s);
    OneEntry(b, p, t, s);
    hide EnterOne, EnterAll, Entered, CanEnter, Cost, ExitAll, SortedKeys, Open, MarkDay;
    MarkAfterOpen(b, p, t, s.symbol, pos);
  }

  lemma OneEntry(b: Book, p: PortfolioParameters, t: Today, s: Signal)
    requires p.Valid() && s.symbol in t.bars
    ensures HasBars([s], t.bars) && EnterAll(b, p, t, [s]) == EnterOne(b, p, t, s)
  {
    hide EnterOne;
    assert [s][1..] == [];
  }

  lemma MarkAfterOpen(b: Book, p: PortfolioParameters, t: Today, symbol: string, pos: Position)
    requires p.Valid() && symbol in t.bars && forall x :: x in b.positions ==> x !in t.bars
    ensures var a := MarkDay(Open(b, symbol, pos), p, t);
      && a.positions == b.positions[symbol := pos.(lastClose := t.bars[symbol].close)]
      && a.cash == b.cash - Cost(pos)
  {
    hide Cost, Snap, Share;
    assert Marked(b.positions[symbol := pos], t.bars) == b.positions[symbol := pos.(lastClose := t.bars[symbol].close)];
  }

  /** The last trade is the forced sale of the position on this day. */
  ghost predicate EndsWithSale(b: Book, pos: Position, day: Date) {
    && b.trades != []
    && var t := b.trades[|b.trades| - 1];
       && t.symbol == pos.signal.symbol && t.signalDate == pos.signal.date
       && t.exitDate == day && t.reason == EndOfPeriod
  }

  lemma ExitHeld(b: Book, p: TradingParameters, t: Today, symbol: string, pos: Position, exit: real)
    requires b.positions == map[symbol := pos] && t.final && symbol in t.bars && t.bars[symbol] == FlatBar(exit)
    ensures var a := ExitOne(b, p, t, symbol);
      a.positions == map[] && a.cash == b.cash + Proceeds(exit, pos.quantity, p) && EndsWithSale(a, pos, t.date)
  {
    hide Proceeds, PositionFill;
    assert b.positions - {symbol} == map[];
  }

  lemma OneExit(b: Book, p: TradingParameters, t: Today, x: string)
    ensures ExitAll(b, p, t, [x]) == ExitOne(b, p, t, x)
  {
    hide ExitOne;
    assert [x][1..] == [];
  }

  lemma MarkNothing(b: Book, p: PortfolioParameters, t: Today)
    requires p.Valid() && b.positions == map[]
    ensures MarkDay(b, p, t).positions == map[] && MarkDay(b, p, t).cash == b.cash &&
      MarkDay(b, p, t).trades == b.trades
  {
    hide Snap, Share;
  }

  /** The last day without entries sells the one position and leaves nothing else to sell. */
  lemma LastDaySells(b: Book, p: PortfolioParameters, t: Today, symbol: string, pos: Position, exit: real)
    requires p.Valid() && b.positions == map[symbol := pos] && t.final && symbol in t.bars &&
      t.bars[symbol] == FlatBar(exit)
    ensures HasBars([], t.bars)
    ensures var a := Day(b, p, t, []);
      a.positions == map[] && a.cash == b.cash + Proceeds(exit, pos.quantity, p.trading) && EndsWithSale(a, pos, t.date)
  {
    OneKey(symbol);
    NoKeys();
    ExitHeld(b, p.trading, t, symbol, pos, exit);
    OneExit(b, p.trading, t, symbol);
    var a := ExitOne(b, p.trading, t, symbol);
    MarkNothing(a, p, t);
    hide SortedKeys, Proceeds, ExitOne, ExitAll, MarkDay;
    assert b.positions.Keys == {symbol};
    assert AfterExits(b, p, t) == a;
    assert a.positions.Keys == {};
    assert EnterAll(a, p, t, []) == a;
    assert AfterLiquidation(a, p, t) == a;
  }

  // ---- prices ----

  /** The first whole number of ticks above `x`. */
  function TicksAbove(x: real, tick: real): real
    requires 0.0 < tick
  {
    (((x / tick).Floor + 1) as real) * tick
  }

  lemma TicksAboveClose(x: real, tick: real)
    requires 0.0 < tick
    ensures x < TicksAbove(x, tick) <= x + tick && OnTick(TicksAbove(x, tick), tick)
  {
    var f := (x / tick).Floor;
    QuotientTimes(x, tick);
    MulBetween(f as real, x / tick, (f + 1) as real, tick, x);
    NextTick(f, tick);
    assert Ticks(TicksAbove(x, tick), tick, f + 1);
  }

  lemma NextTick(f: int, tick: real)
    ensures ((f + 1) as real) * tick == (f as real) * tick + tick
  {}

  lemma OneTick(tick: real)
    ensures OnTick(tick, tick) && OnTick(0.0, tick)
  {
    assert Ticks(tick, tick, 1);
    assert Ticks(0.0, tick, 0);
  }

  // ---- two days that break both claims ----

  const SYMBOL := "A"
  const SIGNAL := Signal(SYMBOL, 0)

  /** It opens at one tick, is marked at `mark`, and is sold at `exit`. */
  function TwoDays(tick: real, mark: real, exit: real): Market {
    Market([1, 2], map[1 := map[SYMBOL := Bar(tick, mark, tick, mark)], 2 := map[SYMBOL := FlatBar(exit)]])
  }

  lemma TwoDaysStorable(tick: real, mark: real, exit: real)
    requires 0.0 < tick <= mark && 0.0 <= exit && OnTick(mark, tick) && OnTick(exit, tick)
    ensures TwoDays(tick, mark, exit).Valid() && Storable(TwoDays(tick, mark, exit), tick)
  {
    OneTick(tick);
    hide OnTick;
  }

  /** The only signal enters on the first day. */
  lemma Schedule(tick: real, mark: real, exit: real)
    ensures var m := TwoDays(tick, mark, exit);
      && Looked(m, [SIGNAL])
      && Events(m, [SIGNAL], 0) == [SIGNAL] && Events(m, [SIGNAL], 1) == [] && NoEntryCount(m, [SIGNAL]) == 0
  {
    var m := TwoDays(tick, mark, exit);
    assert FindEntry(m, SIGNAL, 0) == At(0);
    assert [SIGNAL][1..] == [];
    assert forall e :: Filter([SIGNAL], HasEntry(m, e)) == if e == At(0) then [SIGNAL] else [];
  }

  /** With enough for one share at one tick, the first day enters. */
  lemma StartEnters(p: PortfolioParameters, tick: real, mark: real, exit: real)
    requires p.Valid() && 0.0 < tick && !NothingAffordable(p, tick)
    ensures CanEnter(Start(p, 0), p, TwoDays(tick, mark, exit).Day(0), SIGNAL)
  {
    var b := Start(p, 0);
    SizeInTicks(b, p, tick, 1, 1);
    IdleSpends(b, p);
    FewUnits(Unit(p, tick));
    assert (1 as real) * tick == tick;
    hide SizeEntry, Unit, InUnits, Allowed, Spendable, EntryPrice;
  }

  ghost function Held(p: PortfolioParameters, tick: real, mark: real, exit: real): Position
    requires p.Valid()
  {
    Entered(Start(p, 0), p, TwoDays(tick, mark, exit).Day(0), SIGNAL)
  }

  lemma FirstDay(p: PortfolioParameters, tick: real, mark: real, exit: real)
    requires p.Valid() && 0.0 < tick && !NothingAffordable(p, tick)
    ensures var b := Run(p, TwoDays(tick, mark, exit), [SIGNAL], 1); var pos := Held(p, tick, mark, exit);
      && b.positions == map[SYMBOL := pos.(lastClose := mark)] && b.cash == p.initialCapital - Cost(pos)
      && 1 <= pos.quantity && 0.0 <= Cost(pos) <= p.initialCapital
  {
    var m, b := TwoDays(tick, mark, exit), Start(p, 0);
    Schedule(tick, mark, exit);
    StartEnters(p, tick, mark, exit);
    OneEntryDay(b, p, m.Day(0), SIGNAL);
    EntryOpens(b, p, m.Day(0), SIGNAL);
    AllowedPositive(p);
    assert Run(p, m, [SIGNAL], 0) == b;
    RunStep(p, m, [SIGNAL], 1);
    hide Run, Day, Entered, Cost, CanEnter, Events, NoEntryCount;
    assert b.positions[SYMBOL := Held(p, tick, mark, exit).(lastClose := mark)] ==
      map[SYMBOL := Held(p, tick, mark, exit).(lastClose := mark)];
  }

  lemma SecondDay(p: PortfolioParameters, tick: real, mark: real, exit: real)
    requires p.Valid() && 0.0 < tick && !NothingAffordable(p, tick)
    ensures var b := Run(p, TwoDays(tick, mark, exit), [SIGNAL], 2); var pos := Held(p, tick, mark, exit);
      && b.positions == map[] && b.cash == p.initialCapital - Cost(pos) + Proceeds(exit, pos.quantity, p.trading)
      && EndsWithSale(b, pos, 2)
  {
    var m := TwoDays(tick, mark, exit);
    var t, b, pos := m.Day(1), Run(p, m, [SIGNAL], 1), Held(p, tick, mark, exit).(lastClose := mark);
    Schedule(tick, mark, exit);
    FirstDay(p, tick, mark, exit);
    RunStep(p, m, [SIGNAL], 2);
    hide Run, Day, Events, Held, Cost, Proceeds;
    LastDaySells(b, p, t, SYMBOL, pos, exit);
  }

  /** Selling even one share at `raw` or above loses `amount`. */
  lemma LosesAtLeast(p: PortfolioParameters, raw: real, amount: real, quantity: int)
    requires p.Valid() && !CheapSales(p) && 0.0 <= amount && 1 <= quantity
    requires Loss(p) != 0.0 && amount / Loss(p) <= raw
    ensures Proceeds(raw, quantity, p.trading) <= -amount
  {
    LossPositive(p);
    ProceedsAreLoss(p, raw, quantity);
    hide Loss, Proceeds;
    CoversOnce(amount, Loss(p), raw);
    CoversMany(amount, raw * Loss(p), quantity);
  }

  lemma CoversOnce(amount: real, loss: real, raw: real)
    requires 0.0 < loss && amount / loss <= raw
    ensures amount <= raw * loss
  {
    calc {
      amount;
    ==  { QuotientTimes(amount, loss); }
      (amount / loss) * loss;
    <=  { MulMonotone(amount / loss, raw, loss); }
      raw * loss;
    }
  }

  lemma CoversMany(amount: real, once: real, quantity: int)
    requires 0.0 <= amount <= once && 1 <= quantity
    ensures amount <= once * (quantity as real)
  {
    MulMonotone(1.0, quantity as real, once);
  }

  lemma OnePositionWorth(b: Book, pos: Position)
    requires b.positions == map[SYMBOL := pos]
    ensures Equity(b) == b.cash + pos.lastClose * (pos.quantity as real)
  {
    TotalPut(map[], Value, SYMBOL, pos);
    TotalNothing(Value);
    hide Total;
    assert b.positions == map[][SYMBOL := pos];
  }

  lemma TotalNothing(f: Position -> real)
    ensures Total(map[], f) == 0.0
  {}

  lemma EquitiesOfTwo(p: PortfolioParameters, m: Market)
    requires p.Valid() && |m.dates| == 2
    ensures var e := Equities(p, m, [SIGNAL], 2);
      e == [p.initialCapital, Equity(Run(p, m, [SIGNAL], 1)), Equity(Run(p, m, [SIGNAL], 2))]
  {
    hide Run, Equity;
    assert Equities(p, m, [SIGNAL], 1) == [p.initialCapital, Equity(Run(p, m, [SIGNAL], 1))];
  }

  lemma CrashMark(p: PortfolioParameters, tick: real) returns (mark: real)
    requires p.Valid() && 0.0 < tick
    ensures OnTick(mark, tick) && tick <= mark && 2.0 * p.initialCapital <= mark
  {
    mark := TicksAbove(2.0 * p.initialCapital + tick, tick);
    TicksAboveClose(2.0 * p.initialCapital + tick, tick);
  }

  /** A price at which any sale loses at least `amount`. */
  lemma LosingPrice(p: PortfolioParameters, tick: real, amount: real) returns (exit: real)
    requires p.Valid() && 0.0 < tick && !CheapSales(p) && 0.0 <= amount
    ensures OnTick(exit, tick) && amount <= exit
    ensures forall q: int :: 1 <= q ==> Proceeds(exit, q, p.trading) <= -amount
  {
    LossPositive(p);
    var x := Max(amount, amount / Loss(p));
    exit := TicksAbove(x, tick);
    TicksAboveClose(x, tick);
    hide Loss, Proceeds, OnTick, TicksAbove;
    forall q: int | 1 <= q ensures Proceeds(exit, q, p.trading) <= -amount { LosesAtLeast(p, exit, amount, q); }
  }

  lemma MarkedWorth(b: Book, pos: Position, amount: real)
    requires b.positions == map[SYMBOL := pos] && 1 <= pos.quantity && 0.0 <= b.cash && 0.0 <= amount <= pos.lastClose
    ensures amount <= Equity(b)
  {
    hide Equity, Value;
    OnePositionWorth(b, pos);
    CoversMany(pos.lastClose, pos.lastClose, pos.quantity);
  }

  lemma NothingWorth(b: Book)
    requires b.positions == map[]
    ensures Equity(b) == b.cash
  {
    TotalNothing(Value);
  }

  lemma CrashEquities(p: PortfolioParameters, tick: real, mark: real, exit: real)
    requires p.Valid() && 0.0 < tick && !CheapSales(p) && !NothingAffordable(p, tick)
    requires 2.0 * p.initialCapital <= mark
    requires forall q: int :: 1 <= q ==> Proceeds(exit, q, p.trading) <= -(2.0 * p.initialCapital)
    ensures var m := TwoDays(tick, mark, exit); var e := Equities(p, m, [SIGNAL], 2);
      && e[0] == p.initialCapital && 2.0 * p.initialCapital <= e[1] && e[2] <= -p.initialCapital
      && Run(p, m, [SIGNAL], 2).cash == e[2]
  {
    var m, pos := TwoDays(tick, mark, exit), Held(p, tick, mark, exit);
    FirstDay(p, tick, mark, exit);
    SecondDay(p, tick, mark, exit);
    EquitiesOfTwo(p, m);
    hide Held, Run, Proceeds, Equities, Cost, NothingAffordable, Equity;
    MarkedWorth(Run(p, m, [SIGNAL], 1), pos.(lastClose := mark), 2.0 * p.initialCapital);
    NothingWorth(Run(p, m, [SIGNAL], 2));
  }

  /** The exact equity curve of the crash: it at least doubles on the first day, and on the second the
      cash alone is at least the initial capital below zero. */
  lemma Crash(p: PortfolioParameters, tick: real) returns (m: Market, e: seq<real>)
    requires p.Valid() && 0.0 < tick && !CheapSales(p) && !NothingAffordable(p, tick)
    ensures m.Valid() && Storable(m, tick) && Looked(m, [SIGNAL]) && |m.dates| == 2 && e == Equities(p, m, [SIGNAL], 2)
    ensures e[0] == p.initialCapital && 2.0 * p.initialCapital <= e[1] && e[2] <= -p.initialCapital
    ensures Run(p, m, [SIGNAL], 2).cash == e[2]
  {
    hide OnTick, Proceeds, NothingAffordable, Run, Equities, Storable, Looked;
    var mark := CrashMark(p, tick);
    var exit := LosingPrice(p, tick, 2.0 * p.initialCapital);
    m := TwoDays(tick, mark, exit);
    TwoDaysStorable(tick, mark, exit);
    Schedule(tick, mark, exit);
    CrashEquities(p, tick, mark, exit);
    e := Equities(p, m, [SIGNAL], 2);
  }

  // ---- an account that cannot buy anything ----

  /** It stays as it started. */
  lemma NothingHappens(p: PortfolioParameters, tick: real, m: Market, signals: seq<Signal>, k: int)
    requires p.Valid() && 0.0 < tick && !CheapSales(p) && NothingAffordable(p, tick)
    requires m.Valid() && Storable(m, tick) && 0 <= k <= |m.dates|
    ensures Idle(Run(p, m, signals, k), p) && Equity(Run(p, m, signals, k)) == p.initialCapital
    ensures Solvent(Run(p, m, signals, k), p)
  {
    RunLonely(p, TooNarrow(tick), m, signals, k);
    AllowedPositive(p);
    hide Run;
    IdleSpends(Run(p, m, signals, k), p);
  }

  lemma {:induction false} FlatEquities(p: PortfolioParameters, tick: real, m: Market, signals: seq<Signal>, k: int)
    requires p.Valid() && 0.0 < tick && !CheapSales(p) && NothingAffordable(p, tick)
    requires m.Valid() && Storable(m, tick) && 0 <= k <= |m.dates|
    ensures forall i :: 0 <= i <= k ==> Equities(p, m, signals, k)[i] == p.initialCapital
    decreases k
  {
    hide Run, NothingAffordable, Storable, Equity;
    if k > 0 {
      FlatEquities(p, tick, m, signals, k - 1);
      NothingHappens(p, tick, m, signals, k);
    }
  }

  // ---- the exact conditions ----

  /** Every run of every market that can be stored keeps the cash buffer at the end of every day ... */
  ghost predicate AlwaysSolvent(p: PortfolioParameters, tick: real)
    requires p.Valid()
  {
    forall m: Market, signals, k :: m.Valid() && Storable(m, tick) && 0 <= k <= |m.dates| ==>
      Solvent(Run(p, m, signals, k), p)
  }

  /** ... exactly when commission and sales tax together do not exceed the sale, or the account cannot even
      buy one share at the lowest price. */
  lemma SolventExactly(p: PortfolioParameters, tick: real)
    requires p.Valid() && 0.0 < tick
    ensures AlwaysSolvent(p, tick) <==> CheapSales(p) || NothingAffordable(p, tick)
  {
    if CheapSales(p) || NothingAffordable(p, tick) {
      hide Run, Storable, NothingAffordable;
      forall m: Market, signals, k | m.Valid() && Storable(m, tick) && 0 <= k <= |m.dates|
        ensures Solvent(Run(p, m, signals, k), p) {
        if CheapSales(p) { RunHealthy(p, m, signals, k); } else { NothingHappens(p, tick, m, signals, k); }
      }
    } else {
      var m, e := Crash(p, tick);
      hide Run, Storable;
      AllowedPositive(p);
      assert !Solvent(Run(p, m, [SIGNAL], 2), p);
    }
  }

  /** The reported drawdown percentage is the largest relative fall, in every such run ... */
  ghost predicate DrawdownPctIsLargestFall(p: PortfolioParameters, tick: real)
    requires p.Valid()
  {
    forall m: Market, signals :: m.Valid() && Storable(m, tick) ==> PctIsLargestFall(p, m, signals)
  }

  ghost predicate PctIsLargestFall(p: PortfolioParameters, m: Market, signals: seq<Signal>)
    requires p.Valid()
  {
    var n := |m.dates|;
    var e := Equities(p, m, signals, n);
    exists fall :: IsMaxFallPct(fall, e) && MaxDrawdownPct(Run(p, m, signals, n).snapshots) == Quantize(fall)
  }

  lemma FlatIsLargestFall(p: PortfolioParameters, tick: real, m: Market, signals: seq<Signal>)
    requires p.Valid() && 0.0 < tick && !CheapSales(p) && NothingAffordable(p, tick) && m.Valid() && Storable(m, tick)
    ensures PctIsLargestFall(p, m, signals)
  {
    var n := |m.dates|;
    var e := Equities(p, m, signals, n);
    FlatEquities(p, tick, m, signals, n);
    hide Run, Equities, Quantize, Storable, NothingAffordable;
    DeepestPctIsMaxFallPct(e);
    MaxDrawdownIsDeepest(p, m, signals, n);
    assert IsMaxFallPct(DeepestPct(e), e);
  }

  /** ... under the same condition. */
  lemma DrawdownPctExactly(p: PortfolioParameters, tick: real)
    requires p.Valid() && 0.0 < tick
    ensures DrawdownPctIsLargestFall(p, tick) <==> CheapSales(p) || NothingAffordable(p, tick)
  {
    if CheapSales(p) || NothingAffordable(p, tick) {
      hide PctIsLargestFall, Storable, NothingAffordable;
      forall m: Market, signals | m.Valid() && Storable(m, tick) ensures PctIsLargestFall(p, m, signals) {
        if CheapSales(p) { CheapIsLargestFall(p, m, signals); } else { FlatIsLargestFall(p, tick, m, signals); }
      }
    } else {
      var m, e := Crash(p, tick);
      hide Run, Equities, Storable, PctIsLargestFall;
      CrashMisreports(p, m, e);
    }
  }

  lemma CheapIsLargestFall(p: PortfolioParameters, m: Market, signals: seq<Signal>)
    requires p.Valid() && m.Valid() && CheapSales(p)
    ensures PctIsLargestFall(p, m, signals)
  {
    hide Run, Equities, Quantize;
    MaxDrawdownPctMeaning(p, m, signals);
  }

  /** Over all valid markets, however fine their prices, the account is never too small: every run keeps the
      buffer, and every reported percentage is the largest relative fall, exactly when sales are cheap. */
  lemma ExactlyWhenSalesAreCheap(p: PortfolioParameters)
    requires p.Valid()
    ensures (forall m: Market, signals, k :: m.Valid() && 0 <= k <= |m.dates| ==>
      Solvent(Run(p, m, signals, k), p)) <==> CheapSales(p)
    ensures (forall m: Market, signals :: m.Valid() ==> PctIsLargestFall(p, m, signals)) <==> CheapSales(p)
  {
    hide Run, PctIsLargestFall, Storable, NothingAffordable;
    if CheapSales(p) {
      forall m: Market, signals | m.Valid()
        ensures PctIsLargestFall(p, m, signals) { CheapIsLargestFall(p, m, signals); }
      forall m: Market, signals, k | m.Valid() && 0 <= k <= |m.dates| ensures Solvent(Run(p, m, signals, k), p) {
        RunHealthy(p, m, signals, k);
      }
    } else {
      var tick := SmallTick(p);
      var m, e := Crash(p, tick);
      AllowedPositive(p);
      assert !Solvent(Run(p, m, [SIGNAL], 2), p);
      CrashMisreports(p, m, e);
    }
  }

  lemma CrashMisreports(p: PortfolioParameters, m: Market, e: seq<real>)
    requires p.Valid() && |m.dates| == 2 && e == Equities(p, m, [SIGNAL], 2)
    requires 0.0 < e[0] && 2.0 * e[0] <= e[1] && e[2] <= -e[0]
    ensures !PctIsLargestFall(p, m, [SIGNAL])
  {
    hide Run, Equities, Quantize;
    MaxDrawdownIsDeepest(p, m, [SIGNAL], 2);
    CrashFalls(e);
  }

  /** The fall from the capital is larger than the one from the peak, by more than rounding hides. */
  lemma CrashFalls(e: seq<real>)
    requires |e| == 3 && 0.0 < e[0] && 2.0 * e[0] <= e[1] && e[2] <= -e[0]
    ensures forall fall :: IsMaxFallPct(fall, e) ==> Quantize(DeepestPct(e)) < Quantize(fall)
  {
    DeepestOfCrash(e);
    FallPctComplement(e[0], e[2]);
    FallPctComplement(e[1], e[2]);
    HalfOrLess(e[0], e[1], -e[2]);
    hide Quantize, DeepestPct, FallPct;
    QuantizeError(DeepestPct(e));
    forall fall | IsMaxFallPct(fall, e) ensures Quantize(DeepestPct(e)) < Quantize(fall) {
      assert FallPct(e[0], e[2]) <= fall;
      QuantizeError(fall);
    }
  }

  lemma HalfOrLess(a: real, b: real, x: real)
    requires 0.0 < a && 2.0 * a <= b && a <= x
    ensures 1.0 <= x / a && x / b <= x / a / 2.0
    ensures (-x) / a == -(x / a) && (-x) / b == -(x / b)
  {
    var q := x / a;
    QuotientTimes(x, a);
    QuotientTimes(x, b);
    FactorMonotone(1.0, q, a);
    assert (q / 2.0) * (2.0 * a) == x;
    MulMonotone(2.0 * a, b, q / 2.0);
    FactorMonotone(x / b, q / 2.0, b);
    QuotientUnique(-x, a, -q);
    QuotientUnique(-x, b, -(x / b));
  }

  lemma DeepestOfCrash(e: seq<real>)
    requires |e| == 3 && 0.0 < e[0] && 2.0 * e[0] <= e[1] && e[2] <= -e[0]
    ensures DeepestPct(e) == FallPct(e[1], e[2])
  {
    var f := e[..2];
    assert f[..1] == e[..1];
    assert Peak(e[..1]) == e[0];
    assert Peak(f) == e[1] && Peak(e) == e[1];
    DeepestPctStep(f);
    DeepestPctStep(e);
    FallPctSelf(e[1]);
    hide FallPct;
    assert DeepestPct(f) == 0.0;
    FallPctNonNegative(e[1], e[2]);
  }
}
