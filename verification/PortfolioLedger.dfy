/** Conservation and solvency of the portfolio book, event by event and over whole runs. */
module PortfolioLedger {
  import opened Dates
  import opened Decimals
  import opened Backtest
  import opened Sizing
  import opened Portfolio

  /** What every open position satisfies between events. */
  ghost predicate PositionOk(symbol: string, pos: Position, p: TradingParameters) {
    && pos.signal.symbol == symbol
    && 1 <= pos.quantity
    && 0.0 < pos.entryPrice == EntryPrice(pos.entryRaw, p)
    && pos.buyCommission == BuyCommission(pos.entryPrice, pos.quantity, p)
    && 0.0 <= pos.lastClose
    && 0 <= pos.holdingDays < p.maxHoldingDays
  }

  /** The stored profits, each rounded on its own. */
  function StoredNet(trades: seq<Trade>): real {
    if trades == [] then 0.0 else StoredNet(trades[..|trades| - 1]) + trades[|trades| - 1].net
  }

  ghost predicate PositionsOk(m: Positions, p: TradingParameters) {
    forall s :: s in m ==> PositionOk(s, m[s], p)
  }

  /** Cash plus the cost of what is held is the initial capital plus what was realized. */
  ghost predicate Balanced(b: Book, p: PortfolioParameters) {
    b.cash + Total(b.positions, Cost) == p.initialCapital + b.realized
  }

  /** Each stored profit is off by at most half a quantum. */
  ghost predicate SmallDrift(realized: real, trades: seq<Trade>) {
    Abs(realized - StoredNet(trades)) <= |trades| as real * HALF_QUANTUM
  }

  ghost predicate Slots(b: Book, p: PortfolioParameters) {
    |b.positions| <= p.maxOpenPositions && b.maximumOpen <= p.maxOpenPositions
  }

  /** The book invariant. */
  ghost predicate Sound(b: Book, p: PortfolioParameters) {
    Balanced(b, p) && SmallDrift(b.realized, b.trades) && Slots(b, p) && PositionsOk(b.positions, p.trading)
  }

  /** Signals that have been dealt with: as a trade, as an open position, or as a skip. */
  ghost function Settled(b: Book): int { |b.trades| + |b.positions| + SkipTotal(b.skips) }

  ghost predicate Solvent(b: Book, p: PortfolioParameters) { p.Buffer() <= b.cash }

  ghost predicate ValidBars(bars: map<string, Bar>) { forall s :: s in bars ==> ValidBar(bars[s]) }

  // ---- one event ----

  /** Selling returns the cost of the position plus the realized profit. */
  lemma ProceedsAreCostPlusNet(symbol: string, pos: Position, raw: real, p: TradingParameters)
    requires pos.entryPrice == EntryPrice(pos.entryRaw, p)
    requires pos.buyCommission == BuyCommission(pos.entryPrice, pos.quantity, p)
    ensures Proceeds(raw, pos.quantity, p) == Cost(pos) + PositionFill(pos, raw, p).net
  {
    var q := pos.quantity as real;
    var exit := ExitPrice(raw, p);
    assert (exit - pos.entryPrice) * q == exit * q - pos.entryPrice * q;
  }

  /** A sale lowers cash exactly when it has a positive notional and the two sale rates exceed one. */
  lemma ProceedsSign(raw: real, quantity: int, p: TradingParameters)
    requires p.Valid() && 0.0 <= raw && 1 <= quantity
    ensures Proceeds(raw, quantity, p) < 0.0 <==> 0.0 < raw && 1.0 < p.commission + p.sellTax
  {
    hide SellNotional, AfterCosts;
    NotionalSign(raw, quantity, p);
    AfterCostsSign(SellNotional(raw, quantity, p), p.commission, p.sellTax);
  }

  lemma ExitPriceSign(raw: real, p: TradingParameters)
    requires p.Valid() && 0.0 <= raw
    ensures 0.0 <= ExitPrice(raw, p) && (0.0 < ExitPrice(raw, p) <==> 0.0 < raw)
  {
    ProductSign(raw, 1.0 - p.slippage);
  }

  lemma NotionalSign(raw: real, quantity: int, p: TradingParameters)
    requires p.Valid() && 0.0 <= raw && 1 <= quantity
    ensures 0.0 <= SellNotional(raw, quantity, p)
    ensures 0.0 < SellNotional(raw, quantity, p) <==> 0.0 < raw
  {
    hide ExitPrice;
    ExitPriceSign(raw, p);
    ProductSign(ExitPrice(raw, p), quantity as real);
  }

  lemma ProductSign(x: real, y: real)
    requires 0.0 <= x && 0.0 < y
    ensures 0.0 <= x * y && (0.0 < x * y <==> 0.0 < x)
  {}

  lemma AfterCostsSign(n: real, c: real, t: real)
    requires 0.0 <= n
    ensures AfterCosts(n, c, t) < 0.0 <==> 0.0 < n && 1.0 < c + t
  {
    var d := 1.0 - (c + t);
    assert AfterCosts(n, c, t) == n * d;
    if d < 0.0 { ProductSign(n, -d); assert n * (-d) == -(n * d); } else { MulMonotone(0.0, n, d); }
  }

  lemma DriftStep(realized: real, trades: seq<Trade>, net: real, t: Trade)
    requires SmallDrift(realized, trades) && t.net == Quantize(net)
    ensures SmallDrift(realized + net, trades + [t])
  {
    hide Quantize;
    QuantizeError(net);
    assert (trades + [t])[..|trades|] == trades;
  }

  lemma CloseSound(b: Book, p: PortfolioParameters, symbol: string, pos: Position, day: Date, raw: real,
                   reason: ExitReason)
    requires p.Valid() && symbol in b.positions && PositionOk(symbol, b.positions[symbol], p.trading)
    requires Balanced(b, p) && SmallDrift(b.realized, b.trades) &&
      pos.(holdingDays := 0) == b.positions[symbol].(holdingDays := 0)
    ensures var a := ClosePosition(b, p.trading, symbol, pos, day, raw, reason);
      && Balanced(a, p) && SmallDrift(a.realized, a.trades)
      && Settled(a) == Settled(b) && |a.positions| == |b.positions| - 1
  {
    hide Quantize, EntryPrice, ExactFill, Proceeds, BuyCommission, SmallDrift;
    var a := ClosePosition(b, p.trading, symbol, pos, day, raw, reason);
    TotalRemove(b.positions, Cost, symbol);
    ProceedsAreCostPlusNet(symbol, pos, raw, p.trading);
    DriftStep(b.realized, b.trades, PositionFill(pos, raw, p.trading).net, a.trades[|b.trades|]);
    assert (b.positions - {symbol}).Keys == b.positions.Keys - {symbol};
  }

  lemma ExitOneSound(b: Book, p: PortfolioParameters, t: Today, symbol: string)
    requires p.Valid() && Sound(b, p)
    ensures Sound(ExitOne(b, p.trading, t, symbol), p)
    ensures Settled(ExitOne(b, p.trading, t, symbol)) == Settled(b)
  {
    hide Quantize, BuyCommission, ExitPrice, EntryPrice, ExactFill, Proceeds, SmallDrift;
    if symbol in b.positions {
      var pos := b.positions[symbol];
      var bar := SeenBar(pos, symbol, t);
      if bar.Some? {
        var terms := ExitTerms(pos.entryPrice, pos.holdingDays + 1, bar.value, p.trading, t.final);
        if terms.Some? {
          hide ExitTerms;
          CloseSound(b, p, symbol, Age(pos), t.date, terms.value.1, terms.value.0);
        } else {
          AgeSound(b, p, symbol);
        }
      }
    }
  }

  lemma AgeSound(b: Book, p: PortfolioParameters, symbol: string)
    requires Sound(b, p) && symbol in b.positions && b.positions[symbol].holdingDays + 1 < p.trading.maxHoldingDays
    ensures var a := b.(positions := b.positions[symbol := Age(b.positions[symbol])]);
      Sound(a, p) && Settled(a) == Settled(b)
  {
    hide SmallDrift, EntryPrice, BuyCommission;
    var pos := b.positions[symbol];
    assert Cost(Age(pos)) == Cost(pos);
    TotalPut(b.positions, Cost, symbol, Age(pos));
    assert b.positions[symbol := Age(pos)].Keys == b.positions.Keys;
  }

  /** A valid bar never fills an exit below zero, so an exit keeps the cash buffer. */
  lemma ExitOneSolvent(b: Book, p: PortfolioParameters, t: Today, symbol: string)
    requires p.Valid() && Sound(b, p) && Solvent(b, p) && ValidBars(t.bars)
    requires p.trading.commission + p.trading.sellTax <= 1.0
    ensures Solvent(ExitOne(b, p.trading, t, symbol), p)
  {
    if symbol in b.positions {
      var pos := b.positions[symbol];
      var bar := SeenBar(pos, symbol, t);
      if bar.Some? {
        assert ValidBar(bar.value);
        ExitWithinBar(pos.entryPrice, pos.holdingDays + 1, bar.value, p.trading, t.final);
        var terms := ExitTerms(pos.entryPrice, pos.holdingDays + 1, bar.value, p.trading, t.final);
        if terms.Some? { ProceedsSign(terms.value.1, pos.quantity, p.trading); }
      }
    }
  }

  lemma CostIsOutlay(pos: Position, p: TradingParameters)
    requires pos.buyCommission == BuyCommission(pos.entryPrice, pos.quantity, p)
    ensures Cost(pos) == Outlay(pos.entryPrice, pos.quantity, p.commission)
  {}

  /** An entry that was sized always passes the second cash test, and it leaves the buffer. */
  lemma EntryIsAffordable(b: Book, p: PortfolioParameters, t: Today, s: Signal)
    requires p.Valid() && s.symbol in t.bars
    requires SizeEntry(b, p, EntryPrice(t.bars[s.symbol].open, p.trading)).Buy?
    ensures var q := SizeEntry(b, p, EntryPrice(t.bars[s.symbol].open, p.trading)).quantity;
      var pos := Bought(p.trading, t.date, t.bars[s.symbol].open, s, q);
      1 <= q && 0.0 < pos.entryPrice && Cost(pos) <= b.cash - p.Buffer() <= b.cash
  {
    var price := EntryPrice(t.bars[s.symbol].open, p.trading);
    AffordableKeepsBuffer(Target(Equity(b), p), b.cash, p.Buffer(), price, p.trading.commission);
    var q := SizeEntry(b, p, price).quantity;
    CostIsOutlay(Bought(p.trading, t.date, t.bars[s.symbol].open, s, q), p.trading);
    assert 0.0 <= p.Buffer();
  }

  lemma EnterOneSound(b: Book, p: PortfolioParameters, t: Today, s: Signal)
    requires p.Valid() && Sound(b, p) && s.symbol in t.bars
    ensures Sound(EnterOne(b, p, t, s), p)
    ensures Settled(EnterOne(b, p, t, s)) == Settled(b) + 1
    ensures Solvent(b, p) ==> Solvent(EnterOne(b, p, t, s), p)
  {
    hide EntryPrice, Affordable, SmallDrift, BuyCommission, Cost, PositionsOk;
    if s.symbol !in b.positions && |b.positions| < p.maxOpenPositions {
      var open := t.bars[s.symbol].open;
      var sized := SizeEntry(b, p, EntryPrice(open, p.trading));
      if sized.Buy? {
        EntryIsAffordable(b, p, t, s);
        OpenSound(b, p, s, open, t.date, sized.quantity);
      } else {
        BumpTotal(b.skips, sized.reason);
      }
    }
  }

  lemma OpenSound(b: Book, p: PortfolioParameters, s: Signal, open: real, day: Date, quantity: int)
    requires p.Valid() && Sound(b, p) && s.symbol !in b.positions && |b.positions| < p.maxOpenPositions
    requires 1 <= quantity && 0.0 < EntryPrice(open, p.trading)
    ensures var a := Open(b, s.symbol, Bought(p.trading, day, open, s, quantity));
      Sound(a, p) && Settled(a) == Settled(b) + 1
  {
    hide EntryPrice, SmallDrift;
    var pos := Bought(p.trading, day, open, s, quantity);
    TotalPut(b.positions, Cost, s.symbol, pos);
    assert b.positions[s.symbol := pos].Keys == b.positions.Keys + {s.symbol};
    assert PositionOk(s.symbol, pos, p.trading);
  }

  lemma LiquidateOneSound(b: Book, p: PortfolioParameters, t: Today, symbol: string)
    requires p.Valid() && Sound(b, p)
    ensures Sound(LiquidateOne(b, p.trading, t, symbol), p)
    ensures Settled(LiquidateOne(b, p.trading, t, symbol)) == Settled(b)
    ensures ValidBars(t.bars) && p.trading.commission + p.trading.sellTax <= 1.0 && Solvent(b, p)
      ==> Solvent(LiquidateOne(b, p.trading, t, symbol), p)
  {
    hide Quantize, BuyCommission, ExitPrice, ExactFill, Proceeds, SmallDrift;
    if symbol in b.positions && b.positions[symbol].entryDate == t.date && symbol in t.bars {
      CloseSound(b, p, symbol, b.positions[symbol], t.date, t.bars[symbol].close, EndOfPeriod);
      if ValidBars(t.bars) { ProceedsSign(t.bars[symbol].close, b.positions[symbol].quantity, p.trading); }
    }
  }

  lemma MarkedSound(b: Book, p: PortfolioParameters, bars: map<string, Bar>)
    requires Sound(b, p) && ValidBars(bars)
    ensures var a := b.(positions := Marked(b.positions, bars));
      Sound(a, p) && |a.positions| == |b.positions|
  {
    hide BuyCommission, EntryPrice, SmallDrift;
    var marked := Marked(b.positions, bars);
    assert marked.Keys == b.positions.Keys;
    TotalCongruent(marked, b.positions, Cost, Cost);
  }

  lemma MarkSound(b: Book, p: PortfolioParameters, t: Today)
    requires p.Valid() && Sound(b, p) && ValidBars(t.bars)
    ensures Sound(MarkDay(b, p, t), p)
    ensures Settled(MarkDay(b, p, t)) == Settled(b)
  {
    hide Quantize, PositionsOk, Marked;
    MarkedSound(b, p, t.bars);
  }
}
