/** The portfolio backtest as a function of its inputs: what one event, one phase and one day do
    to the book. The order of a day is exits, entries, final liquidation, closing marks. */
module Portfolio {
  import opened Dates
  import opened Options
  import opened Ordering
  import opened Decimals
  import opened Backtest
  import opened Sizing

  datatype PortfolioParameters = PortfolioParameters(
    initialCapital: real,
    maxOpenPositions: int,
    positionSizePct: real,
    minimumCashBufferPct: real,
    trading: TradingParameters)
  {
    predicate Valid() {
      && 0.0 < initialCapital
      && 1 <= maxOpenPositions
      && 0.0 < positionSizePct <= 1.0
      && 0.0 <= minimumCashBufferPct < 1.0
      && trading.Valid()
      && trading.initialCapital == initialCapital == trading.positionSize
    }

    function Buffer(): real { initialCapital * minimumCashBufferPct }
  }

  datatype Position = Position(
    signal: Signal,
    entryDate: Date,
    entryRaw: real,
    entryPrice: real,
    quantity: int,
    buyCommission: real,
    lastClose: real,
    holdingDays: int)

  function Cost(pos: Position): real { pos.entryPrice * (pos.quantity as real) + pos.buyCommission }

  function Value(pos: Position): real { pos.lastClose * (pos.quantity as real) }

  function Gain(pos: Position): real { Value(pos) - Cost(pos) }

  type Positions = map<string, Position>

  /** The sum of `f` over the open positions; the order of a dictionary does not matter. */
  ghost function Total(m: Positions, f: Position -> real): real {
    if m == map[] then 0.0 else
    var k :| k in m;
    f(m[k]) + Total(m - {k}, f)
  }

  lemma TotalRemove(m: Positions, f: Position -> real, k: string)
    requires k in m
    ensures Total(m, f) == f(m[k]) + Total(m - {k}, f)
    decreases |m|
  {
    var j :| j in m && Total(m, f) == f(m[j]) + Total(m - {j}, f);
    if j != k {
      TotalRemove(m - {j}, f, k);
      TotalRemove(m - {k}, f, j);
      assert m - {j} - {k} == m - {k} - {j};
    }
  }

  lemma TotalPut(m: Positions, f: Position -> real, k: string, pos: Position)
    ensures Total(m[k := pos], f) == (if k in m then Total(m, f) - f(m[k]) else Total(m, f)) + f(pos)
  {
    TotalRemove(m[k := pos], f, k);
    assert m[k := pos] - {k} == m - {k};
    if k in m { TotalRemove(m, f, k); } else { assert m - {k} == m; }
  }

  /** Only the function's values on the entries count. */
  lemma TotalCongruent(m: Positions, n: Positions, f: Position -> real, g: Position -> real)
    requires m.Keys == n.Keys && forall k :: k in m ==> f(m[k]) == g(n[k])
    ensures Total(m, f) == Total(n, g)
    decreases |m|
  {
    if m != map[] {
      var k :| k in m;
      TotalRemove(m, f, k);
      TotalRemove(n, g, k);
      TotalCongruent(m - {k}, n - {k}, f, g);
    } else {
      assert n == map[];
    }
  }

  lemma TotalNonNegative(m: Positions, f: Position -> real)
    requires forall k :: k in m ==> f(m[k]) >= 0.0
    ensures Total(m, f) >= 0.0
    decreases |m|
  {
    if m != map[] {
      var k :| k in m;
      TotalRemove(m, f, k);
      TotalNonNegative(m - {k}, f);
    }
  }

  lemma TotalDifference(m: Positions)
    ensures Total(m, Gain) == Total(m, Value) - Total(m, Cost)
    decreases |m|
  {
    if m != map[] {
      var k :| k in m;
      TotalRemove(m, Gain, k);
      TotalRemove(m, Value, k);
      TotalRemove(m, Cost, k);
      TotalDifference(m - {k});
    }
  }

  type Skips = map<SkipReason, int>

  function SkipCount(skips: Skips, r: SkipReason): int { if r in skips then skips[r] else 0 }

  /** `skips[reason] = skips.get(reason, 0) + 1`. */
  function Bump(skips: Skips, r: SkipReason): Skips { skips[r := SkipCount(skips, r) + 1] }

  /** `sum(skips.values())`. */
  function SkipTotal(skips: Skips): int {
    SkipCount(skips, MaxOpenPositions) + SkipCount(skips, DuplicateSymbol) + SkipCount(skips, InsufficientCash)
    + SkipCount(skips, MinimumCashBuffer) + SkipCount(skips, QuantityZero) + SkipCount(skips, SkipReason.NoEntryBar)
    + SkipCount(skips, InvalidPrice)
  }

  lemma BumpTotal(skips: Skips, r: SkipReason)
    ensures SkipTotal(Bump(skips, r)) == SkipTotal(skips) + 1
  {}

  datatype Snapshot = Snapshot(
    date: Date,
    cash: real,
    market: real,
    realized: real,
    unrealized: real,
    equity: real,
    cumulativeReturn: real,
    peak: real,
    drawdown: real,
    drawdownPct: real,
    openPositions: int)

  type Positive = x: real | 0.0 < x witness 1.0

  datatype Book = Book(
    cash: real,
    peak: Positive,
    realized: real,
    positions: Positions,
    trades: seq<Trade>,
    skips: Skips,
    snapshots: seq<Snapshot>,
    maximumOpen: int,
    utilization: real)

  ghost function Equity(b: Book): real { b.cash + Total(b.positions, Value) }

  // ---- one event ----

  function PositionFill(pos: Position, raw: real, p: TradingParameters): Fill {
    ExactFill(pos.entryRaw, pos.quantity, raw, p)
  }

  function SellNotional(raw: real, quantity: int, p: TradingParameters): real { ExitPrice(raw, p) * (quantity as real) }

  /** What a sale brings in after its commission and tax. */
  function Proceeds(raw: real, quantity: int, p: TradingParameters): real {
    AfterCosts(SellNotional(raw, quantity, p), p.commission, p.sellTax)
  }

  function AfterCosts(notional: real, commission: real, tax: real): real {
    notional - notional * commission - notional * tax
  }

  function ClosePosition(b: Book, p: TradingParameters, symbol: string, pos: Position, day: Date, raw: real,
                         reason: ExitReason): Book {
    var fill := PositionFill(pos, raw, p);
    b.(cash := b.cash + Proceeds(raw, pos.quantity, p),
       realized := b.realized + fill.net,
       trades := b.trades + [RecordTrade(pos.signal, pos.entryDate, pos.quantity,
         Exit(day, reason, raw, pos.holdingDays), fill)],
       positions := b.positions - {symbol})
  }

  function FlatBar(x: real): Bar { Bar(x, x, x, x) }

  function Age(pos: Position): Position { pos.(holdingDays := pos.holdingDays + 1) }

  /** What a day brings: its date, its bars by symbol, and whether it is the last of the calendar. */
  datatype Today = Today(date: Date, bars: map<string, Bar>, final: bool)

  /** The bar an open position sees today; on the last day a missing bar repeats its last close. */
  function SeenBar(pos: Position, symbol: string, t: Today): Option<Bar> {
    if symbol in t.bars then Some(t.bars[symbol])
    else if t.final then Some(FlatBar(pos.lastClose))
    else None
  }

  function ExitOne(b: Book, p: TradingParameters, t: Today, symbol: string): Book {
    if symbol !in b.positions then b else
    var pos := b.positions[symbol];
    var bar := SeenBar(pos, symbol, t);
    if bar.None? then b
    else
      var aged := Age(pos);
      var terms := ExitTerms(aged.entryPrice, aged.holdingDays, bar.value, p, t.final);
      if terms.None? then b.(positions := b.positions[symbol := aged])
      else ClosePosition(b, p, symbol, aged, t.date, terms.value.1, terms.value.0)
  }

  function Skip(b: Book, r: SkipReason): Book { b.(skips := Bump(b.skips, r)) }

  function BuyCommission(price: real, quantity: int, p: TradingParameters): real {
    price * (quantity as real) * p.commission
  }

  /** The position that buying `quantity` shares at today's open creates. */
  function Bought(p: TradingParameters, day: Date, open: real, s: Signal, quantity: int): Position {
    var price := EntryPrice(open, p);
    Position(s, day, open, price, quantity, BuyCommission(price, quantity, p), price, 0)
  }

  function Open(b: Book, symbol: string, pos: Position): Book {
    var positions := b.positions[symbol := pos];
    b.(cash := b.cash - Cost(pos), positions := positions, maximumOpen := MaxInt(b.maximumOpen, |positions|))
  }

  /** The share of the equity that one position may take. */
  function Target(equity: real, p: PortfolioParameters): real { equity * p.positionSizePct }

  /** The quantity an entry at `price` may buy now. */
  ghost function SizeEntry(b: Book, p: PortfolioParameters, price: real): Sizing
    requires p.Valid()
  {
    Affordable(Target(Equity(b), p), b.cash, p.Buffer(), price, p.trading.commission)
  }

  /** One entry event; the cash test after sizing is there as in the original. */
  ghost function EnterOne(b: Book, p: PortfolioParameters, t: Today, s: Signal): Book
    requires p.Valid() && s.symbol in t.bars
  {
    var open := t.bars[s.symbol].open;
    if s.symbol in b.positions then Skip(b, DuplicateSymbol)
    else if |b.positions| >= p.maxOpenPositions then Skip(b, MaxOpenPositions)
    else match SizeEntry(b, p, EntryPrice(open, p.trading))
      case Refuse(reason) => Skip(b, reason)
      case Buy(quantity) =>
        var pos := Bought(p.trading, t.date, open, s, quantity);
        if Cost(pos) > b.cash then Skip(b, InsufficientCash) else Open(b, s.symbol, pos)
  }

  /** A position entered on the last day is sold at that day's close. */
  function LiquidateOne(b: Book, p: TradingParameters, t: Today, symbol: string): Book {
    if symbol in b.positions && b.positions[symbol].entryDate == t.date && symbol in t.bars
    then ClosePosition(b, p, symbol, b.positions[symbol], t.date, t.bars[symbol].close, EndOfPeriod)
    else b
  }

  function Marked(positions: Positions, bars: map<string, Bar>): Positions {
    map s | s in positions :: if s in bars then positions[s].(lastClose := bars[s].close) else positions[s]
  }

  /** The snapshot of a day from the book's exact amounts; every field is quantized on its own. */
  function Snap(day: Date, cash: real, realized: real, market: real, gain: real, peak: Positive,
                p: PortfolioParameters, open: int): Snapshot
    requires p.Valid()
  {
    var equity := cash + market;
    var drawdown := peak - equity;
    Snapshot(day, Quantize(cash), Quantize(market), Quantize(realized), Quantize(gain), Quantize(equity),
             Quantize(equity / p.initialCapital - 1.0), Quantize(peak), Quantize(drawdown),
             Quantize(drawdown / peak), open)
  }

  /** The invested share of the equity. */
  function Share(market: real, equity: real): real { if equity != 0.0 then market / equity else 0.0 }

  /** Closing marks and the end-of-day snapshot. */
  ghost function MarkDay(b: Book, p: PortfolioParameters, t: Today): Book
    requires p.Valid()
  {
    var positions := Marked(b.positions, t.bars);
    var market := Total(positions, Value);
    var peak := Max(b.peak, b.cash + market);
    b.(positions := positions,
       peak := peak,
       utilization := b.utilization + Share(market, b.cash + market),
       snapshots := b.snapshots + [Snap(t.date, b.cash, b.realized, market, Total(positions, Gain), peak, p,
         |positions|)])
  }

  // ---- one phase ----

  function ExitAll(b: Book, p: TradingParameters, t: Today, symbols: seq<string>): Book
    decreases |symbols|
  {
    if symbols == [] then b
    else ExitAll(ExitOne(b, p, t, symbols[0]), p, t, symbols[1..])
  }

  ghost predicate HasBars(events: seq<Signal>, bars: map<string, Bar>) {
    forall s :: s in events ==> s.symbol in bars
  }

  ghost function EnterAll(b: Book, p: PortfolioParameters, t: Today, events: seq<Signal>): Book
    requires p.Valid() && HasBars(events, t.bars)
    decreases |events|
  {
    if events == [] then b
    else EnterAll(EnterOne(b, p, t, events[0]), p, t, events[1..])
  }

  function LiquidateAll(b: Book, p: TradingParameters, t: Today, symbols: seq<string>): Book
    decreases |symbols|
  {
    if symbols == [] then b
    else LiquidateAll(LiquidateOne(b, p, t, symbols[0]), p, t, symbols[1..])
  }

  // ---- one day ----

  ghost function AfterExits(b: Book, p: PortfolioParameters, t: Today): Book {
    ExitAll(b, p.trading, t, SortedKeys(b.positions.Keys))
  }

  ghost function AfterLiquidation(b: Book, p: PortfolioParameters, t: Today): Book {
    if t.final then LiquidateAll(b, p.trading, t, SortedKeys(b.positions.Keys)) else b
  }

  ghost function Day(b: Book, p: PortfolioParameters, t: Today, events: seq<Signal>): Book
    requires p.Valid() && HasBars(events, t.bars)
  {
    var b1 := AfterExits(b, p, t);
    var b2 := EnterAll(b1, p, t, events);
    var b3 := AfterLiquidation(b2, p, t);
    MarkDay(b3, p, t)
  }

  // ---- a run ----

  datatype Market = Market(dates: seq<Date>, byDate: map<Date, map<string, Bar>>)
  {
    /** `by_date.get(day, {})` for the day with index `i`. */
    function Bars(i: int): map<string, Bar>
      requires 0 <= i < |dates|
    {
      if dates[i] in byDate then byDate[dates[i]] else map[]
    }

    function Day(i: int): Today
      requires 0 <= i < |dates|
    {
      Today(dates[i], Bars(i), i == |dates| - 1)
    }

    ghost predicate Valid() {
      && (forall i, j :: 0 <= i < j < |dates| ==> dates[i] < dates[j])
      && (forall d, s :: d in byDate && s in byDate[d] ==> ValidBar(byDate[d][s]))
    }
  }

  /** `MissingDay` is the failed dictionary lookup on a day without any bar of a signalled symbol. */
  datatype Entry = At(index: int) | NoEntry | MissingDay

  /** The first calendar day after the signal on which its symbol has a bar, searched from `i`. */
  function FindEntry(m: Market, s: Signal, i: int): (e: Entry)
    requires 0 <= i <= |m.dates|
    ensures e.At? ==> i <= e.index < |m.dates| && m.dates[e.index] > s.date && s.symbol in m.Bars(e.index)
    decreases |m.dates| - i
  {
    if i == |m.dates| then NoEntry
    else if m.dates[i] <= s.date then FindEntry(m, s, i + 1)
    else if m.dates[i] !in m.byDate then MissingDay
    else if s.symbol in m.byDate[m.dates[i]] then At(i)
    else FindEntry(m, s, i + 1)
  }

  /** No signal meets a day that fails the lookup. */
  ghost predicate Looked(m: Market, signals: seq<Signal>) {
    forall s :: s in signals ==> FindEntry(m, s, 0) != MissingDay
  }

  function HasEntry(m: Market, e: Entry): Signal -> bool {
    (s: Signal) => FindEntry(m, s, 0) == e
  }

  /** The signals whose entry day is day `i`, in signal order. */
  function Events(m: Market, signals: seq<Signal>, i: int): (r: seq<Signal>)
    requires 0 <= i < |m.dates|
    ensures HasBars(r, m.Bars(i))
  {
    Filter(signals, HasEntry(m, At(i)))
  }

  function NoEntryCount(m: Market, signals: seq<Signal>): int { |Filter(signals, HasEntry(m, NoEntry))| }

  function Start(p: PortfolioParameters, noEntry: int): Book
    requires p.Valid()
  {
    Book(p.initialCapital, p.initialCapital, 0.0, map[], [],
         if noEntry == 0 then map[] else map[SkipReason.NoEntryBar := noEntry], [], 0, 0.0)
  }

  /** The book after the first `k` days of the calendar. */
  ghost function Run(p: PortfolioParameters, m: Market, signals: seq<Signal>, k: int): Book
    requires p.Valid() && 0 <= k <= |m.dates|
    decreases k
  {
    if k == 0 then Start(p, NoEntryCount(m, signals))
    else Day(Run(p, m, signals, k - 1), p, m.Day(k - 1), Events(m, signals, k - 1))
  }
}
