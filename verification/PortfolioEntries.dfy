/** What an entry event decides, in terms of what the account may spend, and what the counters of entries
    and skips hold after a whole run. */
module PortfolioEntries {
  import opened Ordering
  import opened Decimals
  import opened Backtest
  import opened Sizing
  import opened Portfolio
  import opened PortfolioLedger
  import opened PortfolioSnapshots

  // ---- one entry event ----

  /** Nothing happens but that one skip is counted. */
  ghost predicate SkippedFor(reason: SkipReason, b: Book, a: Book) {
    && a == b.(skips := a.skips)
    && forall r :: SkipCount(a.skips, r) == SkipCount(b.skips, r) + if r == reason then 1 else 0
  }

  /** The cash that entries never touch. */
  function Reserve(p: PortfolioParameters): real { p.initialCapital * p.minimumCashBufferPct }

  /** What the account may spend on one position: its share of the equity, but never the reserve. */
  ghost function MaySpend(b: Book, p: PortfolioParameters): real {
    Min(Equity(b) * p.positionSizePct, b.cash - Reserve(p))
  }

  /** The most shares that the account may buy at `price`, commission included. */
  ghost predicate MostShares(b: Book, p: PortfolioParameters, price: real, q: int) {
    1 <= q && Outlay(price, q, p.trading.commission) <= MaySpend(b, p) < Outlay(price, q + 1, p.trading.commission)
  }

  /** The most shares are bought; cash pays for them and the commission, and equity loses just that
      commission until the next mark. */
  ghost predicate Entered(b: Book, a: Book, p: PortfolioParameters, t: Today, s: Signal, price: real, q: int) {
    && MostShares(b, p, price, q) && s.symbol in t.bars && s.symbol in a.positions
    && a.positions - {s.symbol} == b.positions
    && Holds(a.positions[s.symbol], p, t, s, price, q)
    && a.cash == b.cash - Outlay(price, q, p.trading.commission)
    && Equity(a) == Equity(b) - BuyCommission(price, q, p.trading)
    && a == b.(cash := a.cash, positions := a.positions, maximumOpen := MaxInt(b.maximumOpen, |b.positions| + 1))
  }

  ghost predicate Holds(pos: Position, p: PortfolioParameters, t: Today, s: Signal, price: real, q: int)
    requires s.symbol in t.bars
  {
    && pos.signal == s && pos.entryDate == t.date && pos.entryRaw == t.bars[s.symbol].open
    && pos.entryPrice == price && pos.quantity == q && pos.holdingDays == 0
    && Cost(pos) == Outlay(price, q, p.trading.commission)
  }

  ghost predicate Free(b: Book, p: PortfolioParameters, s: Signal) {
    s.symbol !in b.positions && |b.positions| < p.maxOpenPositions
  }

  /** Why a free entry at `price` is refused, if it is. */
  ghost predicate RefusedFor(reason: SkipReason, b: Book, p: PortfolioParameters, price: real) {
    match reason
    case InvalidPrice => price <= 0.0
    case MinimumCashBuffer => 0.0 < price && b.cash <= Reserve(p)
    case QuantityZero => 0.0 < price && Reserve(p) < b.cash && MaySpend(b, p) < price
    case InsufficientCash =>
      0.0 < price && Reserve(p) < b.cash && price <= MaySpend(b, p) < Outlay(price, 1, p.trading.commission)
    case _ => false
  }

  /** Exactly when an entry is skipped, for which reason, and what it buys otherwise. */
  lemma EntryDecision(b: Book, p: PortfolioParameters, t: Today, s: Signal)
    requires p.Valid() && s.symbol in t.bars
    ensures var a := EnterOne(b, p, t, s); var price := EntryPrice(t.bars[s.symbol].open, p.trading);
      && (s.symbol in b.positions ==> SkippedFor(DuplicateSymbol, b, a))
      && (s.symbol !in b.positions && !Free(b, p, s) ==> SkippedFor(MaxOpenPositions, b, a))
      && (Free(b, p, s) ==>
            && (forall r :: RefusedFor(r, b, p, price) ==> SkippedFor(r, b, a))
            && ((forall r :: !RefusedFor(r, b, p, price)) ==> exists q :: Entered(b, a, p, t, s, price, q)))
  {
    hide EntryPrice, SizeEntry, RefusedFor, Entered, Cost;
    var a, price := EnterOne(b, p, t, s), EntryPrice(t.bars[s.symbol].open, p.trading);
    if Free(b, p, s) {
      var sized := SizeEntry(b, p, price);
      SizeReasons(b, p, price);
      if sized.Refuse? {
        assert RefusedFor(sized.reason, b, p, price);
      } else {
        EntryIsAffordable(b, p, t, s);
        OpenEntered(b, p, t, s, sized.quantity);
      }
    }
  }

  lemma MaySpendIs(b: Book, p: PortfolioParameters)
    requires p.Valid()
    ensures Reserve(p) == p.Buffer() && MaySpend(b, p) == Min(Target(Equity(b), p), b.cash - p.Buffer())
  {
    hide Equity;
  }

  /** Sizing in terms of what may be spent. */
  lemma SizeReasons(b: Book, p: PortfolioParameters, price: real)
    requires p.Valid()
    ensures var r := SizeEntry(b, p, price);
      && (forall x :: RefusedFor(x, b, p, price) <==> r == Refuse(x))
      && (r.Buy? ==> MostShares(b, p, price, r.quantity))
  {
    MaySpendIs(b, p);
    hide Equity, Target, PortfolioParameters.Buffer, Reserve, MaySpend, Outlay, LargestAffordable;
    var rate := p.trading.commission;
    if 0.0 < price && p.Buffer() < b.cash {
      AffordableReasons(Target(Equity(b), p), b.cash, p.Buffer(), price, rate);
      OutlayStep(price, 0, rate);
      OneShareAboveZero(price, rate);
    }
  }

  lemma OneShareAboveZero(price: real, rate: real)
    requires 0.0 < price && 0.0 <= rate
    ensures price <= Outlay(price, 1, rate)
  {
    MulMonotone(0.0, rate, price);
  }

  lemma OpenEntered(b: Book, p: PortfolioParameters, t: Today, s: Signal, q: int)
    requires p.Valid() && s.symbol in t.bars && Free(b, p, s)
    requires MostShares(b, p, EntryPrice(t.bars[s.symbol].open, p.trading), q)
    ensures var price := EntryPrice(t.bars[s.symbol].open, p.trading);
      Entered(b, Open(b, s.symbol, Bought(p.trading, t.date, t.bars[s.symbol].open, s, q)), p, t, s, price, q)
  {
    var pos := Bought(p.trading, t.date, t.bars[s.symbol].open, s, q);
    var a := Open(b, s.symbol, pos);
    CostIsOutlay(pos, p.trading);
    hide EntryPrice, Outlay, MostShares, BuyCommission, Equity;
    OpenCostsCommission(b, p, s.symbol, pos);
    hide Cost;
    assert a.positions - {s.symbol} == b.positions;
    assert a.positions.Keys == b.positions.Keys + {s.symbol};
  }

  /** A position is first marked at the price it was bought for. */
  lemma OpenCostsCommission(b: Book, p: PortfolioParameters, symbol: string, pos: Position)
    requires symbol !in b.positions && pos.lastClose == pos.entryPrice
    ensures Equity(Open(b, symbol, pos)) == Equity(b) - pos.buyCommission
  {
    TotalPut(b.positions, Value, symbol, pos);
    hide Total;
  }

  // ---- the counters of a run ----

  lemma {:induction false} EntriesCount(b: Book, p: PortfolioParameters, t: Today, events: seq<Signal>)
    requires p.Valid() && HasBars(events, t.bars) && |b.positions| <= b.maximumOpen
    ensures var a := EnterAll(b, p, t, events);
      && |b.positions| <= |a.positions| && a.maximumOpen == MaxInt(b.maximumOpen, |a.positions|)
      && SkipCount(a.skips, SkipReason.NoEntryBar) == SkipCount(b.skips, SkipReason.NoEntryBar)
    decreases |events|
  {
    if events != [] {
      EntryCounts(b, p, t, events[0]);
      hide EnterOne;
      EntriesCount(EnterOne(b, p, t, events[0]), p, t, events[1..]);
    }
  }

  lemma EntryCounts(b: Book, p: PortfolioParameters, t: Today, s: Signal)
    requires p.Valid() && s.symbol in t.bars && |b.positions| <= b.maximumOpen
    ensures var a := EnterOne(b, p, t, s);
      && |b.positions| <= |a.positions| && a.maximumOpen == MaxInt(b.maximumOpen, |a.positions|)
      && SkipCount(a.skips, SkipReason.NoEntryBar) == SkipCount(b.skips, SkipReason.NoEntryBar)
  {
    hide EntryPrice, Cost, LargestAffordable;
  }

  lemma {:induction false} ExitsCount(b: Book, p: TradingParameters, t: Today, symbols: seq<string>)
    ensures var a := ExitAll(b, p, t, symbols);
      |a.positions| <= |b.positions| && a.maximumOpen == b.maximumOpen && a.skips == b.skips
    decreases |symbols|
  {
    hide Quantize, ExactFill, ExitTerms;
    if symbols != [] {
      ExitCounts(b, p, t, symbols[0]);
      hide ExitOne;
      ExitsCount(ExitOne(b, p, t, symbols[0]), p, t, symbols[1..]);
    }
  }

  lemma ExitCounts(b: Book, p: TradingParameters, t: Today, symbol: string)
    ensures var a := ExitOne(b, p, t, symbol);
      |a.positions| <= |b.positions| && a.maximumOpen == b.maximumOpen && a.skips == b.skips
  {
    hide Quantize, ExactFill, ExitTerms;
    Fewer(b.positions, symbol);
    if symbol in b.positions {
      assert b.positions[symbol := Age(b.positions[symbol])].Keys == b.positions.Keys;
    }
  }

  lemma Fewer(m: Positions, symbol: string)
    ensures |m - {symbol}| <= |m|
  {
    assert (m - {symbol}).Keys == m.Keys - {symbol};
  }

  lemma {:induction false} LiquidationCounts(b: Book, p: TradingParameters, t: Today, symbols: seq<string>)
    ensures var a := LiquidateAll(b, p, t, symbols);
      |a.positions| <= |b.positions| && a.maximumOpen == b.maximumOpen && a.skips == b.skips
    decreases |symbols|
  {
    hide Quantize, ExactFill;
    if symbols != [] {
      Fewer(b.positions, symbols[0]);
      LiquidationCounts(LiquidateOne(b, p, t, symbols[0]), p, t, symbols[1..]);
    }
  }

  /** How many positions are open once the entries of day `j` are done. */
  ghost function OpenAfterEntries(p: PortfolioParameters, m: Market, signals: seq<Signal>, j: int): int
    requires p.Valid() && 0 <= j < |m.dates|
  {
    |EnterAll(AfterExits(Run(p, m, signals, j), p, m.Day(j)), p, m.Day(j), Events(m, signals, j)).positions|
  }

  lemma DayCounts(p: PortfolioParameters, m: Market, signals: seq<Signal>, j: int)
    requires p.Valid() && 0 <= j < |m.dates|
    requires |Run(p, m, signals, j).positions| <= Run(p, m, signals, j).maximumOpen
    ensures var b, a := Run(p, m, signals, j), Run(p, m, signals, j + 1);
      && |a.positions| <= OpenAfterEntries(p, m, signals, j)
      && a.maximumOpen == MaxInt(b.maximumOpen, OpenAfterEntries(p, m, signals, j))
      && SkipCount(a.skips, SkipReason.NoEntryBar) == SkipCount(b.skips, SkipReason.NoEntryBar)
  {
    var b, t, events := Run(p, m, signals, j), m.Day(j), Events(m, signals, j);
    RunStep(p, m, signals, j + 1);
    hide Run, ExitAll, EnterAll, LiquidateAll, Snap, Events;
    var b1 := AfterExits(b, p, t);
    var b2 := EnterAll(b1, p, t, events);
    ExitsCount(b, p.trading, t, SortedKeys(b.positions.Keys));
    EntriesCount(b1, p, t, events);
    LiquidationCounts(b2, p.trading, t, SortedKeys(b2.positions.Keys));
    var b3 := AfterLiquidation(b2, p, t);
    assert Marked(b3.positions, t.bars).Keys == b3.positions.Keys;
  }

  lemma StartCounters(p: PortfolioParameters, m: Market, signals: seq<Signal>)
    requires p.Valid()
    ensures var b := Run(p, m, signals, 0);
      b.positions == map[] && b.maximumOpen == 0
      && SkipCount(b.skips, SkipReason.NoEntryBar) == NoEntryCount(m, signals)
  {}

  /** `x` is the largest number of positions open after the entries of one of the first `k` days. */
  ghost predicate IsMostOpen(x: int, p: PortfolioParameters, m: Market, signals: seq<Signal>, k: int)
    requires p.Valid() && 0 <= k <= |m.dates|
  {
    && (forall j :: 0 <= j < k ==> OpenAfterEntries(p, m, signals, j) <= x)
    && (x == 0 || exists j :: 0 <= j < k && OpenAfterEntries(p, m, signals, j) == x)
  }

  lemma MostOpenStep(x: int, p: PortfolioParameters, m: Market, signals: seq<Signal>, k: int)
    requires p.Valid() && 0 <= k < |m.dates| && IsMostOpen(x, p, m, signals, k)
    ensures IsMostOpen(MaxInt(x, OpenAfterEntries(p, m, signals, k)), p, m, signals, k + 1)
  {
    hide OpenAfterEntries;
    if x != 0 {
      var j :| 0 <= j < k && OpenAfterEntries(p, m, signals, j) == x;
      assert OpenAfterEntries(p, m, signals, j) == x;
    }
    assert OpenAfterEntries(p, m, signals, k) <= MaxInt(x, OpenAfterEntries(p, m, signals, k));
  }

  /** The reported maximum is the most positions open at once, which is after the entries of some day, and
      the skips for a missing entry bar are the signals without one. */
  lemma {:induction false} CountersMeaning(p: PortfolioParameters, m: Market, signals: seq<Signal>, k: int)
    requires p.Valid() && 0 <= k <= |m.dates|
    ensures var b := Run(p, m, signals, k);
      && |b.positions| <= b.maximumOpen && IsMostOpen(b.maximumOpen, p, m, signals, k)
      && SkipCount(b.skips, SkipReason.NoEntryBar) == NoEntryCount(m, signals)
    decreases k
  {
    hide Run, OpenAfterEntries, NoEntryCount, SkipCount;
    if k == 0 {
      StartCounters(p, m, signals);
    } else {
      CountersMeaning(p, m, signals, k - 1);
      DayCounts(p, m, signals, k - 1);
      MostOpenStep(Run(p, m, signals, k - 1).maximumOpen, p, m, signals, k - 1);
      hide IsMostOpen;
    }
  }
}
