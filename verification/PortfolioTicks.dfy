/** Markets as they can be stored: every price is a whole number of ticks. What the smallest price decides
    about entries, and the runs in which no second position can ever be open. */
module PortfolioTicks {
  import opened Dates
  import opened Ordering
  import opened Decimals
  import opened Backtest
  import opened Sizing
  import opened Portfolio
  import opened PortfolioLedger
  import opened PortfolioRuns

  /** The step of the price columns, which have six decimals. */
  const PRICE_TICK := 0.000001

  predicate Ticks(x: real, tick: real, k: int) { x == (k as real) * tick }

  ghost predicate OnTick(x: real, tick: real) { exists k: int :: Ticks(x, tick, k) }

  ghost predicate StorableBar(b: Bar, tick: real) {
    OnTick(b.open, tick) && OnTick(b.high, tick) && OnTick(b.low, tick) && OnTick(b.close, tick)
  }

  ghost predicate StorableBars(bars: map<string, Bar>, tick: real) {
    forall s :: s in bars ==> StorableBar(bars[s], tick)
  }

  ghost predicate Storable(m: Market, tick: real) { forall d :: d in m.byDate ==> StorableBars(m.byDate[d], tick) }

  // ---- what the first entry may spend, and what one share at one tick costs ----

  /** The cash above the buffer at the start. */
  function Room(p: PortfolioParameters): real { p.initialCapital - p.Buffer() }

  /** What the first entry may spend. */
  function Allowed(p: PortfolioParameters): real { Min(Target(p.initialCapital, p), Room(p)) }

  /** One share at the lowest positive price, slippage and commission included. */
  function Unit(p: PortfolioParameters, tick: real): real {
    Outlay(EntryPrice(tick, p.trading), 1, p.trading.commission)
  }

  /** Not even one share at the lowest price can be bought. */
  predicate NothingAffordable(p: PortfolioParameters, tick: real) { Allowed(p) < Unit(p, tick) }

  /** Whatever the first entry costs, less than one share at the lowest price can be bought after it. */
  predicate Narrow(p: PortfolioParameters, tick: real) {
    var u := Unit(p, tick);
    NothingAffordable(p, tick) || Room(p) < 2.0 * u || (2.0 * u <= Allowed(p) && Room(p) < 3.0 * u)
  }

  lemma AllowedPositive(p: PortfolioParameters)
    requires p.Valid()
    ensures 0.0 < Allowed(p) <= Room(p) <= p.initialCapital && 0.0 <= p.Buffer() < p.initialCapital
  {
    PositiveProduct(p.initialCapital, p.positionSizePct);
    PartOf(p.Buffer(), p.initialCapital, p.minimumCashBufferPct);
    assert 0.0 < Target(p.initialCapital, p);
    hide Target, PortfolioParameters.Buffer;
  }

  /** A share below one of something positive. */
  lemma PartOf(part: real, whole: real, share: real)
    requires part == whole * share && 0.0 < whole && 0.0 <= share < 1.0
    ensures 0.0 <= part < whole
  {
    MulMonotone(0.0, share, whole);
    MulStrict(share, 1.0, whole);
  }

  lemma UnitPositive(p: PortfolioParameters, tick: real)
    requires p.Valid() && 0.0 < tick
    ensures 0.0 < Unit(p, tick)
  {
    PositiveProduct(tick, 1.0 + p.trading.slippage);
    PositiveProduct(EntryPrice(tick, p.trading), 1.0 + p.trading.commission);
  }

  lemma Regroup(a: real, t: real, s: real, q: real, c: real)
    ensures a * t * s * q * c == (q * a) * (t * s * 1.0 * c)
  {
    var e := t * s;
    assert a * t * s == a * e;
    RegroupThree(a, e, q, c);
  }

  lemma RegroupThree(a: real, e: real, q: real, c: real)
    ensures a * e * q * c == (q * a) * (e * 1.0 * c)
  {
    assert a * e * q == (q * a) * e;
    Associate(q * a, e, c);
  }

  lemma Associate(x: real, y: real, z: real)
    ensures x * y * z == x * (y * z)
  {}

  /** `n` shares at the lowest price. */
  function InUnits(n: int, u: real): real { (n as real) * u }

  /** Outlays count in units: `q` shares at `k` ticks cost `q * k` of them. */
  lemma OutlayInTicks(p: PortfolioParameters, tick: real, k: int, q: int)
    ensures Outlay(EntryPrice((k as real) * tick, p.trading), q, p.trading.commission) == InUnits(q * k, Unit(p, tick))
  {
    Regroup(k as real, tick, 1.0 + p.trading.slippage, q as real, 1.0 + p.trading.commission);
    assert (q * k) as real == (q as real) * (k as real);
  }

  /** What an entry may spend now. */
  ghost function Spendable(b: Book, p: PortfolioParameters): real {
    Min(Target(Equity(b), p), b.cash - p.Buffer())
  }

  lemma PricePositive(p: PortfolioParameters, tick: real, k: int)
    requires p.Valid() && 0.0 < tick
    ensures 0.0 < EntryPrice((k as real) * tick, p.trading) <==> 0 < k
  {
    if 0 < k {
      PositiveProduct(k as real, tick);
      PositiveProduct((k as real) * tick, 1.0 + p.trading.slippage);
    } else {
      MulMonotone(k as real, 0.0, tick);
      MulMonotone((k as real) * tick, 0.0, 1.0 + p.trading.slippage);
    }
  }

  lemma UnitsPositive(n: int, u: real)
    requires 1 <= n && 0.0 < u
    ensures 0.0 < InUnits(n, u)
  {
    PositiveProduct(n as real, u);
  }

  /** An entry at `k` ticks buys exactly the shares whose units the spendable cash covers. */
  lemma SizeInTicks(b: Book, p: PortfolioParameters, tick: real, k: int, q: int)
    requires p.Valid() && 0.0 < tick
    ensures var r := SizeEntry(b, p, EntryPrice((k as real) * tick, p.trading)); var u := Unit(p, tick);
      && (r.Buy? <==> 1 <= k && InUnits(1 * k, u) <= Spendable(b, p))
      && (r.Buy? ==> 1 <= r.quantity && (0 < q ==> (q <= r.quantity <==> InUnits(q * k, u) <= Spendable(b, p))))
  {
    var price, c := EntryPrice((k as real) * tick, p.trading), p.trading.commission;
    PricePositive(p, tick, k);
    UnitPositive(p, tick);
    OutlayInTicks(p, tick, k, 1);
    OutlayInTicks(p, tick, k, q);
    if 1 <= k { UnitsPositive(1 * k, Unit(p, tick)); }
    hide EntryPrice, Outlay, Unit, Target, Equity, InUnits, LargestAffordable;
    if 0.0 < price && p.Buffer() < b.cash {
      AffordableReasons(Target(Equity(b), p), b.cash, p.Buffer(), price, c);
    }
  }

  /** A price step so fine that four units fit into what the first entry may spend. */
  lemma SmallTick(p: PortfolioParameters) returns (tick: real)
    requires p.Valid()
    ensures 0.0 < tick && 4.0 * Unit(p, tick) == Allowed(p) && !NothingAffordable(p, tick) && !Narrow(p, tick)
  {
    AllowedPositive(p);
    var f := UnitFactor(p);
    FactorPositive(p);
    tick := Allowed(p) / (4.0 * f);
    QuotientTimes(Allowed(p), 4.0 * f);
    QuotientPositive(Allowed(p), 4.0 * f);
    UnitIsTimes(p, tick);
    hide Allowed, Unit, UnitFactor, Room;
    assert 4.0 * (tick * f) == tick * (4.0 * f);
  }

  function UnitFactor(p: PortfolioParameters): real { (1.0 + p.trading.slippage) * (1.0 + p.trading.commission) }

  lemma FactorPositive(p: PortfolioParameters)
    requires p.Valid()
    ensures 0.0 < UnitFactor(p)
  {
    PositiveProduct(1.0 + p.trading.slippage, 1.0 + p.trading.commission);
  }

  lemma UnitIsTimes(p: PortfolioParameters, tick: real)
    ensures Unit(p, tick) == tick * UnitFactor(p)
  {
    Associate(tick, 1.0 + p.trading.slippage, 1.0 + p.trading.commission);
  }

  // ---- sales whose two rates exceed one ----

  function Kept(p: PortfolioParameters): real { 1.0 - p.trading.slippage }

  /** By how much the two sale rates exceed one. */
  function Excess(p: PortfolioParameters): real { p.trading.commission + p.trading.sellTax - 1.0 }

  /** What one unit of the raw price costs at a sale whose two rates exceed one. */
  function Loss(p: PortfolioParameters): real { Kept(p) * Excess(p) }

  lemma LossPositive(p: PortfolioParameters)
    requires p.Valid() && !CheapSales(p)
    ensures 0.0 < Loss(p)
  {
    assert 0.0 < Kept(p) && 0.0 < Excess(p);
    hide Kept, Excess;
    PositiveProduct(Kept(p), Excess(p));
  }

  lemma ProceedsAreLoss(p: PortfolioParameters, raw: real, quantity: int)
    ensures Proceeds(raw, quantity, p.trading) == -(raw * Loss(p) * (quantity as real))
  {
    hide Kept, Excess, AfterCosts, SellNotional;
    var q := quantity as real;
    NotionalForm(p, raw, quantity);
    CostsForm(p, SellNotional(raw, quantity, p.trading));
    Shuffle(raw, Kept(p), Excess(p), q);
  }

  lemma NotionalForm(p: PortfolioParameters, raw: real, quantity: int)
    ensures SellNotional(raw, quantity, p.trading) == raw * Kept(p) * (quantity as real)
  {}

  lemma CostsForm(p: PortfolioParameters, n: real)
    ensures AfterCosts(n, p.trading.commission, p.trading.sellTax) == -(n * Excess(p))
  {}

  lemma Shuffle(a: real, s: real, d: real, q: real)
    ensures a * s * q * d == a * (s * d) * q
  {
    assert a * (s * d) == a * s * d;
    var x := a * s;
    assert x * q * d == x * d * q;
  }

  lemma SaleTakesCash(p: PortfolioParameters, raw: real, quantity: int)
    requires p.Valid() && !CheapSales(p) && 0.0 <= raw && 0 <= quantity
    ensures Proceeds(raw, quantity, p.trading) <= 0.0
  {
    ProceedsAreLoss(p, raw, quantity);
    LossPositive(p);
    hide Loss, Proceeds;
    MulMonotone(0.0, raw, Loss(p));
    MulMonotone(0.0, raw * Loss(p), quantity as real);
  }

  // ---- runs with never more than one open position ----

  /** Nothing has been bought yet. */
  ghost predicate Idle(b: Book, p: PortfolioParameters) { b.positions == map[] && b.cash == p.initialCapital }

  /** What keeps a second position out, as a caller can check it: one slot, or an account that is narrow at
      this tick. */
  datatype Reason = OneSlot | TooNarrow(tick: real)

  predicate NeverTwo(p: PortfolioParameters, r: Reason) {
    match r
    case OneSlot => p.maxOpenPositions == 1
    case TooNarrow(tick) => 0.0 < tick && Narrow(p, tick)
  }

  /** The markets that the reason speaks about: any, or those that can be stored. */
  ghost predicate Speaks(r: Reason, bars: map<string, Bar>) { r.TooNarrow? ==> StorableBars(bars, r.tick) }

  /** At most one position, which leaves the buffer while it is open; in a narrow account too little cash is
      left once something was bought. */
  ghost predicate Lonely(b: Book, p: PortfolioParameters, r: Reason) {
    && |b.positions| <= 1
    && (b.positions != map[] ==> Solvent(b, p))
    && (r.TooNarrow? ==> Idle(b, p) || (Unit(p, r.tick) <= Allowed(p) && b.cash - p.Buffer() < Unit(p, r.tick)))
  }

  lemma OneGone(m: Positions, x: string)
    requires |m| <= 1 && x in m
    ensures m - {x} == map[]
  {
    assert m.Keys == {x} by {
      assert |m.Keys - {x}| == |m.Keys| - 1;
    }
  }

  lemma SoldLonely(b: Book, p: PortfolioParameters, r: Reason, symbol: string, pos: Position, day: Date, raw: real,
                   reason: ExitReason)
    requires p.Valid() && !CheapSales(p) && Lonely(b, p, r) && symbol in b.positions && 0.0 <= raw && 1 <= pos.quantity
    ensures Lonely(ClosePosition(b, p.trading, symbol, pos, day, raw, reason), p, r)
  {
    OneGone(b.positions, symbol);
    SaleTakesCash(p, raw, pos.quantity);
    hide Proceeds, PositionFill, RecordTrade, Unit, Allowed;
  }

  lemma ExitOneLonely(b: Book, p: PortfolioParameters, r: Reason, t: Today, symbol: string)
    requires p.Valid() && !CheapSales(p) && Sound(b, p) && Lonely(b, p, r) && ValidBars(t.bars)
    ensures Lonely(ExitOne(b, p.trading, t, symbol), p, r)
  {
    if symbol in b.positions {
      var pos := b.positions[symbol];
      assert PositionOk(symbol, pos, p.trading);
      var bar := SeenBar(pos, symbol, t);
      if bar.Some? {
        assert ValidBar(bar.value);
        ExitWithinBar(pos.entryPrice, pos.holdingDays + 1, bar.value, p.trading, t.final);
        var terms := ExitTerms(pos.entryPrice, pos.holdingDays + 1, bar.value, p.trading, t.final);
        if terms.Some? {
          SoldLonely(b, p, r, symbol, Age(pos), t.date, terms.value.1, terms.value.0);
        } else {
          assert b.positions[symbol := Age(pos)].Keys == b.positions.Keys;
        }
        hide Lonely, Sound, ExitTerms, PositionOk, ClosePosition;
      }
    }
  }

  lemma LiquidateOneLonely(b: Book, p: PortfolioParameters, r: Reason, t: Today, symbol: string)
    requires p.Valid() && !CheapSales(p) && Sound(b, p) && Lonely(b, p, r) && ValidBars(t.bars)
    ensures Lonely(LiquidateOne(b, p.trading, t, symbol), p, r)
  {
    if LiquidateOne(b, p.trading, t, symbol) != b {
      var pos := b.positions[symbol];
      assert PositionOk(symbol, pos, p.trading) && ValidBar(t.bars[symbol]);
      SoldLonely(b, p, r, symbol, pos, t.date, t.bars[symbol].close, EndOfPeriod);
    }
  }

  lemma UnitsMonotone(m: int, n: int, u: real)
    requires m <= n && 0.0 <= u
    ensures InUnits(m, u) <= InUnits(n, u)
  {
    MulMonotone(m as real, n as real, u);
  }

  lemma FewUnits(u: real)
    ensures InUnits(1, u) == u && InUnits(2, u) == 2.0 * u && InUnits(3, u) == 3.0 * u
  {}

  /** The first entry of a narrow account leaves less than one unit. */
  lemma FirstEntryLeavesLittle(p: PortfolioParameters, tick: real, k: int, q: int)
    requires p.Valid() && 0.0 < tick && Narrow(p, tick) && 1 <= k && 1 <= q
    requires InUnits(q * k, Unit(p, tick)) <= Allowed(p) &&
      (k == 1 ==> Allowed(p) < InUnits((q + 1) * k, Unit(p, tick)))
    ensures Unit(p, tick) <= Allowed(p) && Room(p) - InUnits(q * k, Unit(p, tick)) < Unit(p, tick)
  {
    var u := Unit(p, tick);
    UnitPositive(p, tick);
    FewUnits(u);
    hide Unit, InUnits, Allowed, Room;
    AtLeast(q, k);
    UnitsMonotone(1, q * k, u);
    if 2 <= q * k { UnitsMonotone(2, q * k, u); }
  }

  lemma AtLeast(q: int, k: int)
    requires 1 <= q && 1 <= k
    ensures 1 <= q * k && (2 <= q || 2 <= k ==> 2 <= q * k)
  {
    MulIntMonotone(1, q, k);
    MulIntMonotone(1, k, q);
  }

  lemma MulIntMonotone(x: int, y: int, z: int)
    requires x <= y && 0 <= z
    ensures x * z <= y * z
  {}

  lemma IdleSpends(b: Book, p: PortfolioParameters)
    requires Idle(b, p)
    ensures Spendable(b, p) == Allowed(p) && Equity(b) == p.initialCapital
  {
    assert Total(b.positions, Value) == 0.0;
  }

  lemma OpenLonely(b: Book, p: PortfolioParameters, r: Reason, symbol: string, pos: Position)
    requires p.Valid() && b.positions == map[] && Cost(pos) <= b.cash - p.Buffer()
    requires r.TooNarrow? ==> Unit(p, r.tick) <= Allowed(p) && b.cash - Cost(pos) - p.Buffer() < Unit(p, r.tick)
    ensures Lonely(Open(b, symbol, pos), p, r)
  {
    hide Cost, Unit, Allowed;
    assert b.positions[symbol := pos].Keys == {symbol};
  }

  lemma EnterOneLonely(b: Book, p: PortfolioParameters, r: Reason, t: Today, s: Signal)
    requires p.Valid() && NeverTwo(p, r) && Lonely(b, p, r)
    requires s.symbol in t.bars && Speaks(r, t.bars)
    ensures Lonely(EnterOne(b, p, t, s), p, r)
  {
    var open := t.bars[s.symbol].open;
    var price := EntryPrice(open, p.trading);
    if SizeEntry(b, p, price).Buy? && s.symbol !in b.positions && |b.positions| < p.maxOpenPositions {
      var pos := Bought(p.trading, t.date, open, s, SizeEntry(b, p, price).quantity);
      EntryIsAffordable(b, p, t, s);
      if r.TooNarrow? {
        assert StorableBar(t.bars[s.symbol], r.tick);
        NarrowEntry(b, p, r.tick, t.date, open, s);
      }
      hide SizeEntry, Unit, Allowed, EntryPrice, Cost, Bought, NeverTwo, Speaks;
      OpenLonely(b, p, r, s.symbol, pos);
    }
    hide SizeEntry, Unit, Allowed, EntryPrice, Open, Bought, NeverTwo, Speaks;
  }

  /** In a narrow account only the first entry can be paid for, and it leaves less than one unit. */
  lemma NarrowEntry(b: Book, p: PortfolioParameters, tick: real, day: Date, open: real, s: Signal)
    requires p.Valid() && 0.0 < tick && Narrow(p, tick) && OnTick(open, tick)
    requires Idle(b, p) || b.cash - p.Buffer() < Unit(p, tick)
    requires SizeEntry(b, p, EntryPrice(open, p.trading)).Buy?
    ensures Idle(b, p) && Unit(p, tick) <= Allowed(p)
    ensures var pos := Bought(p.trading, day, open, s, SizeEntry(b, p, EntryPrice(open, p.trading)).quantity);
      b.cash - Cost(pos) - p.Buffer() < Unit(p, tick)
  {
    var k: int :| Ticks(open, tick, k);
    var q := SizeEntry(b, p, EntryPrice(open, p.trading)).quantity;
    var pos := Bought(p.trading, day, open, s, q);
    SizeInTicks(b, p, tick, k, q);
    SizeInTicks(b, p, tick, k, q + 1);
    CostIsOutlay(pos, p.trading);
    OutlayInTicks(p, tick, k, q);
    hide SizeEntry, Unit, InUnits, Allowed, Outlay, EntryPrice, Cost, Narrow;
    StillIdle(b, p, tick, k);
    IdleSpends(b, p);
    hide Spendable, Equity;
    FirstEntryLeavesLittle(p, tick, k, q);
  }

  /** With less than one unit above the buffer nothing can be paid for. */
  lemma StillIdle(b: Book, p: PortfolioParameters, tick: real, k: int)
    requires p.Valid() && 0.0 < tick && 1 <= k && InUnits(1 * k, Unit(p, tick)) <= Spendable(b, p)
    requires Idle(b, p) || b.cash - p.Buffer() < Unit(p, tick)
    ensures Idle(b, p)
  {
    UnitPositive(p, tick);
    FewUnits(Unit(p, tick));
    hide Unit, InUnits, Target, Equity;
    UnitsMonotone(1, 1 * k, Unit(p, tick));
  }

  lemma {:induction false} ExitAllLonely(b: Book, p: PortfolioParameters, r: Reason, t: Today, symbols: seq<string>)
    requires p.Valid() && !CheapSales(p) && Healthy(b, p) && Lonely(b, p, r) && ValidBars(t.bars)
    ensures Lonely(ExitAll(b, p.trading, t, symbols), p, r)
    decreases |symbols|
  {
    if symbols != [] {
      ExitOneLonely(b, p, r, t, symbols[0]);
      ExitOneSound(b, p, t, symbols[0]);
      hide Sound, ExitOne, Lonely;
      ExitAllLonely(ExitOne(b, p.trading, t, symbols[0]), p, r, t, symbols[1..]);
    }
  }

  lemma {:induction false} LiquidateAllLonely(b: Book, p: PortfolioParameters, r: Reason, t: Today,
                                              symbols: seq<string>)
    requires p.Valid() && !CheapSales(p) && Healthy(b, p) && Lonely(b, p, r) && ValidBars(t.bars)
    ensures Lonely(LiquidateAll(b, p.trading, t, symbols), p, r)
    decreases |symbols|
  {
    if symbols != [] {
      LiquidateOneLonely(b, p, r, t, symbols[0]);
      LiquidateOneSound(b, p, t, symbols[0]);
      hide Sound, LiquidateOne, Lonely;
      LiquidateAllLonely(LiquidateOne(b, p.trading, t, symbols[0]), p, r, t, symbols[1..]);
    }
  }

  lemma {:induction false} EnterAllLonely(b: Book, p: PortfolioParameters, r: Reason, t: Today, events: seq<Signal>)
    requires p.Valid() && NeverTwo(p, r) && Lonely(b, p, r)
    requires HasBars(events, t.bars) && Speaks(r, t.bars)
    ensures Lonely(EnterAll(b, p, t, events), p, r)
    decreases |events|
  {
    if events != [] {
      EnterOneLonely(b, p, r, t, events[0]);
      hide EnterOne, Lonely, Speaks, NeverTwo;
      EnterAllLonely(EnterOne(b, p, t, events[0]), p, r, t, events[1..]);
    }
  }

  lemma DayLonely(b: Book, p: PortfolioParameters, r: Reason, t: Today, events: seq<Signal>)
    requires p.Valid() && !CheapSales(p) && NeverTwo(p, r)
    requires Healthy(b, p) && Lonely(b, p, r)
    requires HasBars(events, t.bars) && ValidBars(t.bars) && Speaks(r, t.bars)
    ensures Lonely(Day(b, p, t, events), p, r)
  {
    var keys := SortedKeys(b.positions.Keys);
    var b1 := AfterExits(b, p, t);
    var b2 := EnterAll(b1, p, t, events);
    hide Healthy, Lonely, ExitAll, EnterAll, LiquidateAll, NeverTwo, SortedKeys;
    ExitAllHealthy(b, p, t, keys);
    ExitAllLonely(b, p, r, t, keys);
    EnterAllHealthy(b1, p, t, events);
    EnterAllLonely(b1, p, r, t, events);
    if t.final { LiquidateAllLonely(b2, p, r, t, SortedKeys(b2.positions.Keys)); }
    MarkLonely(AfterLiquidation(b2, p, t), p, r, t);
  }

  lemma MarkLonely(b: Book, p: PortfolioParameters, r: Reason, t: Today)
    requires p.Valid() && Lonely(b, p, r)
    ensures Lonely(MarkDay(b, p, t), p, r)
  {
    hide Snap, Share, Unit, Allowed;
    assert Marked(b.positions, t.bars).Keys == b.positions.Keys;
  }

  /** With one slot, or in a narrow account and markets that can be stored, no run ever has a second
      position, and what is held leaves the buffer. */
  lemma {:induction false} RunLonely(p: PortfolioParameters, r: Reason, m: Market, signals: seq<Signal>, k: int)
    requires p.Valid() && !CheapSales(p) && NeverTwo(p, r) && (r.TooNarrow? ==> Storable(m, r.tick))
    requires m.Valid() && 0 <= k <= |m.dates|
    ensures Lonely(Run(p, m, signals, k), p, r)
    decreases k
  {
    hide Day, Lonely, NeverTwo, StorableBars, Healthy;
    if k == 0 {
      StartLonely(p, r, NoEntryCount(m, signals));
    } else {
      RunLonely(p, r, m, signals, k - 1);
      RunHealthy(p, m, signals, k - 1);
      assert ValidBars(m.Bars(k - 1));
      assert Speaks(r, m.Bars(k - 1)) by { if r.TooNarrow? { EmptyBarsStorable(r.tick); } }
      DayLonely(Run(p, m, signals, k - 1), p, r, m.Day(k - 1), Events(m, signals, k - 1));
    }
  }

  lemma StartLonely(p: PortfolioParameters, r: Reason, noEntry: int)
    requires p.Valid()
    ensures Lonely(Start(p, noEntry), p, r)
  {}

  lemma EmptyBarsStorable(tick: real)
    ensures StorableBars(map[], tick)
  {}
}
