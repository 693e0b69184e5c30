/** The exact condition under which the reported average utilization is a share: never outside zero to
    one unless two positions can be open while a sale can take cash. */
module PortfolioUtilization {
  import opened Ordering
  import opened Decimals
  import opened Backtest
  import opened Sizing
  import opened Portfolio
  import opened PortfolioLedger
  import opened PortfolioRuns
  import opened PortfolioSnapshots
  import opened PortfolioTicks
  import opened PortfolioSolvency

  // ---- a day on which one of several positions is sold at its target ----

  lemma {:induction false} OnlyOneExits(b: Book, p: TradingParameters, t: Today, x: string, symbols: seq<string>)
    requires !t.final && x in symbols && ExitOne(b, p, t, x).positions == b.positions - {x}
    requires forall i, j :: 0 <= i < j < |symbols| ==> symbols[i] != symbols[j]
    requires forall y :: y in symbols && y != x && y in b.positions ==> y !in t.bars
    ensures ExitAll(b, p, t, symbols) == ExitOne(b, p, t, x)
    decreases |symbols|
  {
    var rest := symbols[1..];
    if symbols[0] == x {
      forall y | y in rest ensures y in symbols && y != x {
        var i :| 0 <= i < |rest| && rest[i] == y;
        assert symbols[i + 1] == y;
      }
      QuietExits(ExitOne(b, p, t, x), p, t, rest);
    } else {
      assert ExitOne(b, p, t, symbols[0]) == b;
      OnlyOneExits(b, p, t, x, rest);
    }
  }

  /** The price at which a position entered at `entry` takes its profit. */
  function ProfitPrice(entry: real, p: TradingParameters): real { entry * (1.0 + p.takeProfit) }

  /** A bar that opens at or above the target sells at its opening price. */
  lemma TargetExit(b: Book, p: TradingParameters, t: Today, x: string, exit: real)
    requires p.Valid() && !t.final && x in b.positions && x in t.bars && t.bars[x] == FlatBar(exit)
    requires 0.0 < b.positions[x].entryPrice && ProfitPrice(b.positions[x].entryPrice, p) <= exit
    ensures var a := ExitOne(b, p, t, x);
      a.positions == b.positions - {x} && a.cash == b.cash + Proceeds(exit, b.positions[x].quantity, p)
  {
    var entry := b.positions[x].entryPrice;
    MulStrict(1.0 - p.stopLoss, 1.0 + p.takeProfit, entry);
    hide Proceeds, PositionFill, RecordTrade;
    assert entry * (1.0 - p.stopLoss) < exit;
  }

  lemma TargetDay(b: Book, p: PortfolioParameters, t: Today, x: string, exit: real)
    requires p.Valid() && !t.final && x in b.positions && t.bars == map[x := FlatBar(exit)]
    requires 0.0 < b.positions[x].entryPrice && ProfitPrice(b.positions[x].entryPrice, p.trading) <= exit
    ensures HasBars([], t.bars)
    ensures var a := Day(b, p, t, []);
      a.positions == b.positions - {x} && a.cash == b.cash + Proceeds(exit, b.positions[x].quantity, p.trading)
  {
    var a := ExitOne(b, p.trading, t, x);
    TargetExit(b, p.trading, t, x, exit);
    ExitsOf(b, p.trading, t, x);
    hide ExitOne, ExitAll, SortedKeys, Proceeds, MarkDay, ProfitPrice;
    assert EnterAll(a, p, t, []) == a;
    MarkQuiet(a, p, t);
  }

  lemma ExitsOf(b: Book, p: TradingParameters, t: Today, x: string)
    requires !t.final && x in b.positions && ExitOne(b, p, t, x).positions == b.positions - {x} && t.bars.Keys == {x}
    ensures ExitAll(b, p, t, SortedKeys(b.positions.Keys)) == ExitOne(b, p, t, x)
  {
    hide ExitOne;
    SortedKeysDistinct(b.positions.Keys);
    OnlyOneExits(b, p, t, x, SortedKeys(b.positions.Keys));
  }

  lemma MarkQuiet(b: Book, p: PortfolioParameters, t: Today)
    requires p.Valid() && forall x :: x in b.positions ==> x !in t.bars
    ensures MarkDay(b, p, t).positions == b.positions && MarkDay(b, p, t).cash == b.cash
  {
    hide Snap, Share;
    assert Marked(b.positions, t.bars) == b.positions;
  }

  // ---- four days: A enters, B enters, A is sold, the rest is sold ----

  const FIRST := SYMBOL
  const SECOND := "B"
  const SIGNALS := [Signal(FIRST, 0), Signal(SECOND, 0)]

  /** A opens at `open` and is marked at `mark`; B opens at one tick and is marked at `last`; then A trades
      at `exit`. */
  function FourDays(tick: real, open: real, mark: real, last: real, exit: real): Market {
    Market([1, 2, 3, 4], map[1 := map[FIRST := Bar(open, mark, open, mark)],
                             2 := map[SECOND := Bar(tick, last, tick, last)],
                             3 := map[FIRST := FlatBar(exit)]])
  }

  lemma FourDaysStorable(tick: real, open: real, mark: real, last: real, exit: real)
    requires 0.0 < tick <= last && 0.0 <= open <= mark && 0.0 <= exit
    requires OnTick(open, tick) && OnTick(mark, tick) && OnTick(last, tick) && OnTick(exit, tick)
    ensures var m := FourDays(tick, open, mark, last, exit); m.Valid() && Storable(m, tick)
  {
    OneTick(tick);
    hide OnTick;
  }

  lemma FourDaysSchedule(tick: real, open: real, mark: real, last: real, exit: real)
    ensures var m := FourDays(tick, open, mark, last, exit);
      && Looked(m, SIGNALS) && Events(m, SIGNALS, 0) == [SIGNALS[0]] && Events(m, SIGNALS, 1) == [SIGNALS[1]]
      && Events(m, SIGNALS, 2) == [] && Events(m, SIGNALS, 3) == [] && NoEntryCount(m, SIGNALS) == 0
  {
    var m := FourDays(tick, open, mark, last, exit);
    assert FindEntry(m, SIGNALS[0], 0) == At(0);
    assert FindEntry(m, SIGNALS[1], 0) == FindEntry(m, SIGNALS[1], 1) == At(1);
    forall e ensures Filter(SIGNALS, HasEntry(m, e)) ==
      if e == At(0) then [SIGNALS[0]] else if e == At(1) then [SIGNALS[1]] else [] {
      assert SIGNALS[1..] == [SIGNALS[1]] && SIGNALS[1..][1..] == [];
    }
  }

  // ---- the first entry: one share, priced so that a second entry stays affordable ----

  /** Half of the ticks the first entry could pay for, rounded so that it buys exactly one share. */
  function FirstTicks(p: PortfolioParameters, tick: real): int
    requires p.Valid() && 0.0 < tick
  {
    UnitPositive(p, tick);
    (Allowed(p) / Unit(p, tick)).Floor / 2 + 1
  }

  lemma FirstTicksFit(p: PortfolioParameters, tick: real)
    requires p.Valid() && 0.0 < tick && !Narrow(p, tick)
    ensures var k, u := FirstTicks(p, tick), Unit(p, tick);
      && 1 <= k && InUnits(1 * k, u) <= Allowed(p) < InUnits(2 * k, u)
      && u <= Room(p) - InUnits(1 * k, u)
  {
    var u, k := Unit(p, tick), FirstTicks(p, tick);
    UnitPositive(p, tick);
    AllowedPositive(p);
    var n := (Allowed(p) / u).Floor;
    WholeUnits(Allowed(p), u);
    FewUnits(u);
    hide Unit, Allowed, Room, InUnits;
    if n < 1 { UnitsMonotone(n + 1, 1, u); }
    assert 1 <= k <= n < 2 * k;
    UnitsMonotone(k, n, u);
    UnitsMonotone(n + 1, 2 * k, u);
    UnitSum(k, n - k, u);
    if n >= 3 { UnitsMonotone(1, n - k, u); }
  }

  lemma WholeUnits(x: real, u: real)
    requires 0.0 <= x && 0.0 < u
    ensures InUnits((x / u).Floor, u) <= x < InUnits((x / u).Floor + 1, u)
  {
    FloorBounds(x, u);
  }

  lemma UnitSum(m: int, n: int, u: real)
    ensures InUnits(m, u) + InUnits(n, u) == InUnits(m + n, u)
  {}

  // ---- the first two days ----

  function FirstOpen(p: PortfolioParameters, tick: real): real
    requires p.Valid() && 0.0 < tick
  {
    (FirstTicks(p, tick) as real) * tick
  }

  function FirstPosition(p: PortfolioParameters, tick: real): Position
    requires p.Valid() && 0.0 < tick
  {
    Bought(p.trading, 1, FirstOpen(p, tick), SIGNALS[0], 1)
  }

  /** The cash after the first entry. */
  function CashLeft(p: PortfolioParameters, tick: real): real
    requires p.Valid() && 0.0 < tick
  {
    p.initialCapital - InUnits(FirstTicks(p, tick), Unit(p, tick))
  }

  /** The size of the second entry at one tick, the first position being worth `mark`. */
  function SecondSizing(p: PortfolioParameters, tick: real, mark: real): Sizing
    requires p.Valid() && 0.0 < tick
  {
    Affordable(Target(CashLeft(p, tick) + mark, p), CashLeft(p, tick), p.Buffer(), EntryPrice(tick, p.trading),
      p.trading.commission)
  }

  function FourDaysOf(p: PortfolioParameters, tick: real, mark: real, last: real, exit: real): Market
    requires p.Valid() && 0.0 < tick
  {
    FourDays(tick, FirstOpen(p, tick), mark, last, exit)
  }

  /** The first entry buys one share. */
  lemma FirstSizing(p: PortfolioParameters, tick: real)
    requires p.Valid() && 0.0 < tick && !Narrow(p, tick)
    ensures SizeEntry(Start(p, 0), p, EntryPrice(FirstOpen(p, tick), p.trading)) == Buy(1)
    ensures Outlay(EntryPrice(FirstOpen(p, tick), p.trading), 1, p.trading.commission) ==
      InUnits(FirstTicks(p, tick), Unit(p, tick))
  {
    hide SizeEntry, EntryPrice, Unit, InUnits, Allowed, Spendable, FirstTicks, Outlay, Narrow;
    FirstTicksFit(p, tick);
    var k, b := FirstTicks(p, tick), Start(p, 0);
    SizeInTicks(b, p, tick, k, 2);
    OutlayInTicks(p, tick, k, 1);
    var open := (k as real) * tick;
    assert FirstOpen(p, tick) == open && 1 * k == k;
    IdleSpends(b, p);
  }

  lemma AfterFirst(p: PortfolioParameters, tick: real, mark: real, last: real, exit: real)
    requires p.Valid() && 0.0 < tick && !Narrow(p, tick)
    ensures var b := Run(p, FourDaysOf(p, tick, mark, last, exit), SIGNALS, 1);
      b.positions == map[FIRST := FirstPosition(p, tick).(lastClose := mark)] && b.cash == CashLeft(p, tick)
  {
    var m, b, s := FourDaysOf(p, tick, mark, last, exit), Start(p, 0), SIGNALS[0];
    FourDaysSchedule(tick, FirstOpen(p, tick), mark, last, exit);
    FirstSizing(p, tick);
    assert Run(p, m, SIGNALS, 0) == b;
    RunStep(p, m, SIGNALS, 1);
    hide Run, Events, NoEntryCount, FirstOpen, SizeEntry, EntryPrice, Unit, Outlay;
    assert CanEnter(b, p, m.Day(0), s);
    OneEntryDay(b, p, m.Day(0), s);
    EntryOpens(b, p, m.Day(0), s);
    hide Day, Cost, BuyCommission;
    assert Entered(b, p, m.Day(0), s) == FirstPosition(p, tick);
    assert b.positions[FIRST := FirstPosition(p, tick).(lastClose := mark)] ==
      map[FIRST := FirstPosition(p, tick).(lastClose := mark)];
  }

  /** A mark at which the target of the second entry pays for a share. */
  predicate MarkSuffices(p: PortfolioParameters, tick: real, mark: real) {
    0.0 <= mark && Unit(p, tick) <= Target(mark, p)
  }

  lemma SecondFits(p: PortfolioParameters, tick: real, mark: real)
    requires p.Valid() && 0.0 < tick && !Narrow(p, tick) && MarkSuffices(p, tick, mark)
    ensures SecondSizing(p, tick, mark).Buy? && 1 <= SecondSizing(p, tick, mark).quantity
    ensures p.Buffer() < CashLeft(p, tick) <= p.initialCapital
  {
    var u := Unit(p, tick);
    FirstTicksFit(p, tick);
    UnitPositive(p, tick);
    AllowedPositive(p);
    UnitsPositive(FirstTicks(p, tick), u);
    PricePositive(p, tick, 1);
    assert (1 as real) * tick == tick;
    hide Unit, InUnits, Allowed, FirstTicks, EntryPrice, Affordable, Target;
    TargetMonotone(mark, CashLeft(p, tick) + mark, p);
    AffordableReasons(Target(CashLeft(p, tick) + mark, p), CashLeft(p, tick), p.Buffer(), EntryPrice(tick, p.trading),
      p.trading.commission);
    UnitIsOutlay(p, tick);
  }

  lemma TargetMonotone(x: real, y: real, p: PortfolioParameters)
    requires 0.0 < p.positionSizePct && x <= y
    ensures Target(x, p) <= Target(y, p)
  {
    var f := p.positionSizePct;
    var a, b := x * f, y * f;
    assert Target(x, p) == a && Target(y, p) == b;
    hide Target;
    MulMonotone(x, y, f);
  }

  lemma UnitIsOutlay(p: PortfolioParameters, tick: real)
    ensures Unit(p, tick) == Outlay(EntryPrice(tick, p.trading), 1, p.trading.commission)
  {}

  function SecondPosition(p: PortfolioParameters, tick: real, quantity: int): Position {
    Bought(p.trading, 2, tick, SIGNALS[1], quantity)
  }

  lemma AfterSecond(p: PortfolioParameters, tick: real, mark: real, last: real, exit: real)
    requires p.Valid() && 2 <= p.maxOpenPositions && 0.0 < tick && !Narrow(p, tick) && MarkSuffices(p, tick, mark)
    ensures SecondSizing(p, tick, mark).Buy? && 1 <= SecondSizing(p, tick, mark).quantity
    ensures var b := Run(p, FourDaysOf(p, tick, mark, last, exit), SIGNALS, 2);
      var pos := SecondPosition(p, tick, SecondSizing(p, tick, mark).quantity);
      && b.positions == map[FIRST := FirstPosition(p, tick).(lastClose := mark), SECOND := pos.(lastClose := last)]
      && p.Buffer() <= b.cash <= p.initialCapital
      && b.cash == CashLeft(p, tick) - Cost(pos)
  {
    var m, s := FourDaysOf(p, tick, mark, last, exit), SIGNALS[1];
    var b := Run(p, m, SIGNALS, 1);
    FourDaysSchedule(tick, FirstOpen(p, tick), mark, last, exit);
    AfterFirst(p, tick, mark, last, exit);
    SecondFits(p, tick, mark);
    WorthAfterFirst(p, tick, mark, b);
    RunStep(p, m, SIGNALS, 2);
    hide Run, Events, FirstOpen, FourDaysOf, SecondSizing, FirstPosition;
    EnterSecond(p, tick, mark, last, b, m.Day(1));
  }

  /** With the first position alone, an entry at one tick is sized as `SecondSizing` says. */
  lemma WorthAfterFirst(p: PortfolioParameters, tick: real, mark: real, b: Book)
    requires p.Valid() && 0.0 < tick
    requires b.positions == map[FIRST := FirstPosition(p, tick).(lastClose := mark)] && b.cash == CashLeft(p, tick)
    ensures SizeEntry(b, p, EntryPrice(tick, p.trading)) == SecondSizing(p, tick, mark)
  {
    OnePositionWorth(b, FirstPosition(p, tick).(lastClose := mark));
    hide FirstOpen, Affordable, EntryPrice, Unit, CashLeft, Equity, Target;
    assert mark * (1 as real) == mark;
  }

  lemma EnterSecond(p: PortfolioParameters, tick: real, mark: real, last: real, b: Book, t: Today)
    requires p.Valid() && 2 <= p.maxOpenPositions && 0.0 < tick
    requires b.positions == map[FIRST := FirstPosition(p, tick).(lastClose := mark)] && b.cash == CashLeft(p, tick)
    requires CashLeft(p, tick) <= p.initialCapital
    requires !t.final && t.date == 2 && t.bars == map[SECOND := Bar(tick, last, tick, last)]
    requires SizeEntry(b, p, EntryPrice(tick, p.trading)) == SecondSizing(p, tick, mark) &&
      SecondSizing(p, tick, mark).Buy?
    ensures HasBars([SIGNALS[1]], t.bars)
    ensures var a := Day(b, p, t, [SIGNALS[1]]);
      var pos := SecondPosition(p, tick, SecondSizing(p, tick, mark).quantity);
      && a.positions == map[FIRST := FirstPosition(p, tick).(lastClose := mark), SECOND := pos.(lastClose := last)]
      && p.Buffer() <= a.cash <= p.initialCapital
      && a.cash == CashLeft(p, tick) - Cost(pos)
  {
    var s := SIGNALS[1];
    hide SecondSizing, FirstPosition, CashLeft, SizeEntry, EntryPrice;
    assert CanEnter(b, p, t, s);
    OneEntryDay(b, p, t, s);
    EntryOpens(b, p, t, s);
    hide Day, Cost, BuyCommission, Bought;
    assert Entered(b, p, t, s) == SecondPosition(p, tick, SecondSizing(p, tick, mark).quantity);
  }

  // ---- the third day: the first position is sold, the second is worth a little more than the debt ----

  /** The cash after the third day. */
  function Debt(p: PortfolioParameters, tick: real, mark: real, exit: real): real
    requires p.Valid() && 0.0 < tick && SecondSizing(p, tick, mark).Buy?
  {
    -(CashLeft(p, tick) - Cost(SecondPosition(p, tick, SecondSizing(p, tick, mark).quantity)) +
      Proceeds(exit, 1, p.trading))
  }

  lemma FirstPriced(p: PortfolioParameters, tick: real)
    requires p.Valid() && 0.0 < tick
    ensures 0.0 < FirstPosition(p, tick).entryPrice && 0.0 < FirstOpen(p, tick)
  {
    UnitPositive(p, tick);
    AllowedPositive(p);
    QuotientPositive(Allowed(p), Unit(p, tick));
    PricePositive(p, tick, FirstTicks(p, tick));
    PositiveProduct(FirstTicks(p, tick) as real, tick);
    hide EntryPrice, Unit, Allowed;
  }

  lemma AfterThird(p: PortfolioParameters, tick: real, mark: real, last: real, exit: real)
    requires p.Valid() && 2 <= p.maxOpenPositions && 0.0 < tick && !Narrow(p, tick) && MarkSuffices(p, tick, mark)
    requires ProfitPrice(FirstPosition(p, tick).entryPrice, p.trading) <= exit
    ensures SecondSizing(p, tick, mark).Buy?
    ensures var b := Run(p, FourDaysOf(p, tick, mark, last, exit), SIGNALS, 3);
      var pos := SecondPosition(p, tick, SecondSizing(p, tick, mark).quantity);
      b.positions == map[SECOND := pos.(lastClose := last)] && b.cash == -Debt(p, tick, mark, exit)
  {
    var m := FourDaysOf(p, tick, mark, last, exit);
    FourDaysSchedule(tick, FirstOpen(p, tick), mark, last, exit);
    AfterSecond(p, tick, mark, last, exit);
    FirstPriced(p, tick);
    RunStep(p, m, SIGNALS, 3);
    var q := SecondSizing(p, tick, mark).quantity;
    hide Run, Events, FirstOpen, SecondSizing, CashLeft, MarkSuffices, Narrow, Cost, Day, Proceeds, EntryPrice,
      BuyCommission, ProfitPrice;
    SellFirst(p, Run(p, m, SIGNALS, 2), m.Day(2), FirstPosition(p, tick).(lastClose := mark),
              SecondPosition(p, tick, q).(lastClose := last), exit);
  }

  lemma SellFirst(p: PortfolioParameters, b: Book, t: Today, first: Position, second: Position, exit: real)
    requires p.Valid() && b.positions == map[FIRST := first, SECOND := second] && first.quantity == 1
    requires !t.final && t.bars == map[FIRST := FlatBar(exit)]
    requires 0.0 < first.entryPrice && ProfitPrice(first.entryPrice, p.trading) <= exit
    ensures HasBars([], t.bars)
    ensures Day(b, p, t, []).positions == map[SECOND := second] &&
      Day(b, p, t, []).cash == b.cash + Proceeds(exit, 1, p.trading)
  {
    hide Day, Proceeds, ProfitPrice;
    TargetDay(b, p, t, FIRST, exit);
    assert b.positions - {FIRST} == map[SECOND := second];
  }

  lemma SecondWorth(b: Book, pos: Position)
    requires b.positions == map[SECOND := pos]
    ensures Total(b.positions, Value) == Worth(pos.lastClose, pos.quantity)
  {
    TotalPut(map[], Value, SECOND, pos);
    TotalNothing(Value);
    hide Total;
    assert b.positions == map[][SECOND := pos];
  }

  function Worth(price: real, quantity: int): real { price * (quantity as real) }

  /** A close at which `q` shares are worth more than `debt`, by at most one tick a share. */
  lemma CloseAbove(debt: real, tick: real, q: int) returns (last: real)
    requires 0.0 < tick && 1 <= q
    ensures OnTick(last, tick) && debt < Worth(last, q) <= debt + Worth(tick, q)
  {
    var x := debt / (q as real);
    last := TicksAbove(x, tick);
    TicksAboveClose(x, tick);
    QuotientTimes(debt, q as real);
    hide TicksAbove, OnTick;
    MulStrict(x, last, q as real);
    MulMonotone(last, x + tick, q as real);
    assert (x + tick) * (q as real) == x * (q as real) + tick * (q as real);
  }

  /** Of a market value barely above the debt, the invested share of the equity is huge. */
  lemma HugeShare(value: real, debt: real, slack: real)
    requires 0.0 < slack && 20.0 * slack <= debt && debt < value <= debt + slack
    ensures 20.0 <= Share(value, -debt + value)
  {
    HugeQuotient(value, value - debt);
  }

  lemma HugeQuotient(value: real, equity: real)
    requires 0.0 < equity && 20.0 * equity <= value
    ensures 20.0 <= value / equity
  {
    QuotientTimes(value, equity);
    FactorMonotone(20.0, value / equity, equity);
  }

  lemma FourDaysSum(p: PortfolioParameters, m: Market)
    requires p.Valid() && m.Valid() && |m.dates| == 4
    requires HeldSolvent(Run(p, m, SIGNALS, 1), p) && HeldSolvent(Run(p, m, SIGNALS, 2), p)
    requires 20.0 <= Utilization(Run(p, m, SIGNALS, 3))
    ensures 20.0 <= Run(p, m, SIGNALS, 4).utilization
  {
    hide Run, Day, Utilization, HeldSolvent, Sound, Solvent;
    NoUtilization(p, m, SIGNALS);
    UtilizationStep(p, m, SIGNALS, 1);
    UtilizationStep(p, m, SIGNALS, 2);
    UtilizationStep(p, m, SIGNALS, 3);
    UtilizationStep(p, m, SIGNALS, 4);
    RunHealthy(p, m, SIGNALS, 1);
    RunHealthy(p, m, SIGNALS, 2);
    UtilizationBounds(Run(p, m, SIGNALS, 1), p);
    UtilizationBounds(Run(p, m, SIGNALS, 2), p);
    RunStep(p, m, SIGNALS, 4);
    LastDayClosesAll(Run(p, m, SIGNALS, 3), p, m.Day(3), Events(m, SIGNALS, 3));
    EmptyUtilization(Run(p, m, SIGNALS, 4));
  }

  lemma EmptyUtilization(b: Book)
    requires b.positions == map[]
    ensures Utilization(b) == 0.0
  {
    assert Total(b.positions, Value) == 0.0;
  }

  lemma MarkFor(p: PortfolioParameters, tick: real) returns (mark: real)
    requires p.Valid() && 0.0 < tick
    ensures OnTick(mark, tick) && FirstOpen(p, tick) <= mark && MarkSuffices(p, tick, mark)
  {
    FirstPriced(p, tick);
    UnitPositive(p, tick);
    var x := Unit(p, tick) / p.positionSizePct;
    mark := TicksAbove(Max(x, FirstOpen(p, tick)), tick);
    TicksAboveClose(Max(x, FirstOpen(p, tick)), tick);
    hide OnTick, TicksAbove, FirstOpen, Unit;
    ScaledAbove(Unit(p, tick), p.positionSizePct, mark);
  }

  lemma ScaledAbove(x: real, f: real, y: real)
    requires 0.0 < f && x / f <= y
    ensures x <= y * f
  {
    QuotientTimes(x, f);
    MulMonotone(x / f, y, f);
  }

  /** An exit above the target of the first position, so high that its sale costs more than everything. */
  lemma ExitFor(p: PortfolioParameters, tick: real, mark: real, slack: real) returns (exit: real)
    requires p.Valid() && 2 <= p.maxOpenPositions && 0.0 < tick && !CheapSales(p) && !Narrow(p, tick)
    requires MarkSuffices(p, tick, mark) && 0.0 < slack
    ensures SecondSizing(p, tick, mark).Buy? && OnTick(exit, tick) && 0.0 <= exit
    ensures ProfitPrice(FirstPosition(p, tick).entryPrice, p.trading) <= exit
    ensures 20.0 * slack <= Debt(p, tick, mark, exit)
  {
    hide OnTick, Narrow, MarkSuffices, FirstPosition, SecondSizing, CashLeft, Cost, Proceeds, Run, Loss, ProfitPrice;
    var target := ProfitPrice(FirstPosition(p, tick).entryPrice, p.trading);
    var amount := Max(Max(target, 0.0), p.initialCapital + 20.0 * slack);
    exit := LosingPrice(p, tick, amount);
    AfterSecond(p, tick, mark, 0.0, exit);
  }

  /** Four days after which the utilizations sum to at least twenty. */
  lemma ExcessiveUtilization(p: PortfolioParameters, tick: real) returns (m: Market)
    requires p.Valid() && 2 <= p.maxOpenPositions && 0.0 < tick && !CheapSales(p) && !Narrow(p, tick)
    ensures m.Valid() && Storable(m, tick) && Looked(m, SIGNALS) && |m.dates| == 4
    ensures 20.0 <= Run(p, m, SIGNALS, 4).utilization
  {
    hide OnTick, Narrow, MarkSuffices, FirstOpen, FirstPosition, SecondSizing, Debt, Run, Storable, CashLeft, Looked;
    var mark := MarkFor(p, tick);
    SecondFits(p, tick, mark);
    var q := SecondSizing(p, tick, mark).quantity;
    PositiveProduct(tick, q as real);
    var slack := Worth(tick, q);
    var exit := ExitFor(p, tick, mark, slack);
    var debt := Debt(p, tick, mark, exit);
    var last := CloseAbove(debt, tick, q);
    m := FourDaysOf(p, tick, mark, last, exit);
    LastAboveTick(last, tick, q, slack);
    FirstOpenOnTick(p, tick);
    FourDaysStorable(tick, FirstOpen(p, tick), mark, last, exit);
    FourDaysSchedule(tick, FirstOpen(p, tick), mark, last, exit);
    DebtDay(p, tick, mark, last, exit, q, slack);
    BothHeldSolvent(p, tick, mark, last, exit);
    FourDaysSum(p, m);
  }

  lemma LastAboveTick(last: real, tick: real, q: int, slack: real)
    requires 0.0 < tick && 1 <= q && slack == Worth(tick, q) && 20.0 * slack < Worth(last, q)
    ensures tick <= last
  {
    PositiveProduct(tick, q as real);
    FactorMonotone(tick, last, q as real);
  }

  lemma FirstOpenOnTick(p: PortfolioParameters, tick: real)
    requires p.Valid() && 0.0 < tick
    ensures OnTick(FirstOpen(p, tick), tick) && 0.0 < FirstOpen(p, tick)
  {
    FirstPriced(p, tick);
    hide FirstTicks;
    assert Ticks(FirstOpen(p, tick), tick, FirstTicks(p, tick));
  }

  lemma DebtDay(p: PortfolioParameters, tick: real, mark: real, last: real, exit: real, q: int, slack: real)
    requires p.Valid() && 2 <= p.maxOpenPositions && 0.0 < tick && !Narrow(p, tick) && MarkSuffices(p, tick, mark)
    requires ProfitPrice(FirstPosition(p, tick).entryPrice, p.trading) <= exit
    requires SecondSizing(p, tick, mark) == Buy(q) && 0.0 < slack && 20.0 * slack <= Debt(p, tick, mark, exit)
    requires Debt(p, tick, mark, exit) < Worth(last, q) <= Debt(p, tick, mark, exit) + slack
    ensures 20.0 <= Utilization(Run(p, FourDaysOf(p, tick, mark, last, exit), SIGNALS, 3))
  {
    var m := FourDaysOf(p, tick, mark, last, exit);
    var pos := SecondPosition(p, tick, q).(lastClose := last);
    assert pos.quantity == q && pos.lastClose == last;
    hide Run, Narrow, MarkSuffices, FirstPosition, SecondSizing, Debt, SecondPosition, FourDaysOf, Utilization, Worth,
      ProfitPrice;
    AfterThird(p, tick, mark, last, exit);
    DebtShare(Run(p, m, SIGNALS, 3), pos, Debt(p, tick, mark, exit), slack);
  }

  lemma DebtShare(b: Book, pos: Position, debt: real, slack: real)
    requires b.positions == map[SECOND := pos] && b.cash == -debt && 0.0 < slack && 20.0 * slack <= debt
    requires debt < Worth(pos.lastClose, pos.quantity) <= debt + slack
    ensures 20.0 <= Utilization(b)
  {
    hide Total, Share, Worth;
    SecondWorth(b, pos);
    HugeShare(Worth(pos.lastClose, pos.quantity), debt, slack);
  }

  lemma BothHeldSolvent(p: PortfolioParameters, tick: real, mark: real, last: real, exit: real)
    requires p.Valid() && 2 <= p.maxOpenPositions && 0.0 < tick && !Narrow(p, tick) && MarkSuffices(p, tick, mark)
    ensures var m := FourDaysOf(p, tick, mark, last, exit);
      HeldSolvent(Run(p, m, SIGNALS, 1), p) && HeldSolvent(Run(p, m, SIGNALS, 2), p)
  {
    AfterFirst(p, tick, mark, last, exit);
    AfterSecond(p, tick, mark, last, exit);
    SecondFits(p, tick, mark);
    hide Run, FourDaysOf, FirstPosition, SecondSizing, CashLeft, Cost;
  }

  // ---- the exact conditions ----

  /** Every run of every market that can be stored reports an average between zero and one ... */
  ghost predicate AlwaysInRange(p: PortfolioParameters, tick: real)
    requires p.Valid()
  {
    forall m: Market, signals :: m.Valid() && Storable(m, tick) ==> UtilizationInRange(p, m, signals)
  }

  lemma InRangeWhenCheap(p: PortfolioParameters, m: Market, signals: seq<Signal>)
    requires p.Valid() && m.Valid() && CheapSales(p)
    ensures UtilizationInRange(p, m, signals)
  {
    hide Run, Sound;
    forall j | 0 < j <= |m.dates| ensures HeldSolvent(Run(p, m, signals, j), p) { RunHealthy(p, m, signals, j); }
    AverageUtilizationBounds(p, m, signals);
  }

  lemma InRangeWhenLonely(p: PortfolioParameters, r: Reason, m: Market, signals: seq<Signal>)
    requires p.Valid() && !CheapSales(p) && NeverTwo(p, r) && m.Valid() && (r.TooNarrow? ==> Storable(m, r.tick))
    ensures UtilizationInRange(p, m, signals)
  {
    hide Run, Storable, NeverTwo, Unit, Allowed;
    forall j | 0 < j <= |m.dates| ensures HeldSolvent(Run(p, m, signals, j), p) { RunLonely(p, r, m, signals, j); }
    AverageUtilizationBounds(p, m, signals);
  }

  lemma OutOfRange(p: PortfolioParameters, m: Market)
    requires p.Valid() && |m.dates| == 4 && 20.0 <= Run(p, m, SIGNALS, 4).utilization
    ensures !UtilizationInRange(p, m, SIGNALS)
  {
    hide Run, Quantize;
    var u := Run(p, m, SIGNALS, 4).utilization;
    assert 5.0 <= u / 4.0;
    QuantizeError(u / 4.0);
  }

  /** ... exactly when sales are cheap, there is one slot, or the account is too narrow for two positions. */
  lemma InRangeExactly(p: PortfolioParameters, tick: real)
    requires p.Valid() && 0.0 < tick
    ensures AlwaysInRange(p, tick) <==> CheapSales(p) || p.maxOpenPositions == 1 || Narrow(p, tick)
  {
    hide Run, Storable, Narrow, UtilizationInRange;
    if CheapSales(p) || p.maxOpenPositions == 1 || Narrow(p, tick) {
      forall m: Market, signals | m.Valid() && Storable(m, tick) ensures UtilizationInRange(p, m, signals) {
        if CheapSales(p) { InRangeWhenCheap(p, m, signals); }
        else { InRangeWhenLonely(p, if p.maxOpenPositions == 1 then OneSlot else TooNarrow(tick), m, signals); }
      }
    } else {
      var m := ExcessiveUtilization(p, tick);
      OutOfRange(p, m);
    }
  }

  /** Over all valid markets, however fine their prices, cheap sales or one slot decide. */
  lemma InRangeExactlyAtAnyPrice(p: PortfolioParameters)
    requires p.Valid()
    ensures (forall m: Market, signals :: m.Valid() ==> UtilizationInRange(p, m, signals))
       <==> CheapSales(p) || p.maxOpenPositions == 1
  {
    hide Run, Storable, Narrow, UtilizationInRange;
    if CheapSales(p) || p.maxOpenPositions == 1 {
      forall m: Market, signals | m.Valid() ensures UtilizationInRange(p, m, signals) {
        if CheapSales(p) { InRangeWhenCheap(p, m, signals); } else { InRangeWhenLonely(p, OneSlot, m, signals); }
      }
    } else {
      var tick := SmallTick(p);
      var m := ExcessiveUtilization(p, tick);
      OutOfRange(p, m);
    }
  }

  /** At the six decimals of the price columns. */
  lemma ExactlyAtStoredPrices(p: PortfolioParameters)
    requires p.Valid()
    ensures AlwaysSolvent(p, PRICE_TICK) <==> CheapSales(p) || NothingAffordable(p, PRICE_TICK)
    ensures DrawdownPctIsLargestFall(p, PRICE_TICK) <==> CheapSales(p) || NothingAffordable(p, PRICE_TICK)
    ensures AlwaysInRange(p, PRICE_TICK) <==> CheapSales(p) || p.maxOpenPositions == 1 || Narrow(p, PRICE_TICK)
  {
    SolventExactly(p, PRICE_TICK);
    DrawdownPctExactly(p, PRICE_TICK);
    InRangeExactly(p, PRICE_TICK);
  }
}
