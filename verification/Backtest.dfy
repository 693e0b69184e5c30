/** Daily bars, signals and trades, and the simulator that follows one signal on its own. */
module Backtest {
  import opened Dates
  import opened Options
  import opened Ordering
  import opened Decimals

  datatype Bar = Bar(open: real, high: real, low: real, close: real)

  /** The check constraints of the stored daily bars. */
  predicate ValidBar(b: Bar) {
    0.0 <= b.low && b.low <= b.open <= b.high && b.low <= b.close <= b.high
  }

  datatype DailyBar = DailyBar(date: Date, bar: Bar)

  datatype Signal = Signal(symbol: string, date: Date)

  /** Signals in the order of `(signal_date, symbol)`. */
  predicate SignalLeq(a: Signal, b: Signal) {
    a.date < b.date || (a.date == b.date && StrLeq(a.symbol, b.symbol))
  }

  datatype ExitReason = StopLoss | TakeProfit | MaxHoldingDays | EndOfPeriod | NoEntryBar | InsufficientPositionSize

  datatype TradingParameters = TradingParameters(
    initialCapital: real,
    positionSize: real,
    stopLoss: real,
    takeProfit: real,
    maxHoldingDays: int,
    commission: real,
    sellTax: real,
    slippage: real)
  {
    /** The ranges that parsing enforces; the sum of the two sale rates is not bounded. */
    predicate Valid() {
      && 0.0 < positionSize <= initialCapital
      && 0.0 <= commission < 1.0 && 0.0 <= sellTax < 1.0 && 0.0 <= slippage < 1.0
      && 0.0 < stopLoss < 1.0 && 0.0 < takeProfit < 10.0
      && 1 <= maxHoldingDays
    }
  }

  datatype Trade = Trade(
    symbol: string,
    signalDate: Date,
    entryDate: Date,
    entryPrice: real,
    quantity: int,
    exitDate: Date,
    exitPrice: real,
    reason: ExitReason,
    gross: real,
    commission: real,
    tax: real,
    slippage: real,
    net: real,
    holdingDays: int)

  datatype Exit = Exit(date: Date, reason: ExitReason, raw: real, holdingDays: int)

  function EntryPrice(open: real, p: TradingParameters): real { open * (1.0 + p.slippage) }

  function ExitPrice(raw: real, p: TradingParameters): real { raw * (1.0 - p.slippage) }

  /** The exact amounts of a round trip, before any of them is rounded. */
  datatype Fill = Fill(entry: real, exit: real, gross: real, commission: real, tax: real, slippage: real, net: real)

  /** Profit is the price gain less both commissions and the sale tax. */
  function ExactFill(open: real, quantity: int, raw: real, p: TradingParameters): Fill {
    var q := quantity as real;
    var entry := EntryPrice(open, p);
    var exit := ExitPrice(raw, p);
    var gross := (exit - entry) * q;
    var commission := entry * q * p.commission + exit * q * p.commission;
    var tax := exit * q * p.sellTax;
    Fill(entry, exit, gross, commission, tax, ((entry - open) + (raw - exit)) * q, gross - commission - tax)
  }

  /** The stored record of a finished trade: every money field is quantized on its own. */
  function RecordTrade(s: Signal, entryDate: Date, quantity: int, x: Exit, f: Fill): Trade {
    Trade(s.symbol, s.date, entryDate, Quantize(f.entry), quantity, x.date, Quantize(f.exit), x.reason,
          Quantize(f.gross), Quantize(f.commission), Quantize(f.tax), Quantize(f.slippage), Quantize(f.net),
          x.holdingDays)
  }

  function StopPrice(entry: real, p: TradingParameters): real { entry * (1.0 - p.stopLoss) }

  function TargetPrice(entry: real, p: TradingParameters): real { entry * (1.0 + p.takeProfit) }

  /** The stop lies below the entry price by the share that may be lost, the target above it by the share to
      be gained. */
  lemma LimitsMeaning(entry: real, p: TradingParameters)
    ensures entry - StopPrice(entry, p) == entry * p.stopLoss
    ensures TargetPrice(entry, p) - entry == entry * p.takeProfit
  {}

  /** Whether and at which raw price a position leaves on a bar: stop before target before age. */
  function ExitTerms(entry: real, holdingDays: int, bar: Bar, p: TradingParameters, final: bool)
    : Option<(ExitReason, real)>
  {
    TermsBetween(StopPrice(entry, p), TargetPrice(entry, p), holdingDays, bar, p.maxHoldingDays, final)
  }

  function TermsBetween(stop: real, target: real, holdingDays: int, bar: Bar, limit: int, final: bool)
    : Option<(ExitReason, real)>
  {
    if final then Some((EndOfPeriod, bar.close))
    else if bar.open <= stop || bar.low <= stop then
      Some((StopLoss, if bar.open <= stop then bar.open else stop))
    else if bar.open >= target || bar.high >= target then
      Some((TakeProfit, if bar.open >= target then bar.open else target))
    else if holdingDays >= limit then Some((MaxHoldingDays, bar.close))
    else None
  }

  /** A sell at the stop or at the target never fills outside the bar's own range. */
  lemma ExitWithinBar(entry: real, holdingDays: int, bar: Bar, p: TradingParameters, final: bool)
    requires ValidBar(bar) && p.Valid() && 0.0 < entry
    ensures ExitTerms(entry, holdingDays, bar, p, final).Some? ==>
              bar.low <= ExitTerms(entry, holdingDays, bar, p, final).value.1 <= bar.high
  {}

  predicate Triggers(entry: real, later: seq<DailyBar>, j: int, p: TradingParameters)
    requires 0 <= j < |later|
  {
    ExitTerms(entry, j + 1, later[j].bar, p, false).Some?
  }

  /** The first bar after the entry bar on which a position entered at `entry` leaves. */
  function FirstTrigger(entry: real, later: seq<DailyBar>, from: nat, p: TradingParameters): (j: nat)
    requires from <= |later|
    ensures from <= j <= |later|
    ensures j < |later| ==> Triggers(entry, later, j, p)
    ensures forall i :: from <= i < j ==> !Triggers(entry, later, i, p)
    decreases |later| - from
  {
    if from == |later| || Triggers(entry, later, from, p) then from else FirstTrigger(entry, later, from + 1, p)
  }

  /** The exit of a lone position: the first trigger, else the close of the last bar. */
  function LoneExit(eligible: seq<DailyBar>, entry: real, p: TradingParameters): Exit
    requires eligible != []
  {
    var later := eligible[1..];
    if later == [] then Exit(eligible[0].date, EndOfPeriod, eligible[0].bar.close, 0)
    else
      var j := FirstTrigger(entry, later, 0, p);
      if j < |later| then
        var terms := ExitTerms(entry, j + 1, later[j].bar, p, false).value;
        Exit(later[j].date, terms.0, terms.1, j + 1)
      else Exit(later[|later| - 1].date, EndOfPeriod, later[|later| - 1].bar.close, |later|)
  }

  /** A lone position never outlives the age limit, and leaves on one of its own bars. */
  lemma LoneExitAge(eligible: seq<DailyBar>, entry: real, p: TradingParameters)
    requires eligible != [] && p.Valid()
    ensures var x := LoneExit(eligible, entry, p);
      && 0 <= x.holdingDays <= p.maxHoldingDays
      && x.holdingDays < |eligible|
      && x.date == eligible[x.holdingDays].date
  {
    var later := eligible[1..];
    if |later| >= p.maxHoldingDays {
      assert Triggers(entry, later, p.maxHoldingDays - 1, p);
    }
  }

  /** Nothing happens on a bar strictly between stop and target. */
  predicate Between(bar: Bar, stop: real, target: real) { stop < bar.low && bar.high < target }

  /** One valid bar: which of the tests fires first, and at which price. */
  lemma TermsMeaning(entry: real, holdingDays: int, bar: Bar, p: TradingParameters)
    requires ValidBar(bar)
    ensures var r := ExitTerms(entry, holdingDays, bar, p, false);
      var stop, target := StopPrice(entry, p), TargetPrice(entry, p);
      && (bar.low <= stop ==> r == Some((StopLoss, Min(bar.open, stop))))
      && (stop < bar.low && target <= bar.high ==> r == Some((TakeProfit, Max(bar.open, target))))
      && (Between(bar, stop, target) ==>
            r == if p.maxHoldingDays <= holdingDays then Some((MaxHoldingDays, bar.close)) else None)
  {
    hide StopPrice, TargetPrice;
    TestsInOrder(StopPrice(entry, p), TargetPrice(entry, p), holdingDays, bar, p.maxHoldingDays);
  }

  lemma TestsInOrder(stop: real, target: real, holdingDays: int, bar: Bar, limit: int)
    requires ValidBar(bar)
    ensures var r := TermsBetween(stop, target, holdingDays, bar, limit, false);
      && (bar.low <= stop ==> r == Some((StopLoss, Min(bar.open, stop))))
      && (stop < bar.low && target <= bar.high ==> r == Some((TakeProfit, Max(bar.open, target))))
      && (Between(bar, stop, target) ==> r == if limit <= holdingDays then Some((MaxHoldingDays, bar.close)) else None)
  {}

  /** The first bar after the entry bar with terms decides; without one, the close of the last bar. */
  lemma LoneExitTerms(eligible: seq<DailyBar>, entry: real, p: TradingParameters)
    requires eligible != [] && p.Valid()
    ensures var x := LoneExit(eligible, entry, p); var j := x.holdingDays;
      && 0 <= j < |eligible| && j <= p.maxHoldingDays && x.date == eligible[j].date
      && (forall i :: 1 <= i < j ==> ExitTerms(entry, i, eligible[i].bar, p, false).None?)
      && (j == 0 ==> |eligible| == 1 && x.reason == EndOfPeriod && x.raw == eligible[0].bar.close)
      && (j > 0 ==> var terms := ExitTerms(entry, j, eligible[j].bar, p, false);
            if terms.Some? then terms == Some((x.reason, x.raw))
            else j == |eligible| - 1 && x.reason == EndOfPeriod && x.raw == eligible[j].bar.close)
  {
    LoneExitAge(eligible, entry, p);
    hide ExitTerms;
    var later := eligible[1..];
    if later != [] {
      var f := FirstTrigger(entry, later, 0, p);
      var j := LoneExit(eligible, entry, p).holdingDays;
      assert j == (if f < |later| then f + 1 else |later|) && later[j - 1] == eligible[j];
      assert f < |later| ==> Triggers(entry, later, j - 1, p);
      assert f == |later| ==> !Triggers(entry, later, j - 1, p);
      hide LoneExit, FirstTrigger;
      forall i | 1 <= i < j ensures ExitTerms(entry, i, eligible[i].bar, p, false).None? {
        assert !Triggers(entry, later, i - 1, p) && later[i - 1] == eligible[i];
      }
    }
  }

  /** What an exit after `j` bars must be, from that bar alone: a bar that touches the stop leaves there or at
      its lower opening price, whether or not it also touches the target; otherwise one that touches the
      target leaves there or at its higher opening price; otherwise the age limit or the last bar decides, at
      the close. */
  predicate LeavesOn(x: Exit, bar: Bar, last: bool, stop: real, target: real, limit: int) {
    var j := x.holdingDays;
    && (x.reason == StopLoss <==> 1 <= j && bar.low <= stop)
    && (x.reason == StopLoss ==> x.raw == Min(bar.open, stop))
    && (x.reason == TakeProfit <==> 1 <= j && stop < bar.low && target <= bar.high)
    && (x.reason == TakeProfit ==> x.raw == Max(bar.open, target))
    && (x.reason == MaxHoldingDays <==> j == limit && Between(bar, stop, target))
    && (x.reason == EndOfPeriod <==> last && j < limit && (j == 0 || Between(bar, stop, target)))
    && (x.reason == MaxHoldingDays || x.reason == EndOfPeriod ==> x.raw == bar.close)
    && (x.reason == StopLoss || x.reason == TakeProfit || x.reason == MaxHoldingDays || x.reason == EndOfPeriod)
  }

  /** What the exit means on valid bars: every earlier bar after the entry bar stays strictly between stop and
      target, and the bar of the exit decides its reason and price. */
  lemma LoneExitMeaning(eligible: seq<DailyBar>, entry: real, p: TradingParameters)
    requires eligible != [] && p.Valid() && forall b :: b in eligible ==> ValidBar(b.bar)
    ensures var x := LoneExit(eligible, entry, p); var j := x.holdingDays;
      var stop, target := StopPrice(entry, p), TargetPrice(entry, p);
      && 0 <= j < |eligible| && j <= p.maxHoldingDays && x.date == eligible[j].date
      && (forall i :: 1 <= i < j ==> Between(eligible[i].bar, stop, target))
      && LeavesOn(x, eligible[j].bar, j == |eligible| - 1, stop, target, p.maxHoldingDays)
  {
    LoneExitTerms(eligible, entry, p);
    hide LoneExit, ExitTerms, StopPrice, TargetPrice;
    var x := LoneExit(eligible, entry, p);
    var j := x.holdingDays;
    var stop, target := StopPrice(entry, p), TargetPrice(entry, p);
    assert eligible[j] in eligible;
    if j > 0 { TermsMeaning(entry, j, eligible[j].bar, p); }
    forall i | 1 <= i < j ensures Between(eligible[i].bar, stop, target) {
      assert eligible[i] in eligible;
      TermsMeaning(entry, i, eligible[i].bar, p);
    }
  }

  /** `ZeroPrice` is the division by zero the simulator runs into on a bar that opened at zero. */
  datatype Outcome = Traded(trade: Trade) | Rejected(reason: ExitReason) | ZeroPrice

  function Usable(s: Signal, endDate: Date): DailyBar -> bool {
    (b: DailyBar) => s.date < b.date <= endDate
  }

  predicate DateLeq(a: DailyBar, b: DailyBar) { a.date <= b.date }

  /** The bars a signal may use: after its date, up to the end of the run, in date order. */
  function Eligible(bars: seq<DailyBar>, s: Signal, endDate: Date): seq<DailyBar> {
    Sort(Filter(bars, Usable(s, endDate)), DateLeq)
  }

  /** The whole shares that `amount` pays for at `price`. */
  function WholeShares(amount: real, price: real): int
    requires price != 0.0
  {
    Truncate(amount / price)
  }

  /** What the simulator returns for one signal. */
  function Simulation(bars: seq<DailyBar>, s: Signal, endDate: Date, p: TradingParameters): Outcome {
    var eligible := Eligible(bars, s, endDate);
    if eligible == [] then Rejected(NoEntryBar)
    else
      var entry := EntryPrice(eligible[0].bar.open, p);
      if entry == 0.0 then ZeroPrice
      else
        var quantity := WholeShares(p.positionSize, entry);
        if quantity < 1 then Rejected(InsufficientPositionSize)
        else
          var x := LoneExit(eligible, entry, p);
          Traded(RecordTrade(s, eligible[0].date, quantity, x, ExactFill(eligible[0].bar.open, quantity, x.raw, p)))
  }

  // ---- what the amounts of a trade mean ----

  /** What the price alone brings in, before any cost. */
  function PriceGain(open: real, raw: real, q: real): real { (raw - open) * q }

  /** What slippage costs on the two sides together. */
  function SlippageLost(open: real, bought: real, raw: real, sold: real, q: real): real {
    ((bought - open) + (raw - sold)) * q
  }

  /** One commission on both sides. */
  function Fees(bought: real, sold: real, q: real, rate: real): real { (bought * q + sold * q) * rate }

  function SaleTax(sold: real, q: real, rate: real): real { sold * q * rate }

  /** The stored amounts of `t` are those of buying at `open` and selling at `raw`: the price gain less what
      slippage costs on either side, less the commission on both and the tax on the sale, each amount
      rounded on its own. */
  predicate Settles(t: Trade, open: real, raw: real, p: TradingParameters) {
    SettlesAt(t, open, EntryPrice(open, p), raw, ExitPrice(raw, p), p)
  }

  predicate SettlesAt(t: Trade, open: real, bought: real, raw: real, sold: real, p: TradingParameters) {
    var q := t.quantity as real;
    var gain, lost := PriceGain(open, raw, q), SlippageLost(open, bought, raw, sold, q);
    var fees, tax := Fees(bought, sold, q, p.commission), SaleTax(sold, q, p.sellTax);
    && t.entryPrice == Quantize(bought) && t.exitPrice == Quantize(sold)
    && t.slippage == Quantize(lost) && t.gross == Quantize(gain - lost)
    && t.commission == Quantize(fees) && t.tax == Quantize(tax)
    && t.net == Quantize(gain - lost - fees - tax)
  }

  lemma RecordedSettles(s: Signal, entryDate: Date, quantity: int, x: Exit, open: real, p: TradingParameters)
    ensures Settles(RecordTrade(s, entryDate, quantity, x, ExactFill(open, quantity, x.raw, p)), open, x.raw, p)
  {
    FillAmounts(open, quantity, x.raw, p);
    hide Quantize, ExactFill, EntryPrice, ExitPrice, PriceGain, SlippageLost, Fees, SaleTax;
  }

  /** Slippage moves both prices against the trade by the same share of each. */
  lemma SlippageMoves(open: real, raw: real, p: TradingParameters)
    ensures EntryPrice(open, p) - open == open * p.slippage && raw - ExitPrice(raw, p) == raw * p.slippage
  {}

  lemma FillAmounts(open: real, quantity: int, raw: real, p: TradingParameters)
    ensures var f := ExactFill(open, quantity, raw, p); var q := quantity as real;
      && f.entry == EntryPrice(open, p) && f.exit == ExitPrice(raw, p)
      && f.slippage == SlippageLost(open, f.entry, raw, f.exit, q)
      && f.gross == PriceGain(open, raw, q) - f.slippage
      && f.commission == Fees(f.entry, f.exit, q, p.commission)
      && f.tax == SaleTax(f.exit, q, p.sellTax)
      && f.net == f.gross - f.commission - f.tax
  {
    hide EntryPrice, ExitPrice;
    var q, entry, exit := quantity as real, EntryPrice(open, p), ExitPrice(raw, p);
    Spread(raw - open, entry - open, raw - exit, q);
    CommissionSplits(entry * q, exit * q, p.commission);
  }

  lemma Spread(gain: real, e: real, d: real, q: real)
    ensures (gain - e - d) * q == gain * q - (e + d) * q
  {}

  lemma EligibleMeaning(bars: seq<DailyBar>, s: Signal, endDate: Date)
    ensures var e := Eligible(bars, s, endDate);
      && (forall b :: b in e <==> b in bars && s.date < b.date <= endDate)
      && (forall i, j :: 0 <= i < j < |e| ==> e[i].date <= e[j].date)
  {
    var usable := Filter(bars, Usable(s, endDate));
    assert TotalPreorder(DateLeq);
    SortSorts(usable, DateLeq);
    SameElements(usable, Sort(usable, DateLeq));
  }

  /** What the simulator returns: it follows the bars after the signal and up to the end of the run and buys
      at the open of the first one, unless there is none, it opens at zero, or the position size does not pay
      for one share at that price. */
  lemma SimulationOutcome(bars: seq<DailyBar>, s: Signal, endDate: Date, p: TradingParameters)
    requires p.Valid() && forall b :: b in bars ==> ValidBar(b.bar)
    ensures var r := Simulation(bars, s, endDate, p); var e := Eligible(bars, s, endDate);
      && (r == Rejected(NoEntryBar) <==> e == [])
      && (e != [] ==> var open := e[0].bar.open; var price := EntryPrice(open, p);
            && (r == ZeroPrice <==> open == 0.0)
            && (r == Rejected(InsufficientPositionSize) <==> 0.0 < open && p.positionSize < price)
            && (r.Traded? <==> 0.0 < open && price <= p.positionSize))
  {
    var e := Eligible(bars, s, endDate);
    EligibleMeaning(bars, s, endDate);
    hide Eligible, LoneExit, ExactFill, RecordTrade;
    if e != [] {
      assert e[0] in e;
      EntryPricePositive(e[0].bar.open, p);
      if 0.0 < e[0].bar.open { WholeSharesMeaning(p.positionSize, EntryPrice(e[0].bar.open, p)); }
      hide WholeShares, EntryPrice;
    }
  }

  lemma EntryPricePositive(open: real, p: TradingParameters)
    requires 0.0 <= open && 0.0 <= p.slippage
    ensures EntryPrice(open, p) == open + open * p.slippage
    ensures 0.0 < open <==> 0.0 < EntryPrice(open, p)
    ensures 0.0 <= EntryPrice(open, p)
  {
    MulMonotone(0.0, open, p.slippage);
  }

  /** The simulated trade: the most whole shares that the position size pays for without commission, the exit
      of `LoneExitMeaning`, and the amounts of both. */
  lemma SimulatedTrade(bars: seq<DailyBar>, s: Signal, endDate: Date, p: TradingParameters)
    requires p.Valid() && (forall b :: b in bars ==> ValidBar(b.bar)) && Simulation(bars, s, endDate, p).Traded?
    ensures var t := Simulation(bars, s, endDate, p).trade; var e := Eligible(bars, s, endDate);
      && e != []
      && var open := e[0].bar.open; var price := EntryPrice(open, p); var x := LoneExit(e, price, p);
         && t.symbol == s.symbol && t.signalDate == s.date && t.entryDate == e[0].date
         && (t.quantity as real) * price <= p.positionSize < ((t.quantity + 1) as real) * price
         && t.exitDate == x.date && t.reason == x.reason && t.holdingDays == x.holdingDays
         && Settles(t, open, x.raw, p)
  {
    hide Eligible, LoneExit, ExactFill, Settles, WholeShares, EntryPrice, Quantize;
    var e := Eligible(bars, s, endDate);
    TradedAs(bars, s, endDate, p);
    hide Simulation;
    var open := e[0].bar.open;
    var price := EntryPrice(open, p);
    var q, x := WholeShares(p.positionSize, price), LoneExit(e, price, p);
    WholeSharesMeaning(p.positionSize, price);
    RecordedSettles(s, e[0].date, q, x, open, p);
  }

  lemma TradedAs(bars: seq<DailyBar>, s: Signal, endDate: Date, p: TradingParameters)
    requires p.Valid() && (forall b :: b in bars ==> ValidBar(b.bar)) && Simulation(bars, s, endDate, p).Traded?
    ensures var e := Eligible(bars, s, endDate);
      && e != []
      && var open := e[0].bar.open; var price := EntryPrice(open, p);
         && 0.0 < price
         && var q, x := WholeShares(p.positionSize, price), LoneExit(e, price, p);
            Simulation(bars, s, endDate, p).trade == RecordTrade(s, e[0].date, q, x, ExactFill(open, q, x.raw, p))
  {
    var e := Eligible(bars, s, endDate);
    EligibleMeaning(bars, s, endDate);
    hide Eligible, LoneExit, ExactFill, RecordTrade, WholeShares;
    assert e[0] in e;
    EntryPricePositive(e[0].bar.open, p);
    hide EntryPrice;
  }

  lemma WholeSharesMeaning(amount: real, price: real)
    requires 0.0 < amount && 0.0 < price
    ensures var q := WholeShares(amount, price);
      && 0 <= q && (q as real) * price <= amount < ((q + 1) as real) * price
      && (q < 1 <==> amount < price)
  {
    FloorBounds(amount, price);
    DivNonNegative(amount, price);
    var q := WholeShares(amount, price);
    if q < 1 { assert (q + 1) as real == 1.0; } else { MulMonotone(1.0, q as real, price); }
  }

  /** The day loop of the simulator: the bars after the entry bar, until one of them triggers. */
  method FindExit(eligible: seq<DailyBar>, entryPrice: real, p: TradingParameters) returns (x: Exit)
    requires eligible != []
    ensures x == LoneExit(eligible, entryPrice, p)
  {
    var later := eligible[1..];
    x := Exit(eligible[0].date, EndOfPeriod, eligible[0].bar.close, 0);
    if later != [] {
      var stop, target := StopPrice(entryPrice, p), TargetPrice(entryPrice, p);
      var last := later[|later| - 1];
      x := Exit(last.date, EndOfPeriod, last.bar.close, |later|);
      var i := 0;
      while i < |later|
        invariant 0 <= i <= |later|
        invariant FirstTrigger(entryPrice, later, 0, p) == FirstTrigger(entryPrice, later, i, p)
        invariant x == Exit(last.date, EndOfPeriod, last.bar.close, |later|)
      {
        var bar := later[i].bar;
        if bar.open <= stop || bar.low <= stop {
          x := Exit(later[i].date, StopLoss, if bar.open <= stop then bar.open else stop, i + 1);
          break;
        }
        if bar.open >= target || bar.high >= target {
          x := Exit(later[i].date, TakeProfit, if bar.open >= target then bar.open else target, i + 1);
          break;
        }
        if i + 1 >= p.maxHoldingDays {
          x := Exit(later[i].date, MaxHoldingDays, bar.close, i + 1);
          break;
        }
        i := i + 1;
      }
    }
  }

  lemma CommissionSplits(buy: real, sell: real, rate: real)
    ensures (buy + sell) * rate == buy * rate + sell * rate
  {}

  /** The money fields of a finished trade, with the commission charged on the sum of the notionals. */
  method Settle(open: real, entryPrice: real, quantity: int, raw: real, p: TradingParameters) returns (f: Fill)
    requires entryPrice == EntryPrice(open, p)
    ensures f == ExactFill(open, quantity, raw, p)
  {
    var q := quantity as real;
    var exitPrice := raw * (1.0 - p.slippage);
    var gross := (exitPrice - entryPrice) * q;
    var buyNotional, sellNotional := entryPrice * q, exitPrice * q;
    var commission := (buyNotional + sellNotional) * p.commission;
    var tax := sellNotional * p.sellTax;
    var slippage := ((entryPrice - open) + (raw - exitPrice)) * q;
    CommissionSplits(buyNotional, sellNotional, p.commission);
    f := Fill(entryPrice, exitPrice, gross, commission, tax, slippage, gross - commission - tax);
  }

  /** Follows one signal over its own bars. */
  method SimulateSignal(bars: seq<DailyBar>, s: Signal, endDate: Date, p: TradingParameters) returns (r: Outcome)
    ensures r == Simulation(bars, s, endDate, p)
  {
    var eligible := Eligible(bars, s, endDate);
    if eligible == [] {
      return Rejected(NoEntryBar);
    }
    var entryBar := eligible[0];
    var entryPrice := EntryPrice(entryBar.bar.open, p);
    if entryPrice == 0.0 {
      return ZeroPrice;
    }
    var quantity := WholeShares(p.positionSize, entryPrice);
    if quantity < 1 {
      return Rejected(InsufficientPositionSize);
    }
    var x := FindExit(eligible, entryPrice, p);
    var f := Settle(entryBar.bar.open, entryPrice, quantity, x.raw, p);
    return Traded(RecordTrade(s, entryBar.date, quantity, x, f));
  }
}
