/** Every trade of a portfolio run against the simulator that follows its signal alone, and the
    order of the trades in time. */
module PortfolioTrades {
  import opened Dates
  import opened Options
  import opened Ordering
  import opened Decimals
  import opened Backtest
  import opened Sizing
  import opened Portfolio

  /** The bars of a signal's symbol after the signal, among the first `k` days. */
  ghost function History(m: Market, s: Signal, k: int): (h: seq<DailyBar>)
    requires 0 <= k <= |m.dates|
    ensures |h| <= k
    decreases k
  {
    if k == 0 then []
    else
      var h := History(m, s, k - 1);
      if m.dates[k - 1] > s.date && s.symbol in m.Bars(k - 1)
      then h + [DailyBar(m.dates[k - 1], m.Bars(k - 1)[s.symbol])] else h
  }

  lemma {:induction false} HistoryDates(m: Market, s: Signal, k: int)
    requires m.Valid() && 0 <= k <= |m.dates|
    ensures forall i :: 0 <= i < |History(m, s, k)| ==> s.date < History(m, s, k)[i].date
    ensures k > 0 ==> forall i :: 0 <= i < |History(m, s, k)| ==> History(m, s, k)[i].date <= m.dates[k - 1]
    ensures forall i, j :: 0 <= i < j < |History(m, s, k)| ==> History(m, s, k)[i].date < History(m, s, k)[j].date
    decreases k
  {
    if k > 0 { HistoryDates(m, s, k - 1); }
  }

  lemma {:induction false} HistoryPrefix(m: Market, s: Signal, k: int, n: int)
    requires 0 <= k <= n <= |m.dates|
    ensures |History(m, s, k)| <= |History(m, s, n)|
    ensures History(m, s, n)[..|History(m, s, k)|] == History(m, s, k)
    decreases n
  {
    if k < n {
      HistoryPrefix(m, s, k, n - 1);
      assert History(m, s, n)[..|History(m, s, n - 1)|] == History(m, s, n - 1);
    }
  }

  /** The entry day that the search finds is the day of the first bar in the history. */
  lemma {:induction false} EntryIsFirstBar(m: Market, s: Signal, i: int, d: int)
    requires m.Valid() && 0 <= i <= |m.dates| && History(m, s, i) == []
    requires FindEntry(m, s, i) == At(d)
    ensures History(m, s, d) == []
    ensures History(m, s, d + 1) == [DailyBar(m.dates[d], m.Bars(d)[s.symbol])]
    decreases |m.dates| - i
  {
    if i != d { EntryIsFirstBar(m, s, i + 1, d); }
  }

  /** An open position after `k` days: it was entered on the first bar of its history and none of the
      later bars of the history would have closed it. */
  ghost predicate Tracked(m: Market, p: TradingParameters, symbol: string, pos: Position, k: int)
    requires 0 <= k <= |m.dates|
  {
    var h := History(m, pos.signal, k);
    && pos.signal.symbol == symbol
    && |h| == pos.holdingDays + 1
    && 0 <= pos.holdingDays < p.maxHoldingDays
    && 1 <= pos.quantity
    && 0.0 < pos.entryPrice
    && pos.entryDate == h[0].date
    && pos.entryRaw == h[0].bar.open
    && pos.entryPrice == EntryPrice(pos.entryRaw, p)
    && FirstTrigger(pos.entryPrice, h[1..], 0, p) == pos.holdingDays
  }

  function SignalOf(t: Trade): Signal { Signal(t.symbol, t.signalDate) }

  /** All usable bars of a trade's signal over the whole calendar. */
  ghost function Usables(m: Market, t: Trade): seq<DailyBar> { History(m, SignalOf(t), |m.dates|) }

  /** The trade has the dates, prices, reason and age that its signal alone would have had. */
  ghost predicate MatchesAlone(m: Market, p: TradingParameters, t: Trade) {
    var e := Usables(m, t);
    e != [] &&
    var entry := EntryPrice(e[0].bar.open, p);
    var x := LoneExit(e, entry, p);
    && t.entryDate == e[0].date
    && t.entryPrice == Quantize(entry)
    && t.exitDate == x.date
    && t.exitPrice == Quantize(ExitPrice(x.raw, p))
    && t.reason == x.reason
    && t.holdingDays == x.holdingDays
  }

  /** The symbol has a bar on the last day, and that bar is the entry bar or triggers nothing. */
  ghost predicate QuietLastDay(m: Market, p: TradingParameters, t: Trade) {
    var e := Usables(m, t);
    && m.dates != [] && t.symbol in m.Bars(|m.dates| - 1) && e != []
    && (|e| == 1 || !Triggers(EntryPrice(e[0].bar.open, p), e[1..], |e| - 2, p))
  }

  /** The amounts of the trade are those of its entry bar's open and of some sale price. */
  ghost predicate AmountsSettle(m: Market, p: TradingParameters, t: Trade) {
    var e := Usables(m, t);
    e != [] && exists raw :: Settles(t, e[0].bar.open, raw, p)
  }

  ghost predicate TradeOk(m: Market, p: TradingParameters, t: Trade) {
    && m.dates != []
    && t.signalDate < t.entryDate <= t.exitDate <= m.dates[|m.dates| - 1]
    && 1 <= t.quantity
    && 0 <= t.holdingDays <= p.maxHoldingDays
    && AmountsSettle(m, p, t)
    && Usables(m, t) != [] && t.entryDate == Usables(m, t)[0].date
    && 0.0 < EntryPrice(Usables(m, t)[0].bar.open, p)
    && (t.exitDate < m.dates[|m.dates| - 1] ==> MatchesAlone(m, p, t))
    && (t.exitDate == m.dates[|m.dates| - 1] ==> (MatchesAlone(m, p, t) <==> QuietLastDay(m, p, t)))
  }

  // ---- closing a tracked position ----

  lemma TriggerStep(entry: real, later: seq<DailyBar>, x: DailyBar, more: seq<DailyBar>, from: nat,
                    p: TradingParameters)
    requires from <= |later| && FirstTrigger(entry, later, from, p) == |later|
    ensures FirstTrigger(entry, later + [x] + more, from, p) >= |later|
    ensures Triggers(entry, later + [x] + more, |later|, p) ==>
      FirstTrigger(entry, later + [x] + more, from, p) == |later|
    ensures FirstTrigger(entry, later + [x], from, p) ==
      if Triggers(entry, later + [x], |later|, p) then |later| else |later| + 1
  {
    var a := later + [x] + more;
    assert forall i :: from <= i < |later| ==> a[i] == later[i] && (later + [x])[i] == later[i];
    assert forall i :: from <= i < |later| ==> Triggers(entry, a, i, p) == Triggers(entry, later, i, p);
    assert forall i :: from <= i < |later| ==> Triggers(entry, later + [x], i, p) == Triggers(entry, later, i, p);
  }

  /** What today adds to the history of an open position. */
  lemma HistoryToday(m: Market, s: Signal, d: int)
    requires m.Valid() && 0 <= d < |m.dates| && History(m, s, d) != []
    ensures s.date < m.dates[d] && History(m, s, d)[0].date < m.dates[d]
    ensures s.symbol in m.Bars(d) ==>
      History(m, s, d + 1) == History(m, s, d) + [DailyBar(m.dates[d], m.Bars(d)[s.symbol])]
    ensures s.symbol !in m.Bars(d) ==> History(m, s, d + 1) == History(m, s, d)
  {
    HistoryDates(m, s, d);
    assert History(m, s, d)[0].date <= m.dates[d - 1] < m.dates[d];
  }

  /** A position that nothing closes today stays tracked. */
  lemma AgedTracked(m: Market, p: TradingParameters, symbol: string, pos: Position, d: int)
    requires m.Valid() && 0 <= d < |m.dates| && Tracked(m, p, symbol, pos, d) && symbol in m.Bars(d)
    requires ExitTerms(pos.entryPrice, pos.holdingDays + 1, m.Bars(d)[symbol], p, false).None?
    ensures Tracked(m, p, symbol, Age(pos), d + 1)
  {
    hide ExitTerms, EntryPrice;
    var h := History(m, pos.signal, d);
    HistoryToday(m, pos.signal, d);
    var x := DailyBar(m.dates[d], m.Bars(d)[symbol]);
    assert History(m, pos.signal, d + 1)[1..] == h[1..] + [x];
    TriggerStep(pos.entryPrice, h[1..], x, [], 0, p);
    NoTermsMeansYoung(pos.entryPrice, pos.holdingDays + 1, x.bar, p);
  }

  lemma NoTermsMeansYoung(entry: real, holdingDays: int, bar: Bar, p: TradingParameters)
    requires ExitTerms(entry, holdingDays, bar, p, false).None?
    ensures holdingDays < p.maxHoldingDays
  {}

  /** The stored trade of an exit on day `d`. */
  ghost function TradeOf(p: TradingParameters, pos: Position, x: Exit): Trade {
    RecordTrade(pos.signal, pos.entryDate, pos.quantity, x, PositionFill(pos, x.raw, p))
  }

  lemma TradeOfFields(p: TradingParameters, pos: Position, x: Exit)
    requires pos.entryPrice == EntryPrice(pos.entryRaw, p)
    ensures var t := TradeOf(p, pos, x);
      && SignalOf(t) == pos.signal && t.entryDate == pos.entryDate && t.quantity == pos.quantity
      && t.exitDate == x.date && t.reason == x.reason && t.holdingDays == x.holdingDays
      && t.entryPrice == Quantize(pos.entryPrice) && t.exitPrice == Quantize(ExitPrice(x.raw, p))
      && Settles(t, pos.entryRaw, x.raw, p)
  {
    RecordedSettles(pos.signal, pos.entryDate, pos.quantity, x, pos.entryRaw, p);
    hide Quantize, Settles;
  }

  /** The first bar that triggers decides, whatever bars follow it. */
  lemma LoneExitAt(e: seq<DailyBar>, h: seq<DailyBar>, x: DailyBar, entry: real, p: TradingParameters)
    requires h != [] && |e| > |h| && e[..|h| + 1] == h + [x]
    requires FirstTrigger(entry, h[1..], 0, p) == |h| - 1
    requires ExitTerms(entry, |h|, x.bar, p, false).Some?
    ensures e[0] == h[0]
    ensures var terms := ExitTerms(entry, |h|, x.bar, p, false).value;
      LoneExit(e, entry, p) == Exit(x.date, terms.0, terms.1, |h|)
  {
    hide ExitTerms;
    var more := e[|h| + 1..];
    assert e == h + [x] + more;
    assert e[1..] == h[1..] + [x] + more;
    TriggerStep(entry, h[1..], x, more, 0, p);
    assert e[1..][|h| - 1] == x;
  }

  /** A stop, target or age exit before the last day is the exit of the signal alone. */
  lemma EarlyExitOk(m: Market, p: TradingParameters, symbol: string, pos: Position, d: int)
    requires m.Valid() && 0 <= d < |m.dates| - 1 && Tracked(m, p, symbol, pos, d) && symbol in m.Bars(d)
    requires ExitTerms(pos.entryPrice, pos.holdingDays + 1, m.Bars(d)[symbol], p, false).Some?
    ensures var terms := ExitTerms(pos.entryPrice, pos.holdingDays + 1, m.Bars(d)[symbol], p, false).value;
      TradeOk(m, p, TradeOf(p, pos, Exit(m.dates[d], terms.0, terms.1, pos.holdingDays + 1)))
  {
    hide ExitTerms, EntryPrice, ExitPrice, Quantize, TradeOf, LoneExit;
    var terms := ExitTerms(pos.entryPrice, pos.holdingDays + 1, m.Bars(d)[symbol], p, false).value;
    TradeOfFields(p, pos, Exit(m.dates[d], terms.0, terms.1, pos.holdingDays + 1));
    var h := History(m, pos.signal, d);
    var e := History(m, pos.signal, |m.dates|);
    HistoryToday(m, pos.signal, d);
    HistoryPrefix(m, pos.signal, d + 1, |m.dates|);
    HistoryDates(m, pos.signal, d);
    assert m.dates[d] < m.dates[|m.dates| - 1];
    LoneExitAt(e, h, DailyBar(m.dates[d], m.Bars(d)[symbol]), pos.entryPrice, p);
  }

  /** Forced liquidation on the last day agrees with the signal alone exactly on a quiet bar. */
  lemma FinalExitOk(m: Market, p: TradingParameters, symbol: string, pos: Position, raw: real)
    requires m.Valid() && 0 < |m.dates| && Tracked(m, p, symbol, pos, |m.dates| - 1)
    requires symbol in m.Bars(|m.dates| - 1) ==> raw == m.Bars(|m.dates| - 1)[symbol].close
    ensures TradeOk(m, p, TradeOf(p, pos, Exit(m.dates[|m.dates| - 1], EndOfPeriod, raw, pos.holdingDays + 1)))
  {
    hide EntryPrice, ExitPrice, Quantize, TradeOf;
    var d := |m.dates| - 1;
    TradeOfFields(p, pos, Exit(m.dates[d], EndOfPeriod, raw, pos.holdingDays + 1));
    var h := History(m, pos.signal, d);
    var e := History(m, pos.signal, d + 1);
    HistoryToday(m, pos.signal, d);
    HistoryDates(m, pos.signal, d);
    if symbol in m.Bars(d) {
      var x := DailyBar(m.dates[d], m.Bars(d)[symbol]);
      assert e[1..] == h[1..] + [x];
      TriggerStep(pos.entryPrice, h[1..], x, [], 0, p);
    } else {
      assert forall i :: 0 <= i < |e| ==> e[i].date < m.dates[d];
      LoneExitInside(e, pos.entryPrice, p);
    }
  }

  lemma LoneExitInside(e: seq<DailyBar>, entry: real, p: TradingParameters)
    requires e != []
    ensures exists i :: 0 <= i < |e| && e[i].date == LoneExit(e, entry, p).date
  {
    var later := e[1..];
    if later == [] {
      assert e[0].date == LoneExit(e, entry, p).date;
    } else {
      var j := FirstTrigger(entry, later, 0, p);
      var i := if j < |later| then j + 1 else |later|;
      assert later[i - 1] == e[i];
      assert e[i].date == LoneExit(e, entry, p).date;
    }
  }

  /** A position entered on the last day and sold at its close is what the signal alone would do. */
  lemma SameDayExitOk(m: Market, p: TradingParameters, symbol: string, pos: Position)
    requires m.Valid() && 0 < |m.dates| && p.Valid() && Tracked(m, p, symbol, pos, |m.dates|)
    requires pos.entryDate == m.dates[|m.dates| - 1] && symbol in m.Bars(|m.dates| - 1)
    ensures var d := |m.dates| - 1;
      TradeOk(m, p, TradeOf(p, pos, Exit(m.dates[d], EndOfPeriod, m.Bars(d)[symbol].close, pos.holdingDays)))
  {
    hide EntryPrice, ExitPrice, Quantize, TradeOf;
    var d := |m.dates| - 1;
    TradeOfFields(p, pos, Exit(m.dates[d], EndOfPeriod, m.Bars(d)[symbol].close, pos.holdingDays));
    HistoryDates(m, pos.signal, d);
    HistoryDates(m, pos.signal, d + 1);
    assert History(m, pos.signal, d) == [] by {
      if History(m, pos.signal, d) != [] { HistoryToday(m, pos.signal, d); HistoryPrefix(m, pos.signal, d, d + 1); }
    }
  }

  // ---- the order of trades in time ----

  /** Per symbol, trades come one after the other and open positions after all of them. */
  ghost predicate Ordered(trades: seq<Trade>, positions: Positions) {
    && (forall i, j :: 0 <= i < j < |trades| && trades[i].symbol == trades[j].symbol ==>
          trades[i].exitDate <= trades[j].entryDate && trades[i].entryDate < trades[j].entryDate)
    && (forall i, s :: 0 <= i < |trades| && s in positions && trades[i].symbol == s ==>
          trades[i].exitDate <= positions[s].entryDate && trades[i].entryDate < positions[s].entryDate)
  }

  lemma CloseOrdered(trades: seq<Trade>, positions: Positions, symbol: string, t: Trade)
    requires Ordered(trades, positions) && symbol in positions
    requires t.symbol == symbol && t.entryDate == positions[symbol].entryDate
    ensures Ordered(trades + [t], positions - {symbol})
  {}

  lemma OpenOrdered(trades: seq<Trade>, positions: Positions, symbol: string, pos: Position)
    requires Ordered(trades, positions)
    requires forall t :: t in trades ==> t.exitDate <= pos.entryDate && t.entryDate < pos.entryDate
    ensures Ordered(trades, positions[symbol := pos])
  {}

  /** The invariant of a run's trades and positions on day `d`, while exits and entries are handled.
      Symbols in `todo` have not seen today's bar yet. */
  ghost predicate DayInv(m: Market, p: TradingParameters, b: Book, d: int, todo: set<string>)
    requires 0 <= d < |m.dates|
  {
    && Ordered(b.trades, b.positions)
    && (forall t :: t in b.trades ==> TradeOk(m, p, t) && t.exitDate <= m.dates[d] && t.entryDate < m.dates[d])
    && (forall s :: s in b.positions ==>
          Tracked(m, p, s, b.positions[s], if s in todo then d else d + 1) && b.positions[s].entryDate <= m.dates[d])
  }

  lemma ExitOneInv(m: Market, p: TradingParameters, b: Book, d: int, todo: set<string>, symbol: string)
    requires m.Valid() && 0 <= d < |m.dates| && DayInv(m, p, b, d, todo) && symbol in todo
    ensures DayInv(m, p, ExitOne(b, p, m.Day(d), symbol), d, todo - {symbol})
  {
    hide EntryPrice, ExitPrice, Quantize, TradeOk, Tracked, Ordered, ExitTerms;
    var a := ExitOne(b, p, m.Day(d), symbol);
    if symbol in b.positions {
      var pos := b.positions[symbol];
      var t := m.Day(d);
      var bar := SeenBar(pos, symbol, t);
      TrackedFacts(m, p, symbol, pos, d);
      if bar.None? {
        SilentTracked(m, p, symbol, pos, d);
      } else {
        var terms := ExitTerms(pos.entryPrice, pos.holdingDays + 1, bar.value, p, t.final);
        if terms.None? {
          NotFinal(pos.entryPrice, pos.holdingDays + 1, bar.value, p, t.final);
          AgedTracked(m, p, symbol, pos, d);
          AgedOrdered(b.trades, b.positions, symbol);
        } else {
          var x := Exit(m.dates[d], terms.value.0, terms.value.1, pos.holdingDays + 1);
          ExitTradeOk(m, p, symbol, pos, d, x);
          var trade := TradeOf(p, pos, x);
          TradeOfFields(p, pos, x);
          assert a.trades == b.trades + [trade] by { AgedTrade(p, pos, x); }
          assert a.positions == b.positions - {symbol};
          CloseOrdered(b.trades, b.positions, symbol, trade);
        }
      }
    }
  }

  lemma NotFinal(entry: real, holdingDays: int, bar: Bar, p: TradingParameters, final: bool)
    requires ExitTerms(entry, holdingDays, bar, p, final).None?
    ensures !final
  {}

  lemma AgedTrade(p: TradingParameters, pos: Position, x: Exit)
    requires x.holdingDays == pos.holdingDays + 1
    ensures RecordTrade(pos.signal, pos.entryDate, pos.quantity, Exit(x.date, x.reason, x.raw, Age(pos).holdingDays),
                        PositionFill(Age(pos), x.raw, p)) == TradeOf(p, pos, x)
  {
    hide Quantize, ExactFill;
  }

  lemma AgedOrdered(trades: seq<Trade>, positions: Positions, symbol: string)
    requires Ordered(trades, positions) && symbol in positions
    ensures Ordered(trades, positions[symbol := Age(positions[symbol])])
  {}

  lemma TrackedFacts(m: Market, p: TradingParameters, symbol: string, pos: Position, d: int)
    requires m.Valid() && 0 <= d < |m.dates| && Tracked(m, p, symbol, pos, d)
    ensures pos.entryDate < m.dates[d] && pos.signal.symbol == symbol && pos.entryPrice == EntryPrice(pos.entryRaw, p)
  {
    hide EntryPrice;
    HistoryToday(m, pos.signal, d);
  }

  /** Without a bar today nothing changes for the position. */
  lemma SilentTracked(m: Market, p: TradingParameters, symbol: string, pos: Position, d: int)
    requires m.Valid() && 0 <= d < |m.dates| && Tracked(m, p, symbol, pos, d) && symbol !in m.Bars(d)
    ensures Tracked(m, p, symbol, pos, d + 1)
  {
    hide EntryPrice;
    HistoryToday(m, pos.signal, d);
  }

  lemma ExitTradeOk(m: Market, p: TradingParameters, symbol: string, pos: Position, d: int, x: Exit)
    requires m.Valid() && 0 <= d < |m.dates| && Tracked(m, p, symbol, pos, d)
    requires SeenBar(pos, symbol, m.Day(d)).Some?
    requires ExitTerms(pos.entryPrice, pos.holdingDays + 1, SeenBar(pos, symbol, m.Day(d)).value, p, d == |m.dates| - 1)
             == Some((x.reason, x.raw))
    requires x.date == m.dates[d] && x.holdingDays == pos.holdingDays + 1
    ensures TradeOk(m, p, TradeOf(p, pos, x))
  {
    hide EntryPrice, Quantize, TradeOk, Tracked, TradeOf;
    if d == |m.dates| - 1 {
      FinalExitOk(m, p, symbol, pos, x.raw);
    } else {
      EarlyExitOk(m, p, symbol, pos, d);
    }
  }

  lemma {:induction false} ExitAllInv(m: Market, p: TradingParameters, b: Book, d: int, symbols: seq<string>,
                                      todo: set<string>)
    requires m.Valid() && 0 <= d < |m.dates| && DayInv(m, p, b, d, todo)
    requires todo == set s | s in symbols
    requires forall i, j :: 0 <= i < j < |symbols| ==> symbols[i] != symbols[j]
    ensures DayInv(m, p, ExitAll(b, p, m.Day(d), symbols), d, {})
    decreases |symbols|
  {
    hide DayInv, ExitOne;
    if symbols == [] {
      assert todo == {};
    } else {
      ExitOneInv(m, p, b, d, todo, symbols[0]);
      var rest := symbols[1..];
      assert forall s :: s in rest ==> s in symbols;
      assert forall s :: s in symbols ==> s == symbols[0] || s in rest;
      assert todo - {symbols[0]} == set s | s in rest;
      ExitAllInv(m, p, ExitOne(b, p, m.Day(d), symbols[0]), d, rest, todo - {symbols[0]});
    }
  }

  lemma OpenInv(m: Market, p: TradingParameters, b: Book, d: int, symbol: string, pos: Position)
    requires 0 <= d < |m.dates| && DayInv(m, p, b, d, {})
    requires Tracked(m, p, symbol, pos, d + 1) && pos.entryDate == m.dates[d]
    ensures DayInv(m, p, Open(b, symbol, pos), d, {})
  {
    hide TradeOk, Tracked, Cost;
    OpenOrdered(b.trades, b.positions, symbol, pos);
  }

  lemma SkipInv(m: Market, p: TradingParameters, b: Book, d: int, reason: SkipReason)
    requires 0 <= d < |m.dates| && DayInv(m, p, b, d, {})
    ensures DayInv(m, p, Skip(b, reason), d, {})
  {
    hide TradeOk, Tracked, Ordered;
  }

  lemma EnterOneInv(m: Market, p: PortfolioParameters, b: Book, d: int, s: Signal)
    requires p.Valid() && m.Valid() && 0 <= d < |m.dates| && DayInv(m, p.trading, b, d, {})
    requires FindEntry(m, s, 0) == At(d)
    ensures DayInv(m, p.trading, EnterOne(b, p, m.Day(d), s), d, {})
  {
    hide EntryPrice, Tracked, SizeEntry, BuyCommission, DayInv, Open, Skip, Cost;
    var open := m.Bars(d)[s.symbol].open;
    var price := EntryPrice(open, p.trading);
    SkipInv(m, p.trading, b, d, DuplicateSymbol);
    SkipInv(m, p.trading, b, d, MaxOpenPositions);
    SkipInv(m, p.trading, b, d, InsufficientCash);
    match SizeEntry(b, p, price) {
      case Refuse(reason) => SkipInv(m, p.trading, b, d, reason);
      case Buy(q) =>
        SizedPositive(b, p, price);
        var pos := Bought(p.trading, m.dates[d], open, s, q);
        EntryIsFirstBar(m, s, 0, d);
        FreshTracked(m, p.trading, s, d, q);
        OpenInv(m, p.trading, b, d, s.symbol, pos);
    }
  }

  lemma SizedPositive(b: Book, p: PortfolioParameters, price: real)
    requires p.Valid() && SizeEntry(b, p, price).Buy?
    ensures 1 <= SizeEntry(b, p, price).quantity && 0.0 < price
  {
    AffordableKeepsBuffer(Target(Equity(b), p), b.cash, p.Buffer(), price, p.trading.commission);
  }

  lemma FreshTracked(m: Market, p: TradingParameters, s: Signal, d: int, quantity: int)
    requires p.Valid() && 0 <= d < |m.dates| && s.symbol in m.Bars(d) && 1 <= quantity
    requires 0.0 < EntryPrice(m.Bars(d)[s.symbol].open, p)
    requires History(m, s, d + 1) == [DailyBar(m.dates[d], m.Bars(d)[s.symbol])]
    ensures Tracked(m, p, s.symbol, Bought(p, m.dates[d], m.Bars(d)[s.symbol].open, s, quantity), d + 1)
  {
    hide EntryPrice, BuyCommission;
  }

  ghost predicate EnteredOn(m: Market, events: seq<Signal>, d: int) {
    forall s :: s in events ==> FindEntry(m, s, 0) == At(d)
  }

  lemma FirstAndRest(m: Market, events: seq<Signal>, d: int)
    requires 0 <= d < |m.dates| && events != [] && HasBars(events, m.Bars(d)) && EnteredOn(m, events, d)
    ensures FindEntry(m, events[0], 0) == At(d) && events[0].symbol in m.Bars(d)
    ensures HasBars(events[1..], m.Bars(d)) && EnteredOn(m, events[1..], d)
  {
    assert events == [events[0]] + events[1..];
  }

  lemma {:induction false} EnterAllInv(m: Market, p: PortfolioParameters, b: Book, d: int, events: seq<Signal>)
    requires p.Valid() && m.Valid() && 0 <= d < |m.dates| && DayInv(m, p.trading, b, d, {})
    requires HasBars(events, m.Bars(d)) && EnteredOn(m, events, d)
    ensures DayInv(m, p.trading, EnterAll(b, p, m.Day(d), events), d, {})
    decreases |events|
  {
    if events != [] {
      FirstAndRest(m, events, d);
      hide DayInv, EnterOne, FindEntry, HasBars, EnteredOn;
      EnterOneInv(m, p, b, d, events[0]);
      EnterAllInv(m, p, EnterOne(b, p, m.Day(d), events[0]), d, events[1..]);
    }
  }

  /** The invariant between days, after the first `k` of them. */
  ghost predicate RunInv(m: Market, p: TradingParameters, b: Book, k: int)
    requires 0 <= k <= |m.dates|
  {
    && Ordered(b.trades, b.positions)
    && (forall t :: t in b.trades ==> TradeOk(m, p, t) && k > 0 && t.exitDate <= m.dates[k - 1])
    && (forall s :: s in b.positions ==> Tracked(m, p, s, b.positions[s], k))
  }

  lemma {:induction false} LiquidateAllInv(m: Market, p: TradingParameters, b: Book, symbols: seq<string>)
    requires m.Valid() && p.Valid() && 0 < |m.dates| && RunInv(m, p, b, |m.dates|)
    ensures RunInv(m, p, LiquidateAll(b, p, m.Day(|m.dates| - 1), symbols), |m.dates|)
    decreases |symbols|
  {
    if symbols != [] {
      hide RunInv, LiquidateOne;
      LiquidateOneInv(m, p, b, symbols[0]);
      LiquidateAllInv(m, p, LiquidateOne(b, p, m.Day(|m.dates| - 1), symbols[0]), symbols[1..]);
    }
  }

  lemma LiquidateOneInv(m: Market, p: TradingParameters, b: Book, symbol: string)
    requires m.Valid() && p.Valid() && 0 < |m.dates| && RunInv(m, p, b, |m.dates|)
    ensures RunInv(m, p, LiquidateOne(b, p, m.Day(|m.dates| - 1), symbol), |m.dates|)
  {
    hide EntryPrice, ExitPrice, Quantize, TradeOk, Ordered;
    var d := |m.dates| - 1;
    var a := LiquidateOne(b, p, m.Day(d), symbol);
    if symbol in b.positions && b.positions[symbol].entryDate == m.dates[d] && symbol in m.Bars(d) {
      var pos := b.positions[symbol];
      SameDayExitOk(m, p, symbol, pos);
      var x := Exit(m.dates[d], EndOfPeriod, m.Bars(d)[symbol].close, pos.holdingDays);
      TradeOfFields(p, pos, x);
      CloseOrdered(b.trades, b.positions, symbol, TradeOf(p, pos, x));
      assert a.trades == b.trades + [TradeOf(p, pos, x)];
    }
  }

  /** Closing marks change neither trades nor what is tracked. */
  lemma MarkInv(m: Market, p: PortfolioParameters, b: Book, d: int)
    requires p.Valid() && 0 <= d < |m.dates| && RunInv(m, p.trading, b, d + 1)
    ensures RunInv(m, p.trading, MarkDay(b, p, m.Day(d)), d + 1)
  {
    hide EntryPrice, Quantize, TradeOk;
  }

  lemma ExitsInv(p: PortfolioParameters, m: Market, b: Book, d: int)
    requires m.Valid() && 0 <= d < |m.dates| && RunInv(m, p.trading, b, d)
    ensures DayInv(m, p.trading, AfterExits(b, p, m.Day(d)), d, {})
  {
    hide RunInv, DayInv, ExitAll;
    var keys := SortedKeys(b.positions.Keys);
    SortedKeysDistinct(b.positions.Keys);
    var todo := set s | s in keys;
    assert todo == b.positions.Keys;
    DayStarts(m, p.trading, b, d, todo);
    ExitAllInv(m, p.trading, b, d, keys, todo);
  }

  lemma DayTrades(p: PortfolioParameters, m: Market, b: Book, d: int, events: seq<Signal>)
    requires p.Valid() && m.Valid() && 0 <= d < |m.dates| && RunInv(m, p.trading, b, d)
    requires HasBars(events, m.Bars(d)) && EnteredOn(m, events, d)
    ensures RunInv(m, p.trading, Day(b, p, m.Day(d), events), d + 1)
  {
    hide RunInv, DayInv, AfterExits, EnterAll, LiquidateAll, MarkDay, EnteredOn, HasBars;
    var t := m.Day(d);
    ExitsInv(p, m, b, d);
    var b1 := AfterExits(b, p, t);
    EnterAllInv(m, p, b1, d, events);
    var b2 := EnterAll(b1, p, t, events);
    DayEnds(m, p.trading, b2, d);
    if t.final { LiquidateAllInv(m, p.trading, b2, SortedKeys(b2.positions.Keys)); }
    MarkInv(m, p, AfterLiquidation(b2, p, t), d);
  }

  lemma EventsEntered(m: Market, signals: seq<Signal>, d: int)
    requires 0 <= d < |m.dates|
    ensures EnteredOn(m, Events(m, signals, d), d)
  {
    hide FindEntry;
  }

  lemma StartInv(p: PortfolioParameters, m: Market, signals: seq<Signal>)
    requires p.Valid()
    ensures RunInv(m, p.trading, Run(p, m, signals, 0), 0)
  {}

  lemma {:induction false} RunTrades(p: PortfolioParameters, m: Market, signals: seq<Signal>, k: int)
    requires p.Valid() && m.Valid() && 0 <= k <= |m.dates|
    ensures RunInv(m, p.trading, Run(p, m, signals, k), k)
    decreases k
  {
    hide Day, RunInv, EnteredOn, NoEntryCount;
    if k == 0 {
      StartInv(p, m, signals);
    } else {
      RunTrades(p, m, signals, k - 1);
      EventsEntered(m, signals, k - 1);
      DayTrades(p, m, Run(p, m, signals, k - 1), k - 1, Events(m, signals, k - 1));
    }
  }

  lemma DayStarts(m: Market, p: TradingParameters, b: Book, d: int, todo: set<string>)
    requires m.Valid() && 0 <= d < |m.dates| && RunInv(m, p, b, d) && todo == b.positions.Keys
    ensures DayInv(m, p, b, d, todo)
  {
    hide Tracked, EntryPrice, Ordered, MatchesAlone, QuietLastDay;
    forall s | s in b.positions ensures b.positions[s].entryDate <= m.dates[d] {
      TrackedFacts(m, p, s, b.positions[s], d);
    }
  }

  lemma DayEnds(m: Market, p: TradingParameters, b: Book, d: int)
    requires 0 <= d < |m.dates| && DayInv(m, p, b, d, {})
    ensures RunInv(m, p, b, d + 1)
  {
    hide Tracked, Ordered, TradeOk;
  }

  // ---- the results ----

  /** All bars of one symbol in the calendar: what the simulator is given for a signal. */
  ghost function SymbolBars(m: Market, symbol: string, k: int): seq<DailyBar>
    requires 0 <= k <= |m.dates|
    decreases k
  {
    if k == 0 then []
    else
      var h := SymbolBars(m, symbol, k - 1);
      if symbol in m.Bars(k - 1) then h + [DailyBar(m.dates[k - 1], m.Bars(k - 1)[symbol])] else h
  }

  lemma {:induction false} HistoryIsFilter(m: Market, s: Signal, endDate: Date, k: int)
    requires 0 <= k <= |m.dates| && forall i :: 0 <= i < |m.dates| ==> m.dates[i] <= endDate
    ensures Filter(SymbolBars(m, s.symbol, k), Usable(s, endDate)) == History(m, s, k)
    decreases k
  {
    if k > 0 {
      HistoryIsFilter(m, s, endDate, k - 1);
      if s.symbol in m.Bars(k - 1) {
        var x := DailyBar(m.dates[k - 1], m.Bars(k - 1)[s.symbol]);
        FilterSnoc(SymbolBars(m, s.symbol, k - 1), x, Usable(s, endDate));
      }
    }
  }

  lemma EligibleIsHistory(m: Market, s: Signal, endDate: Date)
    requires m.Valid() && forall i :: 0 <= i < |m.dates| ==> m.dates[i] <= endDate
    ensures Eligible(SymbolBars(m, s.symbol, |m.dates|), s, endDate) == History(m, s, |m.dates|)
  {
    HistoryIsFilter(m, s, endDate, |m.dates|);
    HistoryDates(m, s, |m.dates|);
    SortOfSorted(History(m, s, |m.dates|), DateLeq);
  }

  /** `t` and the simulated trade agree on everything that does not depend on the size. */
  ghost predicate SameTiming(t: Trade, u: Trade) {
    && t.symbol == u.symbol && t.signalDate == u.signalDate
    && t.entryDate == u.entryDate && t.entryPrice == u.entryPrice
    && t.exitDate == u.exitDate && t.exitPrice == u.exitPrice
    && t.reason == u.reason && t.holdingDays == u.holdingDays
  }

  /** Agreeing with the simulated trade is agreeing with the lone exit. */
  lemma MatchingIsSameTiming(p: TradingParameters, m: Market, endDate: Date, t: Trade)
    requires m.Valid() && TradeOk(m, p, t) && forall i :: 0 <= i < |m.dates| ==> m.dates[i] <= endDate
    ensures var r := Simulation(SymbolBars(m, t.symbol, |m.dates|), SignalOf(t), endDate, p);
      && (r.Traded? || r == Rejected(InsufficientPositionSize))
      && (r.Traded? ==> (SameTiming(t, r.trade) <==> MatchesAlone(m, p, t)))
  {
    hide EntryPrice, ExitPrice, Quantize, LoneExit, Eligible, WholeShares;
    EligibleIsHistory(m, SignalOf(t), endDate);
  }

  /** The simulator enters the signal of `t` as well, unless its own position size does not buy a share;
      the two trades agree if `t` closed before the last day, and otherwise exactly on a quiet last day. */
  ghost predicate SimulatedAlike(m: Market, p: TradingParameters, endDate: Date, t: Trade) {
    && m.dates != []
    && var r := Simulation(SymbolBars(m, t.symbol, |m.dates|), SignalOf(t), endDate, p);
       && (r.Traded? || r == Rejected(InsufficientPositionSize))
       && (r.Traded? ==> (SameTiming(t, r.trade) <==> t.exitDate < m.dates[|m.dates| - 1] || QuietLastDay(m, p, t)))
  }

  /** A trade closed before the last calendar day is what the simulator computes for its signal alone,
      whatever else the portfolio held; one closed on the last day is so exactly when that day is quiet. */
  lemma TradesMatchSimulation(p: PortfolioParameters, m: Market, signals: seq<Signal>, endDate: Date)
    requires p.Valid() && m.Valid() && forall i :: 0 <= i < |m.dates| ==> m.dates[i] <= endDate
    ensures forall t :: t in Run(p, m, signals, |m.dates|).trades ==> SimulatedAlike(m, p.trading, endDate, t)
  {
    RunTrades(p, m, signals, |m.dates|);
    hide Run, Simulation, MatchesAlone, QuietLastDay, EntryPrice;
    forall t | t in Run(p, m, signals, |m.dates|).trades ensures SimulatedAlike(m, p.trading, endDate, t) {
      MatchingIsSameTiming(p.trading, m, endDate, t);
    }
  }

  /** The stored amounts of every trade are those of its entry bar's open, its quantity and its sale price. */
  lemma TradesSettle(p: PortfolioParameters, m: Market, signals: seq<Signal>)
    requires p.Valid() && m.Valid()
    ensures forall t :: t in Run(p, m, signals, |m.dates|).trades ==> AmountsSettle(m, p.trading, t)
  {
    RunTrades(p, m, signals, |m.dates|);
    hide Run, MatchesAlone, QuietLastDay, EntryPrice, Settles;
  }

  /** Every trade is causal and bounded in age, and trades of one symbol follow one another. */
  lemma TradesWellOrdered(p: PortfolioParameters, m: Market, signals: seq<Signal>)
    requires p.Valid() && m.Valid()
    ensures var trades := Run(p, m, signals, |m.dates|).trades;
      && (forall t :: t in trades ==>
            t.signalDate < t.entryDate <= t.exitDate && 1 <= t.quantity &&
              0 <= t.holdingDays <= p.trading.maxHoldingDays)
      && (forall i, j :: 0 <= i < j < |trades| && trades[i].symbol == trades[j].symbol ==>
            trades[i].exitDate <= trades[j].entryDate)
      && (forall i, j :: 0 <= i < j < |trades| ==> SignalOf(trades[i]) != SignalOf(trades[j]))
  {
    RunTrades(p, m, signals, |m.dates|);
    hide Run, MatchesAlone, QuietLastDay, EntryPrice;
    var trades := Run(p, m, signals, |m.dates|).trades;
    forall i, j | 0 <= i < j < |trades| ensures SignalOf(trades[i]) != SignalOf(trades[j]) {
      assert TradeOk(m, p.trading, trades[i]) && TradeOk(m, p.trading, trades[j]);
    }
  }
}
