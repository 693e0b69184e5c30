/** No look-ahead: the book after a day depends only on what was known up to that day. */
module PortfolioCausality {
  import opened Dates
  import opened Ordering
  import opened Decimals
  import opened Backtest
  import opened Sizing
  import opened Portfolio

  /** The two bar tables tell the same about the symbols in `known`. */
  ghost predicate AgreeOn(x: map<string, Bar>, y: map<string, Bar>, known: set<string>) {
    forall s :: s in known ==> (s in x <==> s in y) && (s in x ==> x[s] == y[s])
  }

  /** Equal books, apart from the count of signals that will never get an entry bar. */
  ghost predicate Same(a: Book, b: Book) {
    && a.cash == b.cash && a.realized == b.realized && a.positions == b.positions
    && a.trades == b.trades && a.snapshots == b.snapshots
    && a.peak == b.peak && a.maximumOpen == b.maximumOpen && a.utilization == b.utilization
    && SameSkips(a.skips, b.skips)
  }

  ghost predicate SameSkips(a: Skips, b: Skips) {
    forall r :: r != SkipReason.NoEntryBar ==> SkipCount(a, r) == SkipCount(b, r)
  }

  lemma SkipSame(a: Book, b: Book, reason: SkipReason)
    requires Same(a, b)
    ensures Same(Skip(a, reason), Skip(b, reason))
  {
    forall r | r != SkipReason.NoEntryBar
      ensures SkipCount(Bump(a.skips, reason), r) == SkipCount(Bump(b.skips, reason), r)
    {
      assert SkipCount(a.skips, r) == SkipCount(b.skips, r);
      assert reason != SkipReason.NoEntryBar ==> SkipCount(a.skips, reason) == SkipCount(b.skips, reason);
    }
  }

  ghost predicate SameDay(t: Today, u: Today, known: set<string>) {
    t.date == u.date && t.final == u.final && AgreeOn(t.bars, u.bars, known)
  }

  lemma {:induction false} ExitAllSame(a: Book, b: Book, p: TradingParameters, t: Today, u: Today,
                                       known: set<string>, symbols: seq<string>)
    requires Same(a, b) && SameDay(t, u, known) && a.positions.Keys <= known
    ensures Same(ExitAll(a, p, t, symbols), ExitAll(b, p, u, symbols))
    ensures ExitAll(a, p, t, symbols).positions.Keys <= known
    decreases |symbols|
  {
    hide Quantize, ExactFill, ExitTerms, Proceeds, SameSkips;
    if symbols != [] {
      var a', b' := ExitOne(a, p, t, symbols[0]), ExitOne(b, p, u, symbols[0]);
      assert a'.positions.Keys <= a.positions.Keys;
      ExitAllSame(a', b', p, t, u, known, symbols[1..]);
    }
  }

  lemma SizingSame(a: Book, b: Book, p: PortfolioParameters, price: real)
    requires p.Valid() && Same(a, b)
    ensures SizeEntry(a, p, price) == SizeEntry(b, p, price)
  {
    assert Equity(a) == Equity(b);
    hide Affordable, Equity, Target;
  }

  lemma EnterOneSame(a: Book, b: Book, p: PortfolioParameters, t: Today, u: Today, known: set<string>, s: Signal)
    requires p.Valid() && Same(a, b) && SameDay(t, u, known) && a.positions.Keys <= known
    requires s.symbol in known && s.symbol in t.bars
    ensures Same(EnterOne(a, p, t, s), EnterOne(b, p, u, s))
    ensures EnterOne(a, p, t, s).positions.Keys <= known
  {
    var price := EntryPrice(t.bars[s.symbol].open, p.trading);
    hide EntryPrice, BuyCommission, Cost, SizeEntry, SameSkips;
    SizingSame(a, b, p, price);
    SkipSame(a, b, DuplicateSymbol);
    SkipSame(a, b, MaxOpenPositions);
    SkipSame(a, b, InsufficientCash);
    if SizeEntry(a, p, price).Refuse? { SkipSame(a, b, SizeEntry(a, p, price).reason); }
  }

  ghost predicate AllKnown(events: seq<Signal>, known: set<string>) { forall s :: s in events ==> s.symbol in known }

  lemma {:induction false} EnterAllSame(a: Book, b: Book, p: PortfolioParameters, t: Today, u: Today,
                                        known: set<string>, events: seq<Signal>)
    requires p.Valid() && Same(a, b) && SameDay(t, u, known) && a.positions.Keys <= known
    requires AllKnown(events, known) && HasBars(events, t.bars) && HasBars(events, u.bars)
    ensures Same(EnterAll(a, p, t, events), EnterAll(b, p, u, events))
    ensures EnterAll(a, p, t, events).positions.Keys <= known
    decreases |events|
  {
    hide EnterOne, Same;
    if events != [] {
      EnterOneSame(a, b, p, t, u, known, events[0]);
      assert forall s :: s in events[1..] ==> s in events;
      EnterAllSame(EnterOne(a, p, t, events[0]), EnterOne(b, p, u, events[0]), p, t, u, known, events[1..]);
    }
  }

  lemma MarkSame(a: Book, b: Book, p: PortfolioParameters, t: Today, u: Today, known: set<string>)
    requires p.Valid() && Same(a, b) && SameDay(t, u, known) && a.positions.Keys <= known
    ensures Same(MarkDay(a, p, t), MarkDay(b, p, u))
    ensures MarkDay(a, p, t).positions.Keys <= known
  {
    hide Snap, Share, SameSkips;
    assert Marked(a.positions, t.bars) == Marked(b.positions, u.bars);
  }

  /** An ordinary day keeps two books the same if its bars agree on the symbols that matter. */
  lemma DaySame(a: Book, b: Book, p: PortfolioParameters, t: Today, u: Today, known: set<string>, events: seq<Signal>)
    requires p.Valid() && Same(a, b) && SameDay(t, u, known) && !t.final && a.positions.Keys <= known
    requires AllKnown(events, known) && HasBars(events, t.bars) && HasBars(events, u.bars)
    ensures Same(Day(a, p, t, events), Day(b, p, u, events))
    ensures Day(a, p, t, events).positions.Keys <= known
  {
    var keys := SortedKeys(a.positions.Keys);
    assert a.positions == b.positions;
    hide Same, ExitAll, EnterAll, MarkDay;
    ExitAllSame(a, b, p.trading, t, u, known, keys);
    var a1, b1 := AfterExits(a, p, t), AfterExits(b, p, u);
    EnterAllSame(a1, b1, p, t, u, known, events);
    MarkSame(EnterAll(a1, p, t, events), EnterAll(b1, p, u, events), p, t, u, known);
  }

  // ---- whole runs ----

  function Before(day: Date): Signal -> bool { (s: Signal) => s.date < day }

  /** The signals dated before `day`: the only ones that can be entered up to `day`. */
  function Early(signals: seq<Signal>, day: Date): seq<Signal> { Filter(signals, Before(day)) }

  function Symbols(signals: seq<Signal>): set<string> { set s | s in signals :: s.symbol }

  /** Two inputs agree on the first `k` days, none of which is the last day of either. */
  ghost predicate AgreeUpTo(m: Market, n: Market, x: seq<Signal>, y: seq<Signal>, k: int) {
    && 0 < k < |m.dates| && k < |n.dates|
    && (forall i :: 0 <= i < k ==> m.dates[i] == n.dates[i])
    && Early(x, m.dates[k - 1]) == Early(y, m.dates[k - 1])
    && (forall i :: 0 <= i < k ==> AgreeOn(m.Bars(i), n.Bars(i), Symbols(Early(x, m.dates[k - 1]))))
  }

  /** Where the calendars and bars agree, an entry found in one market is found in the other. */
  lemma {:induction false} EntryAgrees(m: Market, n: Market, s: Signal, i: int, k: int)
    requires 0 <= i <= k <= |m.dates| && k <= |n.dates|
    requires forall j :: 0 <= j < k ==> m.dates[j] == n.dates[j] && AgreeOn(m.Bars(j), n.Bars(j), {s.symbol})
    requires FindEntry(m, s, i) != MissingDay && FindEntry(n, s, i) != MissingDay
    requires FindEntry(m, s, i).At? && FindEntry(m, s, i).index < k
    ensures FindEntry(n, s, i) == FindEntry(m, s, i)
    decreases k - i
  {
    if i < k {
      assert AgreeOn(m.Bars(i), n.Bars(i), {s.symbol});
      assert s.symbol in {s.symbol};
      if m.dates[i] <= s.date || (m.dates[i] in m.byDate && s.symbol !in m.byDate[m.dates[i]]) {
        EntryAgrees(m, n, s, i + 1, k);
      }
    }
  }

  lemma {:induction false} FilterOfFilter(x: seq<Signal>, p: Signal -> bool, q: Signal -> bool)
    requires forall s :: s in x && p(s) ==> q(s)
    ensures Filter(x, p) == Filter(Filter(x, q), p)
  {
    if x != [] {
      FilterOfFilter(x[1..], p, q);
      var rest := Filter(x[1..], q);
      if q(x[0]) { assert ([x[0]] + rest)[1..] == rest; }
    }
  }

  /** Events of a day come from early signals alone. */
  lemma EventsFromEarly(m: Market, x: seq<Signal>, d: int, k: int)
    requires m.Valid() && 0 <= d < k <= |m.dates|
    ensures Events(m, x, d) == Filter(Early(x, m.dates[k - 1]), HasEntry(m, At(d)))
    ensures forall s :: s in Events(m, x, d) ==> s in Early(x, m.dates[k - 1])
  {
    hide FindEntry;
    forall s | s in x && HasEntry(m, At(d))(s) ensures Before(m.dates[k - 1])(s) {
      assert m.dates[d] <= m.dates[k - 1];
    }
    FilterOfFilter(x, HasEntry(m, At(d)), Before(m.dates[k - 1]));
  }

  lemma SameEntryDay(m: Market, n: Market, x: seq<Signal>, y: seq<Signal>, s: Signal, d: int, k: int)
    requires AgreeUpTo(m, n, x, y, k) && 0 <= d < k && Looked(m, x) && Looked(n, y)
    requires s in Early(x, m.dates[k - 1])
    ensures FindEntry(m, s, 0) == At(d) <==> FindEntry(n, s, 0) == At(d)
  {
    hide FindEntry;
    assert s in x && s in y;
    assert s.symbol in Symbols(Early(x, m.dates[k - 1]));
    forall j | 0 <= j < k
      ensures AgreeOn(m.Bars(j), n.Bars(j), {s.symbol}) && AgreeOn(n.Bars(j), m.Bars(j), {s.symbol}) {}
    if FindEntry(m, s, 0) == At(d) { EntryAgrees(m, n, s, 0, k); }
    if FindEntry(n, s, 0) == At(d) { EntryAgrees(n, m, s, 0, k); }
  }

  lemma EventsAgree(m: Market, n: Market, x: seq<Signal>, y: seq<Signal>, d: int, k: int)
    requires m.Valid() && n.Valid() && AgreeUpTo(m, n, x, y, k) && 0 <= d < k && Looked(m, x) && Looked(n, y)
    ensures Events(m, x, d) == Events(n, y, d)
    ensures AllKnown(Events(m, x, d), Symbols(Early(x, m.dates[k - 1])))
  {
    hide FindEntry;
    var early := Early(x, m.dates[k - 1]);
    EventsFromEarly(m, x, d, k);
    EventsFromEarly(n, y, d, k);
    forall s | s in early ensures HasEntry(m, At(d))(s) == HasEntry(n, At(d))(s) {
      SameEntryDay(m, n, x, y, s, d, k);
    }
    hide Early, Looked, AgreeUpTo;
    FilterCongruent(early, HasEntry(m, At(d)), HasEntry(n, At(d)));
  }

  lemma StartSame(p: PortfolioParameters, m: Market, n: Market, x: seq<Signal>, y: seq<Signal>)
    requires p.Valid()
    ensures Same(Run(p, m, x, 0), Run(p, n, y, 0)) && Run(p, m, x, 0).positions == map[]
  {}

  lemma {:induction false} RunsAgree(p: PortfolioParameters, m: Market, n: Market, x: seq<Signal>, y: seq<Signal>,
                                     j: int, k: int)
    requires p.Valid() && m.Valid() && n.Valid() && Looked(m, x) && Looked(n, y)
    requires AgreeUpTo(m, n, x, y, k) && 0 <= j <= k
    ensures Same(Run(p, m, x, j), Run(p, n, y, j))
    ensures Run(p, m, x, j).positions.Keys <= Symbols(Early(x, m.dates[k - 1]))
    decreases j
  {
    hide Same, Day, Looked, Early, FindEntry, NoEntryCount;
    if j == 0 {
      StartSame(p, m, n, x, y);
    } else {
      RunsAgree(p, m, n, x, y, j - 1, k);
      EventsAgree(m, n, x, y, j - 1, k);
      var known := Symbols(Early(x, m.dates[k - 1]));
      assert AgreeOn(m.Bars(j - 1), n.Bars(j - 1), known);
      DaySame(Run(p, m, x, j - 1), Run(p, n, y, j - 1), p, m.Day(j - 1), n.Day(j - 1), known, Events(m, x, j - 1));
    }
  }

  /** Two runs whose calendars, bars and signals agree up to a day that is the last of neither have the
      same cash, positions, trades and snapshots after that day, whatever comes later. */
  lemma NoLookAhead(p: PortfolioParameters, m: Market, n: Market, x: seq<Signal>, y: seq<Signal>, k: int)
    requires p.Valid() && m.Valid() && n.Valid() && Looked(m, x) && Looked(n, y)
    requires AgreeUpTo(m, n, x, y, k)
    ensures var a, b := Run(p, m, x, k), Run(p, n, y, k);
      && a.cash == b.cash && a.positions == b.positions && a.trades == b.trades && a.snapshots == b.snapshots
      && a.realized == b.realized && a.peak == b.peak && a.utilization == b.utilization
      && SameSkips(a.skips, b.skips)
  {
    RunsAgree(p, m, n, x, y, k, k);
    hide Run;
  }

  // ---- inside one day ----

  /** The tables differ at most in closing prices. */
  ghost predicate SameButCloses(x: map<string, Bar>, y: map<string, Bar>) {
    x.Keys == y.Keys && forall s :: s in x ==> x[s].(close := 0.0) == y[s].(close := 0.0)
  }

  /** Every held symbol whose close differs survives the day. */
  ghost predicate MovedSurvive(b: Book, p: TradingParameters, x: map<string, Bar>, y: map<string, Bar>,
                               symbols: seq<string>) {
    forall s :: s in symbols && s in b.positions && s in x && s in y && x[s] != y[s] ==>
      ExitTerms(b.positions[s].entryPrice, b.positions[s].holdingDays + 1, x[s], p, false).None?
  }

  lemma {:induction false} ExitsIgnoreCloses(b: Book, p: TradingParameters, t: Today, u: Today, symbols: seq<string>)
    requires t.date == u.date && !t.final && !u.final && SameButCloses(t.bars, u.bars)
    requires MovedSurvive(b, p, t.bars, u.bars, symbols)
    requires forall i, j :: 0 <= i < j < |symbols| ==> symbols[i] != symbols[j]
    ensures ExitAll(b, p, t, symbols) == ExitAll(b, p, u, symbols)
    decreases |symbols|
  {
    if symbols != [] {
      var s := symbols[0];
      var a := ExitOne(b, p, t, s);
      ExitIgnoresClose(b, p, t, u, s);
      assert MovedSurvive(a, p, t.bars, u.bars, symbols[1..]) by {
        hide ExitTerms, Quantize, ExactFill;
        assert forall x :: x in symbols[1..] ==> x in symbols && x != s;
        assert forall x :: x != s && x in a.positions ==> x in b.positions && a.positions[x] == b.positions[x];
      }
      hide ExitOne, MovedSurvive, SameButCloses;
      ExitsIgnoreCloses(a, p, t, u, symbols[1..]);
    }
  }

  lemma ExitIgnoresClose(b: Book, p: TradingParameters, t: Today, u: Today, s: string)
    requires t.date == u.date && !t.final && !u.final && SameButCloses(t.bars, u.bars)
    requires MovedSurvive(b, p, t.bars, u.bars, [s])
    ensures ExitOne(b, p, t, s) == ExitOne(b, p, u, s)
  {
    hide Quantize, ExactFill, Proceeds;
    if s in b.positions && s in t.bars && t.bars[s] != u.bars[s] {
      assert s in [s];
      var pos := b.positions[s];
      NoTermsIgnoresClose(pos.entryPrice, pos.holdingDays + 1, t.bars[s], u.bars[s], p);
    }
  }

  lemma NoTermsIgnoresClose(entry: real, holdingDays: int, x: Bar, y: Bar, p: TradingParameters)
    requires x.(close := 0.0) == y.(close := 0.0) && ExitTerms(entry, holdingDays, x, p, false).None?
    ensures ExitTerms(entry, holdingDays, y, p, false).None?
  {
    assert x.open == y.open && x.high == y.high && x.low == y.low by {
      assert x.(close := 0.0).open == y.(close := 0.0).open;
      assert x.(close := 0.0).high == y.(close := 0.0).high;
      assert x.(close := 0.0).low == y.(close := 0.0).low;
    }
  }

  lemma {:induction false} EntriesIgnoreCloses(b: Book, p: PortfolioParameters, t: Today, u: Today, events: seq<Signal>)
    requires p.Valid() && t.date == u.date && SameButCloses(t.bars, u.bars)
    requires HasBars(events, t.bars)
    ensures HasBars(events, u.bars) && EnterAll(b, p, t, events) == EnterAll(b, p, u, events)
    decreases |events|
  {
    if events != [] {
      var s := events[0];
      assert t.bars[s.symbol].(close := 0.0).open == u.bars[s.symbol].(close := 0.0).open;
      EntriesIgnoreCloses(EnterOne(b, p, t, s), p, t, u, events[1..]);
    }
  }

  /** Today's close of a position that survives today changes no entry of today, nor its size. */
  lemma ClosesDoNotSizeEntries(b: Book, p: PortfolioParameters, t: Today, u: Today, events: seq<Signal>)
    requires p.Valid() && t.date == u.date && !t.final && !u.final && SameButCloses(t.bars, u.bars)
    requires MovedSurvive(b, p.trading, t.bars, u.bars, SortedKeys(b.positions.Keys))
    requires HasBars(events, t.bars)
    ensures HasBars(events, u.bars)
    ensures EnterAll(AfterExits(b, p, t), p, t, events) == EnterAll(AfterExits(b, p, u), p, u, events)
  {
    SortedKeysDistinct(b.positions.Keys);
    ExitsIgnoreCloses(b, p.trading, t, u, SortedKeys(b.positions.Keys));
    hide ExitAll;
    EntriesIgnoreCloses(AfterExits(b, p, t), p, t, u, events);
  }
}
