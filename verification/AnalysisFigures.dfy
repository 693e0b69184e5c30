/** The figures of the analysis of stored trades, each in terms of the trades themselves. */
module AnalysisFigures {
  import opened Dates
  import opened Options
  import opened Ordering
  import opened Decimals
  import opened Drawdown
  import opened Backtest
  import opened Analysis

  // ---- statistics ----

  /** The trades that satisfy `p`, by position. */
  ghost function Where(s: Trades, p: Realized -> bool): set<int> { set i | 0 <= i < |s| && p(s[i]) }

  lemma WhereSnoc(s: Trades, x: Realized, p: Realized -> bool)
    ensures |Where(s + [x], p)| == |Where(s, p)| + if p(x) then 1 else 0
  {
    var n := |s|;
    forall i ensures i in Where(s + [x], p) <==> i in Where(s, p) || (p(x) && i == n) {}
    assert Where(s + [x], p) == Where(s, p) + if p(x) then {n} else {};
  }

  lemma {:induction false} FilterCounts(s: Trades, p: Realized -> bool)
    ensures |Filter(s, p)| == |Where(s, p)|
    decreases |s|
  {
    if s != [] {
      var r, x := s[..|s| - 1], s[|s| - 1];
      assert s == r + [x];
      FilterCounts(r, p);
      FilterSnoc(r, x, p);
      WhereSnoc(r, x, p);
    }
  }

  /** `x` is the profit of a trade of `s`, and no trade of `s` has a smaller one. */
  ghost predicate IsLeastNet(x: real, s: Trades) {
    (exists t :: t in s && Net(t) == x) && forall t :: t in s ==> x <= Net(t)
  }

  ghost predicate IsMostNet(x: real, s: Trades) {
    (exists t :: t in s && Net(t) == x) && forall t :: t in s ==> Net(t) <= x
  }

  lemma {:induction false} SmallestMeaning(s: Trades)
    requires s != []
    ensures IsLeastNet(Smallest(s), s)
  {
    assert s == [s[0]] + s[1..];
    if |s| == 1 {
      assert s[0] in s;
    } else {
      SmallestMeaning(s[1..]);
      var t :| t in s[1..] && Net(t) == Smallest(s[1..]);
      var u := if Net(s[0]) <= Net(t) then s[0] else t;
      assert u in s && Net(u) == Smallest(s);
    }
  }

  lemma {:induction false} LargestMeaning(s: Trades)
    requires s != []
    ensures IsMostNet(Largest(s), s)
  {
    assert s == [s[0]] + s[1..];
    if |s| == 1 {
      assert s[0] in s;
    } else {
      LargestMeaning(s[1..]);
      var t :| t in s[1..] && Net(t) == Largest(s[1..]);
      var u := if Net(s[0]) >= Net(t) then s[0] else t;
      assert u in s && Net(u) == Largest(s);
    }
  }

  function Gained(t: Realized): real { if 0.0 < t.trade.net then t.trade.net else 0.0 }

  function Lost(t: Realized): real { if t.trade.net < 0.0 then t.trade.net else 0.0 }

  function DaysHeld(t: Realized): real { t.trade.holdingDays as real }

  lemma HoldingSums(s: Trades)
    ensures SumOf(s, HoldingDays) == SumOf(s, DaysHeld)
  {
    SumOfCongruent(s, HoldingDays, DaysHeld);
  }

  lemma {:induction false} GrossSums(s: Trades)
    ensures SumOf(Filter(s, Win), Net) == SumOf(s, Gained) && SumOf(Filter(s, Loss), Net) == SumOf(s, Lost)
  {
    if s != [] {
      GrossSums(s[1..]);
      SumOfCons(s[0], Filter(s[1..], Win));
      SumOfCons(s[0], Filter(s[1..], Loss));
    }
  }

  /** The mean of `n` values that add up to `sum`, if there are any. */
  ghost predicate IsMean(x: Option<real>, sum: real, n: int) {
    (x.Some? <==> n != 0) && (x.Some? ==> x.value * n as real == sum)
  }

  lemma MeanMeaning(sum: real, n: int)
    ensures IsMean(Mean(sum, n), sum, n)
  {
    if n != 0 { QuotientTimes(sum, n as real); }
  }

  /** The statistics of any trades: counts, gross and net sums, means, and the extreme profits. */
  ghost predicate StatsAre(r: Stats, s: Trades) {
    && r.count == |s|
    && r.wins == |set i | 0 <= i < |s| && 0.0 < s[i].trade.net|
    && r.losses == |set i | 0 <= i < |s| && s[i].trade.net < 0.0|
    && r.breakeven == r.count - r.wins - r.losses
    && r.grossProfit == SumOf(s, Gained) && r.grossLoss == SumOf(s, Lost) && r.net == SumOf(s, Net)
    && IsMean(r.winRate, r.wins as real, |s|) && IsMean(r.averageNet, r.net, |s|)
    && IsMean(r.averageHolding, SumOf(s, DaysHeld), |s|)
    && (r.largestWin.Some? <==> 0 < r.wins) && (r.largestWin.Some? ==> IsMostNet(r.largestWin.value, s))
    && (r.largestLoss.Some? <==> 0 < r.losses) && (r.largestLoss.Some? ==> IsLeastNet(r.largestLoss.value, s))
  }

  lemma StatsMeaning(s: Trades)
    ensures StatsAre(StatsOf(s), s)
  {
    var wins, losses := Filter(s, Win), Filter(s, Loss);
    CountsMeaning(s);
    GrossSums(s);
    HoldingSums(s);
    MeanMeaning(|wins| as real, |s|);
    MeanMeaning(SumOf(s, Net), |s|);
    MeanMeaning(SumOf(s, HoldingDays), |s|);
    ExtremesMeaning(s);
    hide Mean, IsMean, SumOf, Largest, Smallest, IsMostNet, IsLeastNet, Filter;
  }

  lemma CountsMeaning(s: Trades)
    ensures |Filter(s, Win)| == |set i | 0 <= i < |s| && 0.0 < s[i].trade.net|
    ensures |Filter(s, Loss)| == |set i | 0 <= i < |s| && s[i].trade.net < 0.0|
  {
    FilterCounts(s, Win);
    FilterCounts(s, Loss);
    hide Filter;
    assert Where(s, Win) == set i | 0 <= i < |s| && 0.0 < s[i].trade.net;
    assert Where(s, Loss) == set i | 0 <= i < |s| && s[i].trade.net < 0.0;
  }

  lemma ExtremesMeaning(s: Trades)
    ensures var wins, losses := Filter(s, Win), Filter(s, Loss);
      (wins != [] ==> IsMostNet(Largest(wins), s)) && (losses != [] ==> IsLeastNet(Smallest(losses), s))
  {
    var wins, losses := Filter(s, Win), Filter(s, Loss);
    if wins != [] { LargestMeaning(wins); }
    if losses != [] { SmallestMeaning(losses); }
    hide Largest, Smallest;
  }

  /** The summary: averages per winner and per loser, and the profit factor where anything was lost. */
  lemma SummaryMeaning(s: Trades, month: Date -> string)
    ensures var r := ReportOf(s, month);
      && StatsAre(r.stats, s)
      && IsMean(r.averageWin, r.stats.grossProfit, r.stats.wins)
      && IsMean(r.averageLoss, r.stats.grossLoss, r.stats.losses)
      && (r.profitFactor.Some? <==> 0 < r.stats.losses)
      && (r.profitFactor.Some? ==> r.profitFactor.value * -r.stats.grossLoss == r.stats.grossProfit)
  {
    var stats := StatsOf(s);
    StatsMeaning(s);
    MeanMeaning(stats.grossProfit, stats.wins);
    MeanMeaning(stats.grossLoss, stats.losses);
    LossesLose(s);
    hide StatsOf, StatsAre, Mean, IsMean, SymbolRows, ReasonRows, RowsByKey, Streak, Deepest, PointOf;
    if stats.grossLoss != 0.0 { QuotientTimes(stats.grossProfit, Abs(stats.grossLoss)); }
  }

  lemma {:induction false} LossesLose(s: Trades)
    ensures var r := StatsOf(s); 0 <= r.losses && r.grossLoss <= 0.0 && (r.grossLoss == 0.0 <==> r.losses == 0)
  {
    NegativeSum(Filter(s, Loss));
    hide Largest, Smallest;
  }

  lemma {:induction false} NegativeSum(s: Trades)
    requires forall t :: t in s ==> Net(t) < 0.0
    ensures SumOf(s, Net) <= 0.0 && (SumOf(s, Net) == 0.0 <==> s == [])
  {
    if s != [] {
      assert s[0] in s;
      NegativeSum(s[1..]);
    }
  }

  // ---- the points ----

  /** `x` is the largest of zero and the first `n` cumulative profits. */
  ghost predicate IsPeak(x: real, s: Trades, n: int)
    requires 0 <= n <= |s|
  {
    && (forall j :: 0 <= j <= n ==> SumOf(s[..j], Net) <= x)
    && exists j :: 0 <= j <= n && SumOf(s[..j], Net) == x
  }

  lemma {:induction false} CurveMeaning(s: Trades, j: int)
    requires 0 <= j <= |s|
    ensures Curve(s)[j] == SumOf(s[..j], Net)
    decreases |s|
  {
    if j == |s| {
      CurveEndsAtNet(s);
      assert s[..j] == s;
    } else {
      CurveMeaning(s[..|s| - 1], j);
      assert s[..|s| - 1][..j] == s[..j];
    }
  }

  /** Every point carries its trade, the profit so far, the highest profit so far, and how far below it
      the profit is, also relative to it where it is positive. */
  lemma PointMeaning(s: Trades, month: Date -> string, i: int)
    requires 0 <= i < |s|
    ensures |ReportOf(s, month).points| == |s|
    ensures var x := ReportOf(s, month).points[i]; var t := s[i];
      && x.sequence == i + 1 && x.id == t.id && x.exitDate == t.trade.exitDate && x.symbol == t.trade.symbol
      && x.reason == t.trade.reason && x.net == t.trade.net
      && x.cumulative == SumOf(s[..i + 1], Net) && IsPeak(x.peak, s, i + 1) && x.drawdown == x.peak - x.cumulative
      && (x.drawdownPct.Some? <==> 0.0 < x.peak)
      && (x.drawdownPct.Some? ==> x.drawdownPct.value * x.peak == x.drawdown)
  {
    hide StatsOf, SymbolRows, ReasonRows, RowsByKey, Streak, Deepest, SumOf;
    var c, r := Curve(s[..i + 1]), s[..i + 1];
    forall j | 0 <= j <= i + 1 ensures c[j] == SumOf(s[..j], Net) {
      CurveMeaning(r, j);
      assert r[..j] == s[..j];
    }
    PeakIsMaximum(c);
    hide Curve, Peak;
    assert IsPeak(Peak(c), s, i + 1) by {
      var k :| 0 <= k < |c| && c[k] == Peak(c);
      assert SumOf(s[..k], Net) == Peak(c);
    }
    if Peak(c) > 0.0 { QuotientTimes(Peak(c) - c[i + 1], Peak(c)); }
  }

  // ---- order and groups ----

  /** Trades are analysed by exit date, those of one date by symbol, and then by identity. */
  lemma CanonicalOrder(trades: Trades)
    ensures var s := Canonical(trades);
      forall i, j :: 0 <= i < j < |s| ==>
        && s[i].trade.exitDate <= s[j].trade.exitDate
        && (s[i].trade.exitDate == s[j].trade.exitDate ==>
              StrLess(s[i].trade.symbol, s[j].trade.symbol)
              || (s[i].trade.symbol == s[j].trade.symbol && s[i].id <= s[j].id))
  {
    TradeLeqIsTotalPreorder();
    SortSorts(trades, TradeLeq);
    hide StrLess;
  }

  /** `g` has exactly the trades of `s` that belong to `k`, as often as `s` has them. */
  ghost predicate IsPart<K(!new)>(g: Trades, s: Trades, key: Realized -> K, k: K) {
    forall t :: multiset(g)[t] == if key(t) == k then multiset(s)[t] else 0
  }

  lemma GroupIsPart<K(!new)>(s: Trades, key: Realized -> K, k: K)
    ensures IsPart(Group(s, key, k), s, key, k)
  {
    forall t ensures multiset(Group(s, key, k))[t] == if key(t) == k then multiset(s)[t] else 0 {
      FilterMultiset(s, InGroup(key, k), t);
    }
  }

  /** The row has the statistics of exactly the trades of its key. */
  ghost predicate RowIs(row: Row, s: Trades, key: Realized -> string) {
    exists g :: IsPart(g, s, key, row.key) && StatsAre(row.stats, g)
  }

  ghost predicate Occurs<K(!new)>(k: K, s: Trades, key: Realized -> K) { exists i :: 0 <= i < |s| && key(s[i]) == k }

  ghost predicate HasRow(rows: seq<Row>, k: string) { exists i :: 0 <= i < |rows| && rows[i].key == k }

  /** The rows are those of the keys that occur. */
  ghost predicate RowsAre(rows: seq<Row>, s: Trades, key: Realized -> string) {
    && (forall i :: 0 <= i < |rows| ==> RowIs(rows[i], s, key) && Occurs(rows[i].key, s, key))
    && (forall i :: 0 <= i < |s| ==> HasRow(rows, key(s[i])))
  }

  ghost predicate KeysAscend(rows: seq<Row>) {
    forall i, j :: 0 <= i < j < |rows| ==> StrLess(rows[i].key, rows[j].key)
  }

  lemma RowForIs(s: Trades, key: Realized -> string, k: string)
    ensures var row := RowFor(s, key)(k); row.key == k && RowIs(row, s, key)
  {
    GroupIsPart(s, key, k);
    StatsMeaning(Group(s, key, k));
    hide StatsAre, StatsOf, IsPart, Group;
  }

  lemma RowsByKeyMeaning(s: Trades, key: Realized -> string)
    ensures RowsAre(RowsByKey(s, key), s, key) && KeysAscend(RowsByKey(s, key))
  {
    hide RowIs, StatsOf, SortedKeys, StrLess;
    var keys, rows := SortedKeys(Keys(s, key)), RowsByKey(s, key);
    SortedKeysSorted(Keys(s, key));
    forall i | 0 <= i < |rows|
      ensures rows[i].key == keys[i] && RowIs(rows[i], s, key) && Occurs(rows[i].key, s, key)
    {
      RowForIs(s, key, keys[i]);
      assert keys[i] in keys;
    }
    hide RowsByKey, RowFor;
    forall i | 0 <= i < |s| ensures HasRow(rows, key(s[i])) {
      assert key(s[i]) in keys;
      var j :| 0 <= j < |keys| && keys[j] == key(s[i]);
      assert rows[j].key == key(s[i]);
    }
  }

  function SoldSymbol(t: Realized): string { t.trade.symbol }

  function SoldIn(month: Date -> string): Realized -> string { (t: Realized) => month(t.trade.exitDate) }

  function SoldFor(t: Realized): ExitReason { t.trade.reason }

  /** There is one row for each symbol that was traded and for each month of an exit, in month order, with the
      statistics of exactly the trades of that symbol or closed in that month. */
  lemma RowsMeaning(s: Trades, month: Date -> string)
    ensures var r := ReportOf(s, month);
      RowsAre(r.bySymbol, s, SoldSymbol) && RowsAre(r.byMonth, s, SoldIn(month)) && KeysAscend(r.byMonth)
  {
    hide RowsAre, KeysAscend;
    RowsByKeyMeaning(s, SymbolOf);
    RowsByKeyMeaning(s, MonthOf(month));
    RowsSame(RowsByKey(s, SymbolOf), SymbolRows(s), s, SymbolOf, SoldSymbol);
    RowsSame(RowsByKey(s, MonthOf(month)), RowsByKey(s, MonthOf(month)), s, MonthOf(month), SoldIn(month));
    hide StatsOf, ReasonRows, Streak, Deepest, PointOf, RowsByKey, SymbolRows;
  }

  lemma RowsSame(rows: seq<Row>, same: seq<Row>, s: Trades, key: Realized -> string, other: Realized -> string)
    requires RowsAre(rows, s, key) && multiset(rows) == multiset(same) && forall t :: key(t) == other(t)
    ensures RowsAre(same, s, other)
  {
    hide RowIs;
    SameElements(rows, same);
    forall i | 0 <= i < |same| ensures RowIs(same[i], s, other) && Occurs(same[i].key, s, other) {
      assert same[i] in rows;
      var j :| 0 <= j < |rows| && rows[j] == same[i];
      RowSame(rows[j], s, key, other);
    }
    forall i | 0 <= i < |s| ensures HasRow(same, other(s[i])) {
      var j :| 0 <= j < |rows| && rows[j].key == key(s[i]);
      assert rows[j] in same;
    }
  }

  lemma RowSame(row: Row, s: Trades, key: Realized -> string, other: Realized -> string)
    requires RowIs(row, s, key) && Occurs(row.key, s, key) && forall t :: key(t) == other(t)
    ensures RowIs(row, s, other) && Occurs(row.key, s, other)
  {
    hide StatsAre;
    var g :| IsPart(g, s, key, row.key) && StatsAre(row.stats, g);
    assert IsPart(g, s, other, row.key);
  }

  /** The row has the statistics of the trades of its reason, and their share of all trades. */
  ghost predicate ReasonRowIs(x: ReasonRow, s: Trades) {
    && x.share * |s| as real == x.stats.count as real
    && exists g :: IsPart(g, s, SoldFor, x.reason) && StatsAre(x.stats, g)
  }

  lemma ReasonRowMeaning(s: Trades, k: ExitReason)
    requires s != []
    ensures var x := ReasonRowFor(s)(k); x.reason == k && ReasonRowIs(x, s)
  {
    hide StatsAre, StatsOf, IsPart, Group;
    var g := Group(s, ReasonOf, k);
    GroupIsPart(s, ReasonOf, k);
    PartSame(g, s, k);
    StatsMeaning(g);
    StatsHead(g);
    ShareTimes(|g|, |s|);
    assert ReasonRowFor(s)(k) == ReasonRow(k, |g| as real / |s| as real, StatsOf(g));
  }

  lemma ShareTimes(n: int, total: int)
    requires total != 0
    ensures n as real / total as real * total as real == n as real
  {
    QuotientTimes(n as real, total as real);
  }

  ghost predicate HasReasonRow(rows: seq<ReasonRow>, k: ExitReason) {
    exists i :: 0 <= i < |rows| && rows[i].reason == k
  }

  /** There is one row for each reason that occurs, in the order of declaration, with the statistics of its trades
      and their share of all trades. */
  lemma ReasonRowsMeaning(s: Trades, month: Date -> string)
    ensures var rows := ReportOf(s, month).byReason;
      && (forall i :: 0 <= i < |rows| ==> ReasonRowIs(rows[i], s) && Occurs(rows[i].reason, s, SoldFor))
      && (forall i :: 0 <= i < |s| ==> HasReasonRow(rows, SoldFor(s[i])))
      && (forall i, j :: 0 <= i < j < |rows| ==> EarlierReason(rows[i].reason, rows[j].reason))
  {
    hide StatsOf, SymbolRows, RowsByKey, Streak, Deepest, PointOf;
    ReasonRowsOf(s);
  }

  lemma ReasonRowsOf(s: Trades)
    ensures var rows := ReasonRows(s);
      && (forall i :: 0 <= i < |rows| ==> ReasonRowIs(rows[i], s) && Occurs(rows[i].reason, s, SoldFor))
      && (forall i :: 0 <= i < |s| ==> HasReasonRow(rows, SoldFor(s[i])))
      && (forall i, j :: 0 <= i < j < |rows| ==> EarlierReason(rows[i].reason, rows[j].reason))
  {
    hide StatsOf, ReasonRowIs, EarlierReason, Group, Filter, HasReason, Occurs;
    var rows, reasons := ReasonRows(s), Filter(REASONS, HasReason(s));
    ReasonsAscend(s);
    forall i | 0 <= i < |rows|
      ensures rows[i].reason == reasons[i] && ReasonRowIs(rows[i], s) && Occurs(reasons[i], s, SoldFor)
    {
      assert reasons[i] in reasons;
      ReasonOccurs(s, reasons[i]);
      ReasonRowMeaning(s, reasons[i]);
    }
    hide ReasonRows, ReasonRowFor;
    forall i | 0 <= i < |s| ensures HasReasonRow(rows, SoldFor(s[i])) {
      ReasonListed(ReasonOf(s[i]));
      OccursInGroup(s, i);
      assert ReasonOf(s[i]) in reasons;
      var j :| 0 <= j < |reasons| && reasons[j] == ReasonOf(s[i]);
      assert rows[j].reason == SoldFor(s[i]);
    }
  }

  lemma OccursInGroup(s: Trades, i: int)
    requires 0 <= i < |s|
    ensures HasReason(s)(ReasonOf(s[i]))
  {
    assert s[i] in Group(s, ReasonOf, ReasonOf(s[i]));
  }

  lemma ReasonOccurs(s: Trades, k: ExitReason)
    requires HasReason(s)(k)
    ensures Occurs(k, s, SoldFor) && s != []
  {
    var g := Group(s, ReasonOf, k);
    assert g[0] in g;
  }

  function ReasonRank(r: ExitReason): int {
    match r
    case StopLoss => 0
    case TakeProfit => 1
    case MaxHoldingDays => 2
    case EndOfPeriod => 3
    case NoEntryBar => 4
    case InsufficientPositionSize => 5
  }

  predicate EarlierReason(a: ExitReason, b: ExitReason) { ReasonRank(a) < ReasonRank(b) }

  lemma ReasonsAscend(s: Trades)
    ensures Sorted(Filter(REASONS, HasReason(s)), EarlierReason)
  {
    hide Filter, HasReason;
    FilterSorted(REASONS, HasReason(s), EarlierReason);
  }

  lemma PartSame(g: Trades, s: Trades, k: ExitReason)
    requires IsPart(g, s, ReasonOf, k)
    ensures IsPart(g, s, SoldFor, k)
  {}
}
