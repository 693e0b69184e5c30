/** Realized-trade analysis: canonical order, statistics, streaming curves and groups. */
module Analysis {
  import opened Dates
  import opened Options
  import opened Ordering
  import opened Decimals
  import opened Drawdown
  import opened Backtest

  /** A stored trade with its identity. */
  datatype Realized = Realized(id: int, trade: Trade)

  type Trades = seq<Realized>

  /** The canonical order: exit date, then symbol, then identity. */
  predicate TradeLeq(a: Realized, b: Realized) {
    a.trade.exitDate < b.trade.exitDate || (a.trade.exitDate == b.trade.exitDate &&
      (StrLess(a.trade.symbol, b.trade.symbol) || (a.trade.symbol == b.trade.symbol && a.id <= b.id)))
  }

  lemma TradeLeqIsTotalPreorder()
    ensures TotalPreorder(TradeLeq)
  {
    forall a, b ensures TradeLeq(a, b) || TradeLeq(b, a) { StrLeqTotal(a.trade.symbol, b.trade.symbol); }
    forall a, b, c | TradeLeq(a, b) && TradeLeq(b, c) ensures TradeLeq(a, c) { TradeLeqTransitive(a, b, c); }
  }

  lemma TradeLeqTransitive(a: Realized, b: Realized, c: Realized)
    requires TradeLeq(a, b) && TradeLeq(b, c)
    ensures TradeLeq(a, c)
  {
    if a.trade.exitDate == c.trade.exitDate && a.trade.symbol != b.trade.symbol && b.trade.symbol != c.trade.symbol {
      StrLeqTransitive(a.trade.symbol, b.trade.symbol, c.trade.symbol);
      if a.trade.symbol == c.trade.symbol { StrLeqAntisymmetric(a.trade.symbol, b.trade.symbol); }
    }
  }

  predicate DistinctIds(s: Trades) { forall i, j :: 0 <= i < j < |s| ==> s[i].id != s[j].id }

  function Canonical(s: Trades): Trades { Sort(s, TradeLeq) }

  // ---- statistics ----

  function Net(t: Realized): real { t.trade.net }

  predicate Win(t: Realized) { t.trade.net > 0.0 }

  predicate Loss(t: Realized) { t.trade.net < 0.0 }

  function SumOf<T>(s: seq<T>, f: T -> real): real {
    if s == [] then 0.0 else f(s[0]) + SumOf(s[1..], f)
  }

  function HoldingDays(t: Realized): real { t.trade.holdingDays as real }

  /** `max(values)` of a non-empty list of profits. */
  function Largest(s: Trades): real
    requires s != []
  {
    if |s| == 1 then Net(s[0]) else Max(Net(s[0]), Largest(s[1..]))
  }

  function Smallest(s: Trades): real
    requires s != []
  {
    if |s| == 1 then Net(s[0]) else Min(Net(s[0]), Smallest(s[1..]))
  }

  function Mean(sum: real, n: int): Option<real> { if n == 0 then None else Some(sum / n as real) }

  datatype Stats = Stats(
    count: int,
    wins: int,
    losses: int,
    breakeven: int,
    winRate: Option<real>,
    grossProfit: real,
    grossLoss: real,
    net: real,
    averageNet: Option<real>,
    averageHolding: Option<real>,
    largestWin: Option<real>,
    largestLoss: Option<real>)

  function StatsOf(s: Trades): Stats {
    var wins := Filter(s, Win);
    var losses := Filter(s, Loss);
    var net := SumOf(s, Net);
    Stats(|s|, |wins|, |losses|, |s| - |wins| - |losses|, Mean(|wins| as real, |s|), SumOf(wins, Net),
          SumOf(losses, Net), net, Mean(net, |s|), Mean(SumOf(s, HoldingDays), |s|),
          if wins == [] then None else Some(Largest(wins)),
          if losses == [] then None else Some(Smallest(losses)))
  }

  /** Wins, losses and breakeven trades split the count, and the two gross sums split the net profit. */
  lemma {:induction false} StatsAddUp(s: Trades)
    ensures var r := StatsOf(s);
      && r.wins + r.losses + r.breakeven == r.count && 0 <= r.breakeven
      && r.grossProfit + r.grossLoss == r.net && 0.0 <= r.grossProfit && r.grossLoss <= 0.0
  {
    if s != [] {
      StatsAddUp(s[1..]);
      SumOfCons(s[0], Filter(s[1..], Win));
      SumOfCons(s[0], Filter(s[1..], Loss));
    }
  }

  lemma SumOfCons(t: Realized, s: Trades)
    ensures SumOf([t] + s, Net) == Net(t) + SumOf(s, Net)
  {
    assert ([t] + s)[1..] == s;
  }

  // ---- the realized profit curve ----

  /** The cumulative profit before the first trade and after each of them. */
  function Curve(s: Trades): (c: seq<real>)
    ensures |c| == |s| + 1
    decreases |s|
  {
    if s == [] then [0.0] else
    var c := Curve(s[..|s| - 1]);
    c + [c[|s| - 1] + Net(s[|s| - 1])]
  }

  lemma {:induction false} SumOfSnoc<T>(s: seq<T>, x: T, f: T -> real)
    ensures SumOf(s + [x], f) == SumOf(s, f) + f(x)
  {
    if s == [] {
      assert s + [x] == [x] && [x][1..] == [];
    } else {
      SumOfSnoc(s[1..], x, f);
      assert (s + [x])[1..] == s[1..] + [x];
    }
  }

  /** The last cumulative value is the net profit. */
  lemma {:induction false} CurveEndsAtNet(s: Trades)
    ensures Curve(s)[|s|] == SumOf(s, Net)
    decreases |s|
  {
    if s != [] {
      var r := s[..|s| - 1];
      CurveEndsAtNet(r);
      SumOfSnoc(r, s[|s| - 1], Net);
      assert s == r + [s[|s| - 1]];
    }
  }

  datatype Point = Point(
    sequence: int,
    id: int,
    exitDate: Date,
    symbol: string,
    reason: ExitReason,
    net: real,
    cumulative: real,
    peak: real,
    drawdown: real,
    drawdownPct: Option<real>)

  /** The point after the `i`-th trade of the canonical order. */
  function PointOf(s: Trades, i: int): Point
    requires 0 <= i < |s|
  {
    var c := Curve(s[..i + 1]);
    var peak := Peak(c);
    var drawdown := peak - c[i + 1];
    var t := s[i];
    Point(i + 1, t.id, t.trade.exitDate, t.trade.symbol, t.trade.reason, Net(t), c[i + 1], peak, drawdown,
          if peak > 0.0 then Some(drawdown / peak) else None)
  }

  // ---- streaks ----

  /** The run of `p` at the end of `s`. */
  function Trailing(s: Trades, p: Realized -> bool): (n: int)
    ensures 0 <= n <= |s|
    decreases |s|
  {
    if s == [] || !p(s[|s| - 1]) then 0 else Trailing(s[..|s| - 1], p) + 1
  }

  /** The largest trailing run over all prefixes: what a streak counter reports. */
  function Streak(s: Trades, p: Realized -> bool): int
    decreases |s|
  {
    if s == [] then 0 else
    var before, run := Streak(s[..|s| - 1], p), Trailing(s, p);
    if run > before then run else before
  }

  ghost predicate Block(s: Trades, p: Realized -> bool, i: int, n: int) {
    0 <= i && 0 <= n && i + n <= |s| && forall k :: i <= k < i + n ==> p(s[k])
  }

  ghost predicate IsLongestBlock(n: int, s: Trades, p: Realized -> bool) {
    (exists i :: Block(s, p, i, n)) && forall i, m :: Block(s, p, i, m) ==> m <= n
  }

  lemma {:induction false} TrailingIsMaximal(s: Trades, p: Realized -> bool)
    ensures Block(s, p, |s| - Trailing(s, p), Trailing(s, p))
    ensures forall i, m :: Block(s, p, i, m) && i + m == |s| ==> m <= Trailing(s, p)
    decreases |s|
  {
    if s != [] && p(s[|s| - 1]) {
      var r := s[..|s| - 1];
      TrailingIsMaximal(r, p);
      forall i, m | Block(s, p, i, m) && i + m == |s| ensures m <= Trailing(s, p) {
        if m > 0 { assert Block(r, p, i, m - 1); }
      }
    } else if s != [] {
      forall i, m | Block(s, p, i, m) && i + m == |s| ensures m <= 0 {
        assert m > 0 ==> i <= |s| - 1 < i + m;
      }
    }
  }

  /** The streak counter equals the length of the longest contiguous block. */
  lemma {:induction false} StreakIsLongestBlock(s: Trades, p: Realized -> bool)
    ensures IsLongestBlock(Streak(s, p), s, p)
    decreases |s|
  {
    if s == [] {
      assert Block(s, p, 0, 0);
    } else {
      var r := s[..|s| - 1];
      StreakIsLongestBlock(r, p);
      TrailingIsMaximal(s, p);
      if Trailing(s, p) > Streak(r, p) {
        assert Block(s, p, |s| - Trailing(s, p), Streak(s, p));
      } else {
        var i :| Block(r, p, i, Streak(r, p));
        assert Block(s, p, i, Streak(s, p));
      }
      forall i, m | Block(s, p, i, m) ensures m <= Streak(s, p) {
        if i + m < |s| { assert Block(r, p, i, m); }
      }
    }
  }

  // ---- groups ----

  function InGroup<K(==)>(key: Realized -> K, k: K): Realized -> bool { (t: Realized) => key(t) == k }

  function Group<K(==)>(s: Trades, key: Realized -> K, k: K): Trades { Filter(s, InGroup(key, k)) }

  /** Fills a dictionary of lists, one trade after the other. */
  method Groups<K(==,!new)>(s: Trades, key: Realized -> K) returns (m: map<K, Trades>)
    ensures forall k :: k in m <==> exists t :: t in s && key(t) == k
    ensures forall k :: k in m ==> m[k] == Group(s, key, k)
  {
    m := map[];
    for i := 0 to |s|
      invariant forall k :: k in m <==> exists t :: t in s[..i] && key(t) == k
      invariant forall k :: (if k in m then m[k] else []) == Group(s[..i], key, k)
    {
      var t := s[i];
      assert s[..i + 1] == s[..i] + [t];
      forall k ensures Group(s[..i + 1], key, k) ==
        if key(t) == k then Group(s[..i], key, k) + [t] else Group(s[..i], key, k) {
        FilterSnoc(s[..i], t, InGroup(key, k));
      }
      var value := key(t);
      m := m[value := (if value in m then m[value] else []) + [t]];
    }
    assert s[..|s|] == s;
  }

  datatype Row = Row(key: string, stats: Stats)

  datatype ReasonRow = ReasonRow(reason: ExitReason, share: real, stats: Stats)

  function RowFor(s: Trades, key: Realized -> string): string -> Row {
    (k: string) => Row(k, StatsOf(Group(s, key, k)))
  }

  function Keys(s: Trades, key: Realized -> string): set<string> { set t | t in s :: key(t) }

  /** One row per key in ascending order of the keys. */
  ghost function RowsByKey(s: Trades, key: Realized -> string): seq<Row> {
    Map(SortedKeys(Keys(s, key)), RowFor(s, key))
  }

  predicate MoreProfit(a: Row, b: Row) { a.stats.net >= b.stats.net }

  function SymbolOf(t: Realized): string { t.trade.symbol }

  function ReasonOf(t: Realized): ExitReason { t.trade.reason }

  /** Symbols by descending net profit, equal profits in symbol order. */
  ghost function SymbolRows(s: Trades): seq<Row> { Sort(RowsByKey(s, SymbolOf), MoreProfit) }

  const REASONS: seq<ExitReason> := [StopLoss, TakeProfit, MaxHoldingDays, EndOfPeriod, NoEntryBar,
    InsufficientPositionSize]

  function HasReason(s: Trades): ExitReason -> bool { (r: ExitReason) => Group(s, ReasonOf, r) != [] }

  function ReasonRowFor(s: Trades): ExitReason -> ReasonRow {
    (r: ExitReason) => var g := Group(s, ReasonOf, r);
      ReasonRow(r, if |s| == 0 then 0.0 else |g| as real / |s| as real, StatsOf(g))
  }

  /** The reasons that occur, in the order of their declaration. */
  function ReasonRows(s: Trades): seq<ReasonRow> { Map(Filter(REASONS, HasReason(s)), ReasonRowFor(s)) }

  /** The measure of each group, as a function of its key. */
  function OfGroup<K(==)>(s: Trades, key: Realized -> K, f: Trades -> real): K -> real { (k: K) => f(Group(s, key, k)) }

  function Then<A, B>(g: A -> B, f: B -> real): A -> real { (x: A) => f(g(x)) }

  /** Adding one trade changes the sums of exactly one group. */
  lemma {:induction false} GroupSumsStep<K(!new)>(keys: seq<K>, key: Realized -> K, t: Realized, s: Trades,
                                           f: Trades -> real)
    requires forall i, j :: 0 <= i < j < |keys| ==> keys[i] != keys[j]
    requires forall g: Trades :: f([t] + g) == f([t]) + f(g)
    ensures SumOf(keys, OfGroup([t] + s, key, f))
         == SumOf(keys, OfGroup(s, key, f)) + if key(t) in keys then f([t]) else 0.0
  {
    if keys != [] {
      var k := keys[0];
      assert ([t] + s)[1..] == s;
      assert Group([t] + s, key, k) == if key(t) == k then [t] + Group(s, key, k) else Group(s, key, k);
      GroupSumsStep(keys[1..], key, t, s, f);
      assert keys == [k] + keys[1..];
    }
  }

  lemma {:induction false} SumOfZeros<K>(keys: seq<K>, f: K -> real)
    requires forall k :: f(k) == 0.0
    ensures SumOf(keys, f) == 0.0
  {
    if keys != [] { SumOfZeros(keys[1..], f); }
  }

  /** A measure that adds up trade by trade. */
  ghost predicate Additive(f: Trades -> real) {
    f([]) == 0.0 && forall t: Realized, g: Trades :: f([t] + g) == f([t]) + f(g)
  }

  /** The keys are distinct and every trade has one of them. */
  ghost predicate Covers<K>(keys: seq<K>, key: Realized -> K, s: Trades) {
    (forall i, j :: 0 <= i < j < |keys| ==> keys[i] != keys[j]) && forall t :: t in s ==> key(t) in keys
  }

  /** Summed over the groups of any distinct keys that occur at all, an additive measure gives the
      measure of all trades: groups neither overlap nor miss a trade. */
  lemma {:induction false} GroupsPartition<K(!new)>(keys: seq<K>, key: Realized -> K, s: Trades, f: Trades -> real)
    requires Covers(keys, key, s) && Additive(f)
    ensures SumOf(keys, OfGroup(s, key, f)) == f(s)
  {
    if s == [] {
      assert forall k :: Group(s, key, k) == [];
      SumOfZeros(keys, OfGroup(s, key, f));
    } else {
      GroupsPartition(keys, key, s[1..], f);
      GroupSumsStep(keys, key, s[0], s[1..], f);
      assert s == [s[0]] + s[1..];
    }
  }

  // ---- the analysis ----

  datatype Report = Report(
    stats: Stats,
    averageWin: Option<real>,
    averageLoss: Option<real>,
    profitFactor: Option<real>,
    maxConsecutiveWins: int,
    maxConsecutiveLosses: int,
    maxDrawdown: real,
    points: seq<Point>,
    bySymbol: seq<Row>,
    byReason: seq<ReasonRow>,
    byMonth: seq<Row>)

  /** The analysis of trades in canonical order; `month` is the calendar's year and month of a date. */
  ghost function ReportOf(s: Trades, month: Date -> string): Report {
    var stats := StatsOf(s);
    Report(stats, Mean(stats.grossProfit, stats.wins), Mean(stats.grossLoss, stats.losses),
           if stats.grossLoss == 0.0 then None else Some(stats.grossProfit / Abs(stats.grossLoss)),
           Streak(s, Win), Streak(s, Loss), Deepest(Curve(s)),
           seq(|s|, i requires 0 <= i < |s| => PointOf(s, i)),
           SymbolRows(s), ReasonRows(s), RowsByKey(s, MonthOf(month)))
  }

  function MonthOf(month: Date -> string): Realized -> string { (t: Realized) => month(t.trade.exitDate) }

  lemma StreamStart(s: Trades)
    ensures Curve(s[..0]) == [0.0] && Peak(Curve(s[..0])) == 0.0 && Deepest(Curve(s[..0])) == 0.0
    ensures Trailing(s[..0], Win) == Trailing(s[..0], Loss) == Streak(s[..0], Win) == Streak(s[..0], Loss) == 0
  {}

  /** What one more trade does to the curve and to the streaks. */
  lemma StreamStep(s: Trades, i: int)
    requires 0 <= i < |s|
    ensures Curve(s[..i + 1])[i + 1] == Curve(s[..i])[i] + Net(s[i])
    ensures Peak(Curve(s[..i + 1])) == Max(Peak(Curve(s[..i])), Curve(s[..i + 1])[i + 1])
    ensures Deepest(Curve(s[..i + 1])) ==
      Max(Deepest(Curve(s[..i])), Peak(Curve(s[..i + 1])) - Curve(s[..i + 1])[i + 1])
    ensures forall p: Realized -> bool :: Trailing(s[..i + 1], p) == if p(s[i]) then Trailing(s[..i], p) + 1 else 0
    ensures forall p: Realized -> bool :: Streak(s[..i + 1], p) == MaxInt(Trailing(s[..i + 1], p), Streak(s[..i], p))
    ensures forall p: Realized -> bool :: 0 <= Streak(s[..i], p)
  {
    assert s[..i + 1][..i] == s[..i];
    assert Curve(s[..i + 1])[..i + 1] == Curve(s[..i]);
    forall p: Realized -> bool ensures 0 <= Streak(s[..i], p) { StreakNonNegative(s[..i], p); }
  }

  lemma StreakNonNegative(s: Trades, p: Realized -> bool)
    ensures 0 <= Streak(s, p)
    decreases |s|
  {
    if s != [] { StreakNonNegative(s[..|s| - 1], p); }
  }

  /** The streaming part: cumulative profit, peak, drawdown and the two streak counters in one pass. */
  method Stream(s: Trades) returns (points: seq<Point>, maxDrawdown: real, maxWins: int, maxLosses: int)
    ensures points == seq(|s|, i requires 0 <= i < |s| => PointOf(s, i))
    ensures maxDrawdown == Deepest(Curve(s)) && maxWins == Streak(s, Win) && maxLosses == Streak(s, Loss)
  {
    StreamStart(s);
    hide Curve, Peak, Deepest, Trailing, Streak;
    var cumulative, peak, currentWins, currentLosses := 0.0, 0.0, 0, 0;
    points, maxDrawdown, maxWins, maxLosses := [], 0.0, 0, 0;
    var i := 0;
    while i < |s|
      invariant 0 <= i <= |s| == |points| + (|s| - i)
      invariant forall k :: 0 <= k < i ==> points[k] == PointOf(s, k)
      invariant cumulative == Curve(s[..i])[i] && peak == Peak(Curve(s[..i])) && maxDrawdown == Deepest(Curve(s[..i]))
      invariant currentWins == Trailing(s[..i], Win) && currentLosses == Trailing(s[..i], Loss)
      invariant maxWins == Streak(s[..i], Win) && maxLosses == Streak(s[..i], Loss)
    {
      var t := s[i];
      StreamStep(s, i);
      cumulative := cumulative + Net(t);
      peak := Max(peak, cumulative);
      var drawdown := peak - cumulative;
      maxDrawdown := Max(maxDrawdown, drawdown);
      points := points + [Point(i + 1, t.id, t.trade.exitDate, t.trade.symbol, t.trade.reason, Net(t), cumulative, peak,
                                drawdown, if peak > 0.0 then Some(drawdown / peak) else None)];
      if Net(t) > 0.0 {
        currentWins, currentLosses := currentWins + 1, 0;
        if currentWins > maxWins { maxWins := currentWins; }
      } else if Net(t) < 0.0 {
        currentLosses, currentWins := currentLosses + 1, 0;
        if currentLosses > maxLosses { maxLosses := currentLosses; }
      } else {
        currentWins, currentLosses := 0, 0;
      }
      i := i + 1;
    }
    assert s[..|s|] == s;
  }

  /** One row per group of the dictionary, by ascending key. */
  method KeyRows(s: Trades, key: Realized -> string) returns (rows: seq<Row>)
    ensures rows == RowsByKey(s, key)
  {
    hide StatsOf, Group, SortedKeys;
    var groups := Groups(s, key);
    assert groups.Keys == Keys(s, key);
    var keys := SortKeys(groups.Keys);
    rows := [];
    for i := 0 to |keys|
      invariant |rows| == i
      invariant forall j :: 0 <= j < i ==> rows[j] == RowFor(s, key)(keys[j])
    {
      assert keys[i] in groups;
      rows := rows + [Row(keys[i], StatsOf(groups[keys[i]]))];
    }
  }

  method Analyze(trades: Trades, month: Date -> string) returns (r: Report)
    ensures r == ReportOf(Canonical(trades), month)
  {
    var ordered := Sort(trades, TradeLeq);
    var stats := StatsOf(ordered);
    var points, maxDrawdown, maxWins, maxLosses := Stream(ordered);
    var symbols := KeyRows(ordered, SymbolOf);
    symbols := Sort(symbols, MoreProfit);
    var months := KeyRows(ordered, MonthOf(month));
    r := Report(stats, Mean(stats.grossProfit, stats.wins), Mean(stats.grossLoss, stats.losses),
                if stats.grossLoss == 0.0 then None else Some(stats.grossProfit / Abs(stats.grossLoss)),
                maxWins, maxLosses, maxDrawdown, points, symbols, ReasonRows(ordered), months);
  }

  // ---- results ----

  /** With distinct identities the whole analysis is the same for every arrangement of the trades. */
  lemma AnalysisIgnoresOrder(a: Trades, b: Trades, month: Date -> string)
    requires DistinctIds(a) && multiset(a) == multiset(b)
    ensures ReportOf(Canonical(a), month) == ReportOf(Canonical(b), month)
  {
    TradeLeqIsTotalPreorder();
    forall x, y | x in a && y in a && TradeLeq(x, y) && TradeLeq(y, x) ensures x == y {
      if x.trade.symbol != y.trade.symbol { StrLeqAntisymmetric(x.trade.symbol, y.trade.symbol); }
    }
    SortPermutation(a, b, TradeLeq);
  }

  /** The streamed figures are the declarative ones: the largest fall between two points of the curve
      that starts at zero, and the longest blocks of wins and of losses. */
  lemma StreamedFigures(s: Trades, month: Date -> string)
    ensures var r := ReportOf(s, month);
      && IsMaxFall(r.maxDrawdown, Curve(s))
      && IsLongestBlock(r.maxConsecutiveWins, s, Win) && IsLongestBlock(r.maxConsecutiveLosses, s, Loss)
      && (s != [] ==> r.points[|s| - 1].cumulative == r.stats.net)
  {
    hide IsMaxFall, IsLongestBlock, Deepest, Streak, PointOf, StatsOf, SymbolRows, ReasonRows, RowsByKey;
    DeepestIsMaxFall(Curve(s));
    StreakIsLongestBlock(s, Win);
    StreakIsLongestBlock(s, Loss);
    if s != [] { LastPoint(s); }
  }

  lemma LastPoint(s: Trades)
    requires s != []
    ensures PointOf(s, |s| - 1).cumulative == StatsOf(s).net
  {
    hide Peak, Largest, Smallest;
    CurveEndsAtNet(s);
    assert s[..|s|] == s;
  }

  function CountOf(g: Trades): real { |g| as real }

  function NetOf(g: Trades): real { SumOf(g, Net) }

  function ShareOf(n: int): Trades -> real
    requires n != 0
  {
    (g: Trades) => |g| as real / n as real
  }

  lemma MeasuresAdd()
    ensures Additive(CountOf) && Additive(NetOf)
  {
    forall t: Realized, g: Trades ensures NetOf([t] + g) == NetOf([t]) + NetOf(g) {
      SumOfCons(t, g);
      SumOfCons(t, []);
      assert [t] + [] == [t];
    }
  }

  lemma SharesAdd(n: int)
    requires n != 0
    ensures Additive(ShareOf(n))
  {
    forall t: Realized, g: Trades ensures ShareOf(n)([t] + g) == ShareOf(n)([t]) + ShareOf(n)(g) {
      FractionsAdd(1.0, |g| as real, n as real);
    }
  }

  lemma FractionsAdd(x: real, y: real, n: real)
    requires n != 0.0
    ensures (x + y) / n == x / n + y / n
  {
    QuotientTimes(x, n);
    QuotientTimes(y, n);
    assert (x / n + y / n) * n == (x / n) * n + (y / n) * n;
    QuotientUnique(x + y, n, x / n + y / n);
  }

  lemma {:induction false} SumOfMap<A, B>(s: seq<A>, g: A -> B, f: B -> real)
    ensures SumOf(Map(s, g), f) == SumOf(s, Then(g, f))
  {
    if s != [] {
      SumOfMap(s[1..], g, f);
      assert Map(s, g)[1..] == Map(s[1..], g);
    }
  }

  lemma {:induction false} SumOfCongruent<A(!new)>(s: seq<A>, f: A -> real, g: A -> real)
    requires forall x :: x in s ==> f(x) == g(x)
    ensures SumOf(s, f) == SumOf(s, g)
  {
    if s != [] { SumOfCongruent(s[1..], f, g); }
  }

  lemma {:induction false} SumWithout<A>(t: seq<A>, i: nat, f: A -> real)
    requires i < |t|
    ensures SumOf(t, f) == SumOf(Without(t, i), f) + f(t[i])
    decreases |t|
  {
    if i == 0 {
      assert Without(t, 0) == t[1..];
    } else {
      SumWithout(t[1..], i - 1, f);
      assert Without(t, i)[1..] == Without(t[1..], i - 1);
    }
  }

  /** A sum does not depend on the order of its terms. */
  lemma {:induction false} SumOfPermutation<A>(s: seq<A>, t: seq<A>, f: A -> real)
    requires multiset(s) == multiset(t)
    ensures SumOf(s, f) == SumOf(t, f)
  {
    SameElements(s, t);
    if s != [] {
      assert s[0] in t;
      var i :| 0 <= i < |t| && t[i] == s[0];
      TailElements(s);
      WithoutElements(t, i);
      SumOfPermutation(s[1..], Without(t, i), f);
      SumWithout(t, i, f);
    }
  }

  function RowCount(r: Row): real { r.stats.count as real }

  function RowNet(r: Row): real { r.stats.net }

  /** `f` of a row is the measure `m` of its group. */
  ghost predicate Measures(f: Row -> real, m: Trades -> real) {
    forall k, g :: f(Row(k, StatsOf(g))) == m(g)
  }

  lemma RowsSum(s: Trades, key: Realized -> string, f: Row -> real, m: Trades -> real)
    requires Measures(f, m) && Additive(m)
    ensures SumOf(RowsByKey(s, key), f) == m(s)
  {
    hide StatsOf, Additive, Group, SortedKeys;
    var keys := SortedKeys(Keys(s, key));
    SortedKeysDistinct(Keys(s, key));
    assert forall t :: t in s ==> key(t) in Keys(s, key);
    GroupsPartition(keys, key, s, m);
    SumOfMap(keys, RowFor(s, key), f);
    SumOfCongruent(keys, Then(RowFor(s, key), f), OfGroup(s, key, m));
  }

  lemma StatsHeads()
    ensures forall g: Trades :: StatsOf(g).count == |g| && StatsOf(g).net == SumOf(g, Net)
  {
    forall g: Trades ensures StatsOf(g).count == |g| && StatsOf(g).net == SumOf(g, Net) { StatsHead(g); }
  }

  lemma RowsPartition(s: Trades, key: Realized -> string)
    ensures SumOf(RowsByKey(s, key), RowCount) == |s| as real
    ensures SumOf(RowsByKey(s, key), RowNet) == SumOf(s, Net)
  {
    hide Additive, StatsOf;
    MeasuresAdd();
    assert Measures(RowCount, CountOf) && Measures(RowNet, NetOf) by { StatsHeads(); }
    RowsSum(s, key, RowCount, CountOf);
    RowsSum(s, key, RowNet, NetOf);
  }

  lemma {:induction false} FilterDistinct<A(!new)>(s: seq<A>, p: A -> bool)
    requires forall i, j :: 0 <= i < j < |s| ==> s[i] != s[j]
    ensures var r := Filter(s, p); forall i, j :: 0 <= i < j < |r| ==> r[i] != r[j]
  {
    if s != [] {
      FilterDistinct(s[1..], p);
      assert s[0] !in s[1..];
      assert s[0] !in Filter(s[1..], p);
    }
  }

  function ReasonCount(r: ReasonRow): real { r.stats.count as real }

  function ReasonNet(r: ReasonRow): real { r.stats.net }

  function ReasonShare(r: ReasonRow): real { r.share }

  ghost predicate ReasonMeasures(s: Trades, f: ReasonRow -> real, m: Trades -> real) {
    forall k :: f(ReasonRowFor(s)(k)) == m(Group(s, ReasonOf, k))
  }

  lemma ReasonListed(r: ExitReason)
    ensures r in REASONS
  {
    match r
    case StopLoss => assert REASONS[0] == r;
    case TakeProfit => assert REASONS[1] == r;
    case MaxHoldingDays => assert REASONS[2] == r;
    case EndOfPeriod => assert REASONS[3] == r;
    case NoEntryBar => assert REASONS[4] == r;
    case InsufficientPositionSize => assert REASONS[5] == r;
  }

  /** Every reason that occurs is listed once. */
  lemma ReasonsCovered(s: Trades)
    ensures Covers(Filter(REASONS, HasReason(s)), ReasonOf, s)
  {
    FilterDistinct(REASONS, HasReason(s));
    forall t | t in s ensures ReasonOf(t) in Filter(REASONS, HasReason(s)) {
      assert t in Group(s, ReasonOf, ReasonOf(t));
      ReasonListed(ReasonOf(t));
    }
  }

  lemma ReasonsSum(s: Trades, f: ReasonRow -> real, m: Trades -> real)
    requires Additive(m) && ReasonMeasures(s, f, m)
    ensures SumOf(ReasonRows(s), f) == m(s)
  {
    hide StatsOf, ReasonRowFor, Additive, Group, Filter, Covers;
    var keys := Filter(REASONS, HasReason(s));
    ReasonsCovered(s);
    GroupsPartition(keys, ReasonOf, s, m);
    SumOfMap(keys, ReasonRowFor(s), f);
    SumOfCongruent(keys, Then(ReasonRowFor(s), f), OfGroup(s, ReasonOf, m));
  }

  lemma ReasonsPartition(s: Trades)
    ensures SumOf(ReasonRows(s), ReasonCount) == |s| as real
    ensures SumOf(ReasonRows(s), ReasonNet) == SumOf(s, Net)
  {
    hide Additive, StatsOf, Group, ReasonRows;
    MeasuresAdd();
    StatsHeads();
    ReasonsSum(s, ReasonCount, CountOf);
    ReasonsSum(s, ReasonNet, NetOf);
  }

  lemma SharesAddToOne(s: Trades)
    requires s != []
    ensures SumOf(ReasonRows(s), ReasonShare) == 1.0
  {
    hide Additive, StatsOf, Group, ReasonRows;
    SharesAdd(|s|);
    ReasonsSum(s, ReasonShare, ShareOf(|s|));
    QuotientUnique(|s| as real, |s| as real, 1.0);
  }

  lemma StatsHead(s: Trades)
    ensures StatsOf(s).count == |s| && StatsOf(s).net == SumOf(s, Net)
  {
    hide Largest, Smallest;
  }

  /** Symbols, reasons and months each partition the trades: counts and net profits add up to the
      summary, and the shares of the reasons add up to one. */
  lemma ReportAddsUp(s: Trades, month: Date -> string)
    ensures var r := ReportOf(s, month);
      && SumOf(r.bySymbol, RowCount) == SumOf(r.byMonth, RowCount) == SumOf(r.byReason, ReasonCount) ==
        r.stats.count as real
      && SumOf(r.bySymbol, RowNet) == SumOf(r.byMonth, RowNet) == SumOf(r.byReason, ReasonNet) == r.stats.net
      && (s != [] ==> SumOf(r.byReason, ReasonShare) == 1.0)
  {
    hide StatsOf, RowsByKey, ReasonRows;
    assert StatsOf(s).count == |s| && StatsOf(s).net == SumOf(s, Net) by { StatsHead(s); }
    RowsPartition(s, SymbolOf);
    RowsPartition(s, MonthOf(month));
    ReasonsPartition(s);
    if s != [] { SharesAddToOne(s); }
    SumOfPermutation(SymbolRows(s), RowsByKey(s, SymbolOf), RowCount);
    SumOfPermutation(SymbolRows(s), RowsByKey(s, SymbolOf), RowNet);
  }

  predicate KeyLess(a: Row, b: Row) { StrLess(a.key, b.key) }

  /** Symbols come by descending net profit, and equal profits in ascending symbol order. */
  lemma SymbolRowsOrdered(s: Trades)
    ensures SortedThen(SymbolRows(s), MoreProfit, KeyLess)
  {
    hide StatsOf, SortedKeys, StrLeq;
    SortedKeysSorted(Keys(s, SymbolOf));
    assert TotalPreorder(MoreProfit);
    SortIsStable(RowsByKey(s, SymbolOf), MoreProfit, KeyLess);
  }
}
