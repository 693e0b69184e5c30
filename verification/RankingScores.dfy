/** What the components and the total of a ranked candidate say about its metrics, and the order of the
    ranking. */
module RankingScores {
  import opened Ordering
  import opened Decimals
  import opened Scoring
  import opened Ranking

  function MetricOrZero(metrics: map<string, real>, name: string): real {
    if name in metrics then metrics[name] else 0.0
  }

  /** How far the short average is above the long one, a fifth of it being full marks. */
  predicate TrendIs(score: real, metrics: map<string, real>) {
    var short, long := MetricOrZero(metrics, "sma20"), MetricOrZero(metrics, "sma60");
    if long <= 0.0 then score == 0.0 else IsShare(score, short - long, 0.2 * long)
  }

  /** The traded value in multiples of the threshold, from one for nothing to five for full marks. */
  predicate LiquidityIs(score: real, metrics: map<string, real>, threshold: real) {
    var value := MetricOrZero(metrics, "average_trading_value_20");
    if threshold <= 0.0 then score == 0.0 else IsShare(score, value - threshold, 4.0 * threshold)
  }

  predicate VolatilityIs(score: real, atr: real) {
    && (atr <= 0.03 ==> IsShare(score, atr - 0.01, 0.02))
    && (0.03 <= atr <= 0.06 ==> score == 100.0)
    && (0.06 <= atr ==> IsShare(score, 0.12 - atr, 0.06))
  }

  /** The highest score among the matched setups, zero without any. */
  ghost predicate SetupIs(score: real, r: Result) {
    if r.matched == [] then score == 0.0
    else
      && (forall s :: s in r.matched ==> s in r.scores && r.scores[s] <= score)
      && exists s :: s in r.matched && s in r.scores && r.scores[s] == score
  }

  /** Components and total of a scored candidate. */
  ghost predicate ScoredAs(c: Candidate, threshold: real) {
    && c.symbol == c.source.symbol
    && TrendIs(c.trend, c.source.metrics) && LiquidityIs(c.liquidity, c.source.metrics, threshold)
    && VolatilityIs(c.volatility, MetricOrZero(c.source.metrics, "atr_pct")) && SetupIs(c.setup, c.source)
    && -0.005 < c.total - (0.25 * c.trend + 0.45 * c.setup + 0.15 * c.liquidity + 0.15 * c.volatility) <= 0.005
  }

  lemma LessOne(x: real, y: real)
    requires y != 0.0
    ensures (x - y) / y == x / y - 1.0
  {
    QuotientTimes(x, y);
    QuotientUnique(x - y, y, x / y - 1.0);
  }

  lemma TrendMeaning(metrics: map<string, real>)
    ensures var short, long := Metric(metrics, "sma20"), Metric(metrics, "sma60");
      TrendIs(LinearScore(if long > 0.0 then (short - long) / long else 0.0, 0.0, 0.20), metrics)
  {
    var short, long := Metric(metrics, "sma20"), Metric(metrics, "sma60");
    InterpolationMeaning(if long > 0.0 then (short - long) / long else 0.0, 0.0, 0.20);
    if long > 0.0 {
      ShareInUnits(LinearScore((short - long) / long, 0.0, 0.20), short - long, 0.2, long);
      assert 0.2 * long == 0.20 * long;
    }
    hide LinearScore, IsShare;
  }

  lemma LiquidityMeaning(metrics: map<string, real>, threshold: real)
    ensures var value := Metric(metrics, "average_trading_value_20");
      LiquidityIs(LinearScore(if threshold > 0.0 then value / threshold else 0.0, 1.0, 5.0), metrics, threshold)
  {
    var value := Metric(metrics, "average_trading_value_20");
    InterpolationMeaning(if threshold > 0.0 then value / threshold else 0.0, 1.0, 5.0);
    if threshold > 0.0 {
      LessOne(value, threshold);
      ShareInUnits(LinearScore(value / threshold, 1.0, 5.0), value - threshold, 4.0, threshold);
    }
    hide LinearScore, IsShare;
  }

  lemma ScoreMeaning(r: Result, threshold: real)
    requires Scorable(r)
    ensures Ranking.Score(r, threshold).source == r && ScoredAs(Ranking.Score(r, threshold), threshold)
  {
    TrendMeaning(r.metrics);
    LiquidityMeaning(r.metrics, threshold);
    VolatilityMeaning(Metric(r.metrics, "atr_pct"));
    if r.matched != [] { SetupScoreIsMaximum(r.matched, r.scores); }
    var c := Ranking.Score(r, threshold);
    hide LinearScore, VolatilityScore, SetupScore, TrendIs, LiquidityIs, IsShare;
    TotalMeaning(c.trend, c.setup, c.liquidity, c.volatility);
    hide TotalScore;
  }

  /** The place of the primary setup in the setup order; without one the last place. */
  function Place(c: Candidate): int {
    match c.source.primary
    case Some(VolatilityContractionBreakout) => 0
    case Some(BoxBreakout) => 1
    case _ => 2
  }

  /** `a` is listed before `b`: by total, then setup score, then primary setup, then symbol. */
  predicate ListedBefore(a: Candidate, b: Candidate) {
    && a.total >= b.total
    && (a.total == b.total ==> a.setup >= b.setup)
    && (a.total == b.total && a.setup == b.setup ==> Place(a) <= Place(b))
    && (a.total == b.total && a.setup == b.setup && Place(a) == Place(b) ==> StrLeq(a.symbol, b.symbol))
  }

  lemma KeyMeaning(a: Candidate, b: Candidate)
    requires KeyLeq(a, b)
    ensures ListedBefore(a, b)
  {
    hide StrLeq;
  }

  lemma RankedIsScored(results: seq<Result>, threshold: real, i: int)
    requires AllScorable(results) && 0 <= i < |RankedList(results, threshold)|
    ensures var c := RankedList(results, threshold)[i]; c.source in results && ScoredAs(c, threshold)
  {
    hide Ranking.Score, KeyLeq, ScoredAs, Scorable;
    var scored := Map(results, Scorer(threshold));
    var sorted := Sort(scored, KeyLeq);
    SameElements(scored, sorted);
    assert sorted[i] in scored;
    var k :| 0 <= k < |scored| && scored[k] == sorted[i];
    assert results[k] in results;
    ScoreMeaning(results[k], threshold);
    RankDoesNotScore(sorted[i], i + 1, threshold);
  }

  /** Some candidate comes from the result. */
  ghost predicate IsRanked(r: Result, ranked: seq<Candidate>) {
    exists i :: 0 <= i < |ranked| && ranked[i].source == r
  }

  lemma EveryResultIsRanked(results: seq<Result>, threshold: real, k: int)
    requires 0 <= k < |results|
    ensures IsRanked(results[k], RankedList(results, threshold))
  {
    hide Ranking.Score, KeyLeq;
    var scored := Map(results, Scorer(threshold));
    var sorted, ranked := Sort(scored, KeyLeq), RankedList(results, threshold);
    SameElements(scored, sorted);
    ScoreKeepsSymbol(results[k], threshold);
    assert scored[k] in scored;
    var i :| 0 <= i < |sorted| && sorted[i] == scored[k];
    assert ranked[i].source == results[k];
  }

  /** What `Rank` returns: one candidate for each result, with its scores, in order and numbered from one. */
  lemma RankedMeaning(results: seq<Result>, threshold: real)
    requires AllScorable(results)
    ensures var ranked := RankedList(results, threshold);
      && |ranked| == |results|
      && (forall k :: 0 <= k < |results| ==> IsRanked(results[k], ranked))
      && (forall i :: 0 <= i < |ranked| ==>
            ranked[i].rank == i + 1 && ranked[i].source in results && ScoredAs(ranked[i], threshold))
      && (forall i, j :: 0 <= i < j < |ranked| ==> ListedBefore(ranked[i], ranked[j]))
  {
    RankedListShape(results, threshold);
    var ranked := RankedList(results, threshold);
    hide RankedList, KeyLeq, ScoredAs, ListedBefore, AllScorable, IsRanked;
    forall i | 0 <= i < |ranked| ensures ScoredAs(ranked[i], threshold) && ranked[i].source in results {
      RankedIsScored(results, threshold, i);
    }
    forall k | 0 <= k < |results| ensures IsRanked(results[k], ranked) { EveryResultIsRanked(results, threshold, k); }
    forall i, j | 0 <= i < j < |ranked| ensures ListedBefore(ranked[i], ranked[j]) { KeyMeaning(ranked[i], ranked[j]); }
  }

  lemma RankDoesNotScore(c: Candidate, rank: int, threshold: real)
    requires ScoredAs(c, threshold)
    ensures ScoredAs(c.(rank := rank), threshold)
  {
    hide TrendIs, LiquidityIs, VolatilityIs, SetupIs;
  }
}
