/** Which setups a screened symbol matches, how a candidate is scored, and the total order that ranks
    the candidates of a day before the cut-off. */
module Ranking {
  import opened Options
  import opened Ordering
  import opened Decimals
  import opened Scoring
  import Watchlist

  // ---- screening: matched setups and the primary one ----

  datatype Setup = VolatilityContractionBreakout | BoxBreakout | TrendPullback

  const SETUP_ORDER := [VolatilityContractionBreakout, BoxBreakout, TrendPullback]

  /** Position in the setup order. */
  function Index(s: Setup): nat {
    match s
    case VolatilityContractionBreakout => 0
    case BoxBreakout => 1
    case TrendPullback => 2
  }

  /** What one setup says about a symbol: whether all its rules hold, and the weighted sum of its scores
      (zero without enough bars), which is clamped and rounded like every score. */
  datatype Evaluation = Evaluation(matched: bool, weighted: real)
  {
    function Score(): (r: real)
      ensures 0.0 <= r <= 100.0
    {
      QuantizeScore(weighted)
    }
  }

  datatype Result = Result(
    symbol: string,
    passed: bool,
    metrics: map<string, real>,
    matched: seq<Setup>,
    primary: Option<Setup>,
    scores: map<Setup, real>)

  /** The setup with the higher score, or the earlier one in the order. */
  predicate Before(a: Setup, b: Setup, scores: map<Setup, real>)
    requires a in scores && b in scores
  {
    scores[a] > scores[b] || (scores[a] == scores[b] && Index(a) < Index(b))
  }

  /** The first least element by descending score and order, as `min` with a key finds it. */
  function Primary(matched: seq<Setup>, scores: map<Setup, real>): (r: Option<Setup>)
    requires forall m :: m in matched ==> m in scores
    ensures r.None? <==> matched == []
    ensures r.Some? ==> r.value in matched && forall m :: m in matched ==> !Before(m, r.value, scores)
  {
    if matched == [] then None
    else
      var front, last := matched[..|matched| - 1], matched[|matched| - 1];
      assert matched == front + [last];
      match Primary(front, scores)
      case None => Some(last)
      case Some(p) => if Before(last, p, scores) then Some(last) else Some(p)
  }

  function Matched(order: seq<Setup>, evaluations: Setup -> Evaluation, common: bool): (r: seq<Setup>)
    ensures forall s :: s in r <==> s in order && evaluations(s).matched && common
  {
    Filter(order, (s: Setup) => evaluations(s).matched && common)
  }

  /** The result for one symbol, given the common rules and the three setups. */
  function Evaluate(symbol: string, common: bool, metrics: map<string, real>,
                    evaluations: Setup -> Evaluation): Result {
    var matched := Matched(SETUP_ORDER, evaluations, common);
    var scores := map s | s in matched :: evaluations(s).Score();
    Result(symbol, matched != [], metrics, matched, Primary(matched, scores), scores)
  }

  // ---- scoring ----

  datatype Candidate = Candidate(
    symbol: string,
    rank: int,
    total: real,
    trend: real,
    setup: real,
    liquidity: real,
    volatility: real,
    source: Result)

  function Metric(metrics: map<string, real>, name: string): real {
    if name in metrics then metrics[name] else 0.0
  }

  /** The highest score among the matched setups, zero without any. */
  function SetupScore(matched: seq<Setup>, scores: map<Setup, real>): real
    requires forall m :: m in matched ==> m in scores
  {
    if matched == [] then 0.0
    else if |matched| == 1 then scores[matched[0]]
    else
      assert matched[0] in matched && forall m :: m in matched[1..] ==> m in matched;
      Max(scores[matched[0]], SetupScore(matched[1..], scores))
  }

  /** Scoring looks every matched setup up, and the candidate rejects a component outside 0..100. */
  predicate Scorable(r: Result) {
    && (forall m :: m in r.matched ==> m in r.scores)
    && 0.0 <= SetupScore(r.matched, r.scores) <= 100.0
  }

  function Score(r: Result, threshold: real): Candidate {
    var sma20, sma60 := Metric(r.metrics, "sma20"), Metric(r.metrics, "sma60");
    var trend := LinearScore(if sma60 > 0.0 then (sma20 - sma60) / sma60 else 0.0, 0.0, 0.20);
    var setup := if Scorable(r) then SetupScore(r.matched, r.scores) else 0.0;
    var value := Metric(r.metrics, "average_trading_value_20");
    var liquidity := LinearScore(if threshold > 0.0 then value / threshold else 0.0, 1.0, 5.0);
    var volatility := VolatilityScore(Metric(r.metrics, "atr_pct"));
    Candidate(r.symbol, 1, TotalScore(trend, setup, liquidity, volatility), trend, setup, liquidity, volatility, r)
  }

  function Scorer(threshold: real): Result -> Candidate { (r: Result) => Score(r, threshold) }

  lemma {:induction false} SetupScoreIsMaximum(matched: seq<Setup>, scores: map<Setup, real>)
    requires matched != [] && forall m :: m in matched ==> m in scores
    ensures forall m :: m in matched ==> scores[m] <= SetupScore(matched, scores)
    ensures exists m :: m in matched && scores[m] == SetupScore(matched, scores)
  {
    assert matched == [matched[0]] + matched[1..];
    if |matched| == 1 {
      assert matched[0] in matched;
    } else {
      SetupScoreIsMaximum(matched[1..], scores);
      var m :| m in matched[1..] && scores[m] == SetupScore(matched[1..], scores);
      var best := if scores[matched[0]] >= scores[m] then matched[0] else m;
      assert best in matched && scores[best] == SetupScore(matched, scores);
    }
  }

  /** The setup component of a result is the score of its primary setup, the first in the setup order
      among the matched ones with the highest score. */
  lemma SetupIsPrimaryScore(symbol: string, common: bool, metrics: map<string, real>, evaluations: Setup -> Evaluation)
    ensures var r := Evaluate(symbol, common, metrics, evaluations);
      && (r.passed <==> common && exists s :: evaluations(s).matched)
      && (r.passed <==> r.primary.Some?)
      && (r.passed ==> var p := r.primary.value;
            p in r.scores && SetupScore(r.matched, r.scores) == r.scores[p] == evaluations(p).Score()
            && forall s :: s in r.matched && s != p ==>
                 r.scores[s] < r.scores[p] || (r.scores[s] == r.scores[p] && Index(p) < Index(s)))
  {
    var r := Evaluate(symbol, common, metrics, evaluations);
    EvaluateMatches(symbol, common, metrics, evaluations);
    hide Matched, SetupScore, Primary;
    if r.passed {
      assert r.matched[0] in r.matched;
      SetupScoreIsMaximum(r.matched, r.scores);
      forall s | s in r.matched && s != r.primary.value ensures Index(s) != Index(r.primary.value) {}
    }
  }

  lemma EvaluateMatches(symbol: string, common: bool, metrics: map<string, real>, evaluations: Setup -> Evaluation)
    ensures var r := Evaluate(symbol, common, metrics, evaluations);
      forall s :: s in r.matched <==> evaluations(s).matched && common
  {
    forall s ensures s in SETUP_ORDER { EverySetup(s); }
  }

  /** Evaluated results are never refused by the scoring. */
  lemma EvaluatedIsScorable(symbol: string, common: bool, metrics: map<string, real>, evaluations: Setup -> Evaluation)
    ensures Scorable(Evaluate(symbol, common, metrics, evaluations))
  {
    var r := Evaluate(symbol, common, metrics, evaluations);
    hide Matched, Primary;
    if r.matched != [] {
      SetupScoreIsMaximum(r.matched, r.scores);
      hide SetupScore;
    }
  }

  lemma EverySetup(s: Setup)
    ensures s in SETUP_ORDER
  {
    assert SETUP_ORDER[Index(s)] == s;
  }

  // ---- the order ----

  /** The tie-breaking index; a result without a primary setup sorts like the last setup. */
  function PrimaryIndex(c: Candidate): nat {
    if c.source.primary.Some? then Index(c.source.primary.value) else 2
  }

  /** Descending total, descending setup score, setup order, symbol. */
  predicate KeyLeq(a: Candidate, b: Candidate) {
    || a.total > b.total
    || (a.total == b.total
        && (|| a.setup > b.setup
            || (a.setup == b.setup
                && (|| PrimaryIndex(a) < PrimaryIndex(b)
                    || (PrimaryIndex(a) == PrimaryIndex(b) && StrLeq(a.symbol, b.symbol))))))
  }

  lemma KeyLeqIsTotalPreorder()
    ensures TotalPreorder(KeyLeq)
  {
    StrLeqIsTotalPreorder();
    hide StrLeq;
  }

  lemma TiesShareSymbol(a: Candidate, b: Candidate)
    requires KeyLeq(a, b) && KeyLeq(b, a)
    ensures a.symbol == b.symbol
  {
    StrLeqAntisymmetric(a.symbol, b.symbol);
  }

  // ---- the ranker ----

  datatype Rejection = NotPassed | BlankSymbol | DuplicateSymbol | Unscorable

  datatype Outcome = Ranked(candidates: seq<Candidate>) | Rejected(index: nat, reason: Rejection)

  /** Why the request stops at position `i`, if it does. */
  function RejectionAt(results: seq<Result>, i: nat): Option<Rejection>
    requires i < |results|
  {
    if !results[i].passed then Some(NotPassed)
    else if Watchlist.Blank(results[i].symbol) then Some(BlankSymbol)
    else if exists j :: 0 <= j < i && results[j].symbol == results[i].symbol then Some(DuplicateSymbol)
    else None
  }

  predicate DistinctBy<T>(s: seq<T>, key: T -> string) {
    forall i, j :: 0 <= i < j < |s| ==> key(s[i]) != key(s[j])
  }

  function ResultSymbol(r: Result): string { r.symbol }

  function CandidateSymbol(c: Candidate): string { c.symbol }

  predicate Distinct(results: seq<Result>) { DistinctBy(results, ResultSymbol) }

  predicate ValidRequest(results: seq<Result>) {
    (forall r :: r in results ==> r.passed && !Watchlist.Blank(r.symbol)) && Distinct(results)
  }

  lemma ValidSnoc(front: seq<Result>, r: Result)
    requires ValidRequest(front) && r.passed && !Watchlist.Blank(r.symbol)
    requires forall j :: 0 <= j < |front| ==> front[j].symbol != r.symbol
    ensures ValidRequest(front + [r])
  {
    hide Watchlist.Blank;
  }

  /** Checks the results one by one, growing the set of symbols seen. */
  method ValidateRequest(results: seq<Result>) returns (rejected: Option<(nat, Rejection)>)
    ensures rejected.None? <==> ValidRequest(results)
    ensures rejected.Some? ==> var (k, reason) := rejected.value;
      k < |results| && RejectionAt(results, k) == Some(reason) &&
        forall j :: 0 <= j < k ==> RejectionAt(results, j).None?
  {
    hide Watchlist.Blank;
    var seen: set<string> := {};
    for i := 0 to |results|
      invariant seen == set j | 0 <= j < i :: results[j].symbol
      invariant ValidRequest(results[..i])
      invariant forall j :: 0 <= j < i ==> RejectionAt(results, j).None?
    {
      var result := results[i];
      assert results[..i + 1] == results[..i] + [result];
      assert result in results;
      if !result.passed {
        return Some((i, NotPassed));
      }
      if Watchlist.Blank(result.symbol) {
        return Some((i, BlankSymbol));
      }
      if result.symbol in seen {
        return Some((i, DuplicateSymbol));
      }
      ValidSnoc(results[..i], result);
      seen := seen + {result.symbol};
    }
    assert results[..|results|] == results;
    return None;
  }

  /** Ranks one, two, three, and so on, in the order given. */
  function Numbered(s: seq<Candidate>): (r: seq<Candidate>)
    ensures |r| == |s| && forall i :: 0 <= i < |s| ==> r[i] == s[i].(rank := i + 1)
  {
    seq(|s|, i requires 0 <= i < |s| => s[i].(rank := i + 1))
  }

  function RankedList(results: seq<Result>, threshold: real): seq<Candidate> {
    Numbered(Sort(Map(results, Scorer(threshold)), KeyLeq))
  }

  predicate AllScorable(results: seq<Result>) { forall r :: r in results ==> Scorable(r) }

  method Rank(results: seq<Result>, threshold: real) returns (outcome: Outcome)
    ensures outcome.Ranked? <==> ValidRequest(results) && AllScorable(results)
    ensures outcome.Ranked? ==> outcome.candidates == RankedList(results, threshold)
    ensures outcome.Rejected? && outcome.reason != Unscorable ==>
      outcome.index < |results| && RejectionAt(results, outcome.index) == Some(outcome.reason)
      && forall j :: 0 <= j < outcome.index ==> RejectionAt(results, j).None?
    ensures outcome.Rejected? && outcome.reason == Unscorable ==>
      ValidRequest(results) && outcome.index < |results| && !Scorable(results[outcome.index])
      && AllScorable(results[..outcome.index])
  {
    hide ValidRequest, Scorable, Score, Sorted;
    var rejected := ValidateRequest(results);
    if rejected.Some? {
      return Rejected(rejected.value.0, rejected.value.1);
    }
    var scored: seq<Candidate> := [];
    for i := 0 to |results|
      invariant scored == Map(results[..i], Scorer(threshold))
      invariant AllScorable(results[..i])
    {
      if !Scorable(results[i]) {
        return Rejected(i, Unscorable);
      }
      scored := scored + [Score(results[i], threshold)];
      assert results[..i + 1] == results[..i] + [results[i]];
    }
    assert results[..|results|] == results;
    scored := Sort(scored, KeyLeq);
    var ranked: seq<Candidate> := [];
    for rank := 1 to |scored| + 1
      invariant |ranked| == rank - 1 && forall i :: 0 <= i < rank - 1 ==> ranked[i] == scored[i].(rank := i + 1)
    {
      ranked := ranked + [scored[rank - 1].(rank := rank)];
    }
    assert ranked == Numbered(scored);
    return Ranked(ranked);
  }

  // ---- independence of the input order ----

  lemma MapWithout(b: seq<Result>, j: nat, f: Result -> Candidate)
    requires j < |b|
    ensures multiset(Map(b, f)) == multiset(Map(Without(b, j), f)) + multiset{f(b[j])}
  {
    WithoutElements(Map(b, f), j);
    assert Map(Without(b, j), f) == Without(Map(b, f), j);
  }

  lemma {:induction false} MapPermutation(a: seq<Result>, b: seq<Result>, f: Result -> Candidate)
    requires multiset(a) == multiset(b)
    ensures multiset(Map(a, f)) == multiset(Map(b, f))
    decreases |a|
  {
    SameElements(a, b);
    if a != [] {
      assert a[0] in b;
      var j :| 0 <= j < |b| && b[j] == a[0];
      WithoutElements(a, 0);
      WithoutElements(b, j);
      hide Map, Without;
      MapPermutation(Without(a, 0), Without(b, j), f);
      MapWithout(a, 0, f);
      MapWithout(b, j, f);
    } else {
      assert b == [];
    }
  }

  lemma DistinctPermutation<T>(a: seq<T>, b: seq<T>, key: T -> string)
    requires multiset(a) == multiset(b) && DistinctBy(a, key)
    ensures DistinctBy(b, key)
  {
    SameElements(a, b);
    forall i, j | 0 <= i < j < |b| ensures key(b[i]) != key(b[j]) {
      if key(b[i]) == key(b[j]) {
        assert b[i] in a && b[j] in a;
        assert b[i] == b[j];
        assert b == b[..j] + [b[j]] + b[j + 1..] && b[i] in b[..j];
        assert multiset(b)[b[i]] >= 2;
        OnceWhenDistinct(a, key, b[i]);
      }
    }
  }

  lemma {:induction false} OnceWhenDistinct<T>(a: seq<T>, key: T -> string, x: T)
    requires DistinctBy(a, key)
    ensures multiset(a)[x] <= 1
  {
    if a != [] {
      OnceWhenDistinct(a[1..], key, x);
      TailElements(a);
      forall k | 0 <= k < |a[1..]| ensures a[1..][k] != a[0] {
        assert key(a[0]) != key(a[k + 1]);
      }
    }
  }

  lemma ScoredHaveNoTies(results: seq<Result>, threshold: real)
    requires Distinct(results)
    ensures NoTies(Map(results, Scorer(threshold)), KeyLeq)
  {
    var s := Map(results, Scorer(threshold));
    hide KeyLeq, Score;
    forall x, y | x in s && y in s && KeyLeq(x, y) && KeyLeq(y, x) ensures x == y {
      TiesShareSymbol(x, y);
      var i :| 0 <= i < |s| && s[i] == x;
      var j :| 0 <= j < |s| && s[j] == y;
      ScoreKeepsSymbol(results[i], threshold);
      ScoreKeepsSymbol(results[j], threshold);
    }
  }

  lemma ScoreKeepsSymbol(r: Result, threshold: real)
    ensures Score(r, threshold).symbol == r.symbol && Score(r, threshold).source == r && Score(r, threshold).rank == 1
  {}

  /** Any arrangement of the same results is accepted alike and ranked the same. */
  lemma RankingIgnoresOrder(a: seq<Result>, b: seq<Result>, threshold: real)
    requires multiset(a) == multiset(b)
    ensures ValidRequest(a) && AllScorable(a) <==> ValidRequest(b) && AllScorable(b)
    ensures ValidRequest(a) ==> RankedList(a, threshold) == RankedList(b, threshold)
  {
    SameElements(a, b);
    if Distinct(a) { DistinctPermutation(a, b, ResultSymbol); }
    if Distinct(b) { DistinctPermutation(b, a, ResultSymbol); }
    if ValidRequest(a) {
      KeyLeqIsTotalPreorder();
      MapPermutation(a, b, Scorer(threshold));
      ScoredHaveNoTies(a, threshold);
      SortPermutation(Map(a, Scorer(threshold)), Map(b, Scorer(threshold)), KeyLeq);
    }
  }

  // ---- the cut-off ----

  function Qualifies(minimum: real): Candidate -> bool { (c: Candidate) => c.total >= minimum }

  function Qualified(ranked: seq<Candidate>, minimum: real): seq<Candidate> { Filter(ranked, Qualifies(minimum)) }

  function Cut(ranked: seq<Candidate>, minimum: real, maximum: nat): seq<Candidate> {
    var qualified := Qualified(ranked, minimum);
    if maximum < |qualified| then qualified[..maximum] else qualified
  }

  /** The rows of a list of ranked candidates. */
  function Entries(ranked: seq<Candidate>): (r: seq<Watchlist.Entry>)
    ensures |r| == |ranked|
    ensures forall i :: 0 <= i < |r| ==> r[i] == Watchlist.Entry(ranked[i].symbol, ranked[i].rank, ranked[i].total)
  {
    seq(|ranked|, i requires 0 <= i < |ranked| => Watchlist.Entry(ranked[i].symbol, ranked[i].rank, ranked[i].total))
  }

  lemma {:induction false} FilterIsPrefix<T(!new)>(s: seq<T>, p: T -> bool)
    requires forall i, j :: 0 <= i < j < |s| && p(s[j]) ==> p(s[i])
    ensures Filter(s, p) == s[..|Filter(s, p)|]
  {
    if s != [] {
      FilterIsPrefix(s[1..], p);
      if !p(s[0]) { FilterNone(s[1..], p); }
    }
  }

  lemma {:induction false} FilterNone<T(!new)>(s: seq<T>, p: T -> bool)
    requires forall x :: x in s ==> !p(x)
    ensures Filter(s, p) == []
  {
    if s != [] { FilterNone(s[1..], p); }
  }

  lemma RankedListShape(results: seq<Result>, threshold: real)
    ensures var ranked := RankedList(results, threshold);
      && |ranked| == |results|
      && (forall i :: 0 <= i < |ranked| ==> ranked[i].rank == i + 1)
      && Sorted(ranked, KeyLeq)
  {
    KeyLeqIsTotalPreorder();
    var scored := Map(results, Scorer(threshold));
    SortSorts(scored, KeyLeq);
    var sorted, ranked := Sort(scored, KeyLeq), RankedList(results, threshold);
    hide StrLeq;
    forall i, j | 0 <= i < j < |ranked| ensures KeyLeq(ranked[i], ranked[j]) {
      assert KeyLeq(sorted[i], sorted[j]);
    }
  }

  /** The candidates at or above the minimum are a prefix of the ranking, and what is kept is its first
      `min(qualified, maximum)` items, ranked one to that number. */
  lemma CutIsPrefix(results: seq<Result>, threshold: real, minimum: real, maximum: nat)
    ensures var ranked := RankedList(results, threshold); var qualified := Qualified(ranked, minimum);
      var kept := Cut(ranked, minimum, maximum);
      && qualified == ranked[..|qualified|]
      && |kept| == (if |qualified| <= maximum then |qualified| else maximum)
      && kept == ranked[..|kept|]
      && forall i :: 0 <= i < |kept| ==> kept[i].rank == i + 1
  {
    RankedListShape(results, threshold);
    var ranked := RankedList(results, threshold);
    hide RankedList;
    FilterIsPrefix(ranked, Qualifies(minimum));
    var kept := Cut(ranked, minimum, maximum);
    assert kept == ranked[..|kept|];
  }

  lemma FullCut(ranked: seq<Candidate>, minimum: real, maximum: nat, c: Candidate)
    requires c in ranked && c.total >= minimum && c !in Cut(ranked, minimum, maximum)
    ensures |Cut(ranked, minimum, maximum)| == maximum
  {
    assert c in Qualified(ranked, minimum);
  }

  /** Nobody left out should have been kept: it misses the minimum, or the list is full of better ones. */
  lemma BestAreKept(results: seq<Result>, threshold: real, minimum: real, maximum: nat, c: Candidate)
    requires c in RankedList(results, threshold)
    ensures var kept := Cut(RankedList(results, threshold), minimum, maximum);
      c !in kept ==> c.total < minimum || (|kept| == maximum && forall k :: k in kept ==> KeyLeq(k, c))
  {
    RankedListShape(results, threshold);
    CutIsPrefix(results, threshold, minimum, maximum);
    var ranked := RankedList(results, threshold);
    var kept := Cut(ranked, minimum, maximum);
    var n := |kept|;
    hide RankedList, KeyLeq, Cut;
    var j :| 0 <= j < |ranked| && ranked[j] == c;
    assert j < n ==> c in kept by { if j < n { assert kept[j] == c; } }
    if c !in kept && c.total >= minimum {
      FullCut(ranked, minimum, maximum, c);
      forall k | k in kept ensures KeyLeq(k, c) {
        var i :| 0 <= i < n && kept[i] == k;
        assert ranked[i] == k;
      }
    }
  }

  lemma RankedNotBlank(results: seq<Result>, threshold: real, c: Candidate)
    requires ValidRequest(results) && c in RankedList(results, threshold)
    ensures !Watchlist.Blank(c.symbol)
  {
    hide Score;
    var scored := Map(results, Scorer(threshold));
    var sorted := Sort(scored, KeyLeq);
    SameElements(scored, sorted);
    var i :| 0 <= i < |sorted| && RankedList(results, threshold)[i] == c;
    assert sorted[i] in scored;
    var k :| 0 <= k < |scored| && scored[k] == sorted[i];
    ScoreKeepsSymbol(results[k], threshold);
    assert results[k] in results;
  }

  lemma RankedDistinct(results: seq<Result>, threshold: real)
    requires Distinct(results)
    ensures DistinctBy(RankedList(results, threshold), CandidateSymbol)
  {
    hide Score;
    var scored := Map(results, Scorer(threshold));
    forall i, j | 0 <= i < j < |scored| ensures CandidateSymbol(scored[i]) != CandidateSymbol(scored[j]) {
      ScoreKeepsSymbol(results[i], threshold);
      ScoreKeepsSymbol(results[j], threshold);
      assert ResultSymbol(results[i]) != ResultSymbol(results[j]);
    }
    var sorted, ranked := Sort(scored, KeyLeq), RankedList(results, threshold);
    DistinctPermutation(scored, sorted, CandidateSymbol);
    forall i, j | 0 <= i < j < |ranked| ensures CandidateSymbol(ranked[i]) != CandidateSymbol(ranked[j]) {
      assert CandidateSymbol(sorted[i]) != CandidateSymbol(sorted[j]);
    }
  }

  lemma EntriesAreValid(kept: seq<Candidate>)
    requires forall c :: c in kept ==> !Watchlist.Blank(c.symbol)
    requires DistinctBy(kept, CandidateSymbol) && forall i :: 0 <= i < |kept| ==> kept[i].rank == i + 1
    ensures Watchlist.ValidEntries(Entries(kept)) && Watchlist.Listed(Entries(kept)) == Entries(kept)
  {
    hide Watchlist.Blank, Entries;
    var entries := Entries(kept);
    assert Watchlist.DistinctSymbols(entries) by {
      forall i, j | 0 <= i < j < |entries| ensures entries[i].symbol != entries[j].symbol {
        assert CandidateSymbol(kept[i]) != CandidateSymbol(kept[j]);
      }
    }
    assert Watchlist.DistinctRanks(entries);
    hide Watchlist.DistinctRanks, Watchlist.DistinctSymbols;
    forall e | e in entries ensures !Watchlist.Blank(e.symbol) {
      var i :| 0 <= i < |entries| && entries[i] == e;
      assert kept[i] in kept;
    }
    hide DistinctBy;
    assert Sorted(entries, Watchlist.RankLeq);
    SortOfSorted(entries, Watchlist.RankLeq);
  }

  /** The list that is kept is always one the watchlist accepts, and reading it back gives it unchanged. */
  lemma CutIsValidWatchlist(results: seq<Result>, threshold: real, minimum: real, maximum: nat)
    requires ValidRequest(results)
    ensures var entries := Entries(Cut(RankedList(results, threshold), minimum, maximum));
      Watchlist.ValidEntries(entries) && Watchlist.Listed(entries) == entries
  {
    hide RankedList, Cut, Watchlist.Blank, Watchlist.ValidEntries, Watchlist.Listed, Entries;
    RankedDistinct(results, threshold);
    CutIsPrefix(results, threshold, minimum, maximum);
    var ranked := RankedList(results, threshold);
    var kept := Cut(ranked, minimum, maximum);
    forall c | c in kept ensures !Watchlist.Blank(c.symbol) {
      assert c in ranked;
      RankedNotBlank(results, threshold, c);
    }
    assert DistinctBy(ranked[..|kept|], CandidateSymbol);
    EntriesAreValid(kept);
  }

  // ---- candidates below the cut do not matter ----

  /** Sorting and then filtering is filtering and then sorting, without ties. */
  lemma FilterOfSort<T(!new)>(s: seq<T>, p: T -> bool, leq: (T, T) -> bool)
    requires TotalPreorder(leq) && NoTies(s, leq)
    ensures Filter(Sort(s, leq), p) == Sort(Filter(s, p), leq)
  {
    var a, b := Filter(Sort(s, leq), p), Sort(Filter(s, p), leq);
    SortSorts(s, leq);
    SortSorts(Filter(s, p), leq);
    FilterSorted(Sort(s, leq), p, leq);
    forall x ensures multiset(a)[x] == multiset(b)[x] {
      FilterMultiset(Sort(s, leq), p, x);
      FilterMultiset(s, p, x);
    }
    SameElements(s, Sort(s, leq));
    SortedUnique(a, b, leq);
  }

  lemma {:induction false} FilterOfMap(results: seq<Result>, f: Result -> Candidate, p: Candidate -> bool,
                                       q: Result -> bool)
    requires forall r :: q(r) == p(f(r))
    ensures Filter(Map(results, f), p) == Map(Filter(results, q), f)
  {
    if results != [] {
      FilterOfMap(results[1..], f, p, q);
      assert Map(results, f)[1..] == Map(results[1..], f);
    }
  }

  function ResultQualifies(threshold: real, minimum: real): Result -> bool {
    (r: Result) => Score(r, threshold).total >= minimum
  }

  lemma {:induction false} SameCount<T(!new)>(s: seq<T>, t: seq<T>, p: T -> bool)
    requires |s| == |t| && forall i :: 0 <= i < |s| ==> p(s[i]) == p(t[i])
    ensures |Filter(s, p)| == |Filter(t, p)|
  {
    if s != [] {
      forall i | 0 <= i < |s[1..]| ensures p(s[1..][i]) == p(t[1..][i]) { assert p(s[i + 1]) == p(t[i + 1]); }
      SameCount(s[1..], t[1..], p);
    }
  }

  /** Numbering a sorted list and then filtering it keeps the numbers. */
  lemma QualifiedNumbered(s: seq<Candidate>, minimum: real)
    requires Sorted(s, KeyLeq)
    ensures Qualified(Numbered(s), minimum) == Numbered(Qualified(s, minimum))
  {
    var p := Qualifies(minimum);
    forall i, j | 0 <= i < j < |s| && p(s[j]) ensures p(s[i]) { assert KeyLeq(s[i], s[j]); }
    FilterIsPrefix(s, p);
    FilterIsPrefix(Numbered(s), p);
    SameCount(s, Numbered(s), p);
    var n := |Filter(s, p)|;
    assert Numbered(s)[..n] == Numbered(s[..n]);
  }

  /** What is kept depends on the qualifying results only: the others change neither its members nor their ranks. */
  lemma UnqualifiedDoNotMatter(results: seq<Result>, threshold: real, minimum: real, maximum: nat)
    requires ValidRequest(results)
    ensures var qualifying := Filter(results, ResultQualifies(threshold, minimum));
      Cut(RankedList(results, threshold), minimum, maximum) == Cut(RankedList(qualifying, threshold), minimum, maximum)
  {
    hide Score, KeyLeq;
    var f, p, q := Scorer(threshold), Qualifies(minimum), ResultQualifies(threshold, minimum);
    var qualifying := Filter(results, q);
    var s, t := Sort(Map(results, f), KeyLeq), Sort(Map(qualifying, f), KeyLeq);
    KeyLeqIsTotalPreorder();
    ScoredHaveNoTies(results, threshold);
    FilterOfSort(Map(results, f), p, KeyLeq);
    FilterOfMap(results, f, p, q);
    assert Qualified(s, minimum) == t;
    SortSorts(Map(results, f), KeyLeq);
    SortSorts(Map(qualifying, f), KeyLeq);
    QualifiedNumbered(s, minimum);
    QualifiedNumbered(t, minimum);
    FilterAll(t, p);
  }
}
