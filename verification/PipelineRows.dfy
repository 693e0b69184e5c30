/** What single transactions of the daily pipeline decide and record: the outcome of an acquisition, the
    stage a failed run is charged with, and the row that a finished run leaves. */
module PipelineRows {
  import opened Options
  import opened Ordering
  import opened Watchlist
  import opened Pipeline
  import opened PipelineProtocol
  import opened PipelineService

  /** The sixth and the seventh day of every week, day one being a Monday. */
  lemma WeekendMeaning(date: int)
    ensures Weekend(date) <==> date % 7 == 6 || date % 7 == 0
  {}

  // ---- acquisition ----

  /** A running row that is not older than the timeout. */
  predicate Fresh(db: Database, running: Option<Id>, staleAfter: int, now: Time)
    requires running.Some? ==> running.value in db.rows
  {
    running.Some? && now - db.rows[running.value].startedAt <= staleAfter
  }

  /** The first of four refusals, or an acquisition. */
  lemma AcquireDecision(db: Database, date: int, trigger: Trigger, staleAfter: int, force: bool, now: Time,
                        running: Option<Id>, succeeded: bool)
    requires running.Some? ==> running.value in db.rows
    ensures var (_, a) := Acquire(db, date, trigger, staleAfter, force, now, running, succeeded);
      var free := 0 < staleAfter && !Fresh(db, running, staleAfter, now);
      && (a.InvalidTimeout? <==> staleAfter <= 0)
      && (a.AlreadyRunning? <==> 0 < staleAfter && Fresh(db, running, staleAfter, now))
      && (a.AlreadyCompleted? <==> free && succeeded && !force)
      && (a.PriorSuccessRequired? <==> free && !succeeded && force)
      && (a.Acquired? <==> free && (succeeded <==> force))
  {}

  /** A stale running row is closed as failed in any case that is not refused for the timeout; an acquisition
      adds one running row under a new id; nothing else changes. */
  lemma AcquireEffect(db: Database, date: int, trigger: Trigger, staleAfter: int, force: bool, now: Time,
                      running: Option<Id>, succeeded: bool)
    requires (running.Some? ==> running.value in db.rows) && db.nextId !in db.rows
    ensures var (after, a) := Acquire(db, date, trigger, staleAfter, force, now, running, succeeded);
      && after.watchlist == db.watchlist
      && after.rows.Keys == db.rows.Keys + (if a.Acquired? then {db.nextId} else {})
      && after.nextId == db.nextId + (if a.Acquired? then 1 else 0)
      && (a.Acquired? ==>
            a.id == db.nextId && after.rows[a.id] == Row(date, trigger, Running, DuplicateCheck, now, None, None, None))
      && (forall i :: i in db.rows && (running != Some(i) || staleAfter <= 0 || Fresh(db, running, staleAfter, now)) ==>
            after.rows[i] == db.rows[i])
      && (running.Some? && 0 < staleAfter && !Fresh(db, running, staleAfter, now) ==>
            var stale := db.rows[running.value];
            after.rows[running.value]
              == stale.(status := Failed, finishedAt := Some(now), error := Some(StaleExecutionRecovered)))
  {}

  // ---- the stage that fails ----

  /** The stages a run records, in order; a reanalysis does not synchronise the market. */
  function Plan(force: bool): seq<Stage> {
    (if force then [] else [MarketSync])
    + [IndicatorCalculation, Screening, CandidateScanning, CandidateRanking, WatchlistPersistence]
  }

  /** A stage stops the run: it cannot be recorded, its work raises, or the ranker refuses the request. */
  predicate Stops(call: Call, stage: Stage) {
    call.faults(stage) != Works || (stage == CandidateRanking && !Accepted(call.results))
  }

  /** The `i`-th stage of the plan is the first one that stops the run. */
  ghost predicate StopsFirst(call: Call, i: int, from: int) {
    && 0 <= from <= i < |Plan(call.force)| && Stops(call, Plan(call.force)[i])
    && forall j :: from <= j < i ==> !Stops(call, Plan(call.force)[j])
  }

  /** A run fails at the first stage of its plan that stops it, and at none if none does. */
  lemma FirstFaultMeaning(call: Call)
    ensures var plan := Plan(call.force);
      match call.FirstFault()
      case None => forall i :: 0 <= i < |plan| ==> !Stops(call, plan[i])
      case Some(stage) => exists i :: StopsFirst(call, i, 0) && plan[i] == stage
  {
    FaultFrom(call, 0);
    assert NextStage(DuplicateCheck, call.force) == Plan(call.force)[0];
    hide Accepted, FirstRaising, Stops, StopsFirst;
  }

  lemma PlanNext(force: bool, k: int)
    requires 0 <= k < |Plan(force)|
    ensures Plan(force)[k] != Completed
    ensures NextStage(Plan(force)[k], force) == if k + 1 < |Plan(force)| then Plan(force)[k + 1] else Completed
  {}

  lemma {:induction false} FaultFrom(call: Call, k: int)
    requires 0 <= k <= |Plan(call.force)|
    ensures var plan := Plan(call.force);
      var r := FirstRaising(if k < |plan| then plan[k] else Completed, call.force, call.faults, Accepted(call.results));
      match r
      case None => forall i :: k <= i < |plan| ==> !Stops(call, plan[i])
      case Some(stage) => exists i :: StopsFirst(call, i, k) && plan[i] == stage
    decreases |Plan(call.force)| - k
  {
    var plan, accepted := Plan(call.force), Accepted(call.results);
    hide Accepted, FirstRaising, Plan;
    if k < |plan| {
      PlanNext(call.force, k);
      Proceeds(plan[k], call.force, call.faults, accepted);
      var next := k + 1;
      FaultFrom(call, next);
      assert Stops(call, plan[k]) <==> Raising(plan[k], call.faults, accepted);
      if Stops(call, plan[k]) {
        assert StopsFirst(call, k, k);
      } else if i :| StopsFirst(call, i, next) {
        assert StopsFirst(call, i, k);
      }
    } else {
      NothingLeft(call.force, call.faults, accepted);
    }
  }

  lemma NothingLeft(force: bool, faults: Stage -> Fault, accepted: bool)
    ensures FirstRaising(Completed, force, faults, accepted) == None
  {}

  // ---- the row of a finished run ----

  /** What a successful run counts: everything screened, the candidates that were ranked, those that reach the
      minimum, and those kept. */
  ghost predicate CountsAre(n: Counts, c: Config, screened: int, results: seq<Ranking.Result>) {
    var ranked := Ranking.RankedList(results, c.liquidity);
    && n.screened == screened && n.candidates == |results| == |ranked|
    && n.qualified == |AtLeast(ranked, c.minimumScore)|
    && n.threshold == c.minimumScore
    && n.persisted == if n.qualified < c.maximum then n.qualified else c.maximum
  }

  /** A finished run keeps date, trigger and start of its row; a failure records its stage and its error and no
      counts, a success records its counts and no error. */
  lemma FinishedRowMeaning(call: Call, c: Config, acquired: Database, id: Id)
    requires id in acquired.rows && (call.FirstFault().None? ==> Accepted(call.results))
    ensures var after := call.EffectOn(c, acquired, id);
      && id in after.rows
      && var old_, row := acquired.rows[id], after.rows[id];
         && row.date == old_.date && row.trigger == old_.trigger && row.startedAt == old_.startedAt
         && row.finishedAt == Some(call.ended)
         && match call.FirstFault()
            case Some(stage) =>
              row.status == Failed && row.stage == stage && row.counts == None && row.error == Some(StageFailed(stage))
            case None =>
              && row.status == Succeeded && row.stage == Completed && row.error == None
              && row.counts.Some? && CountsAre(row.counts.value, c, call.screened, call.results)
  {
    hide Accepted, Failing, CountsAre;
    if call.FirstFault().None? {
      CountsMeaning(c, call.screened, call.results);
      KeptShape(c, call.results);
    }
    hide Kept, CountsOf, ValidEntries;
  }

  /** The list has the best ranked candidates that reach the minimum, each with its own symbol, place and total. */
  ghost predicate IsBest(list: seq<Entry>, c: Config, ranked: seq<Ranking.Candidate>) {
    && |list| <= |ranked| && |list| <= c.maximum
    && (|list| < |ranked| ==> |list| == c.maximum || ranked[|list|].total < c.minimumScore)
    && forall i :: 0 <= i < |list| ==>
         && list[i].symbol == ranked[i].symbol && list[i].rank == i + 1
         && list[i].totalScore == ranked[i].total >= c.minimumScore
  }

  lemma KeptIsBest(c: Config, results: seq<Ranking.Result>)
    requires Accepted(results)
    ensures IsBest(Ranking.Entries(Kept(c, results)), c, Ranking.RankedList(results, c.liquidity))
  {
    hide Accepted, Ranking.RankedList, ValidEntries;
    var ranked := Ranking.RankedList(results, c.liquidity);
    KeptShape(c, results);
    Ranking.CutIsPrefix(results, c.liquidity, c.minimumScore, c.maximum);
    if |Ranking.Qualified(ranked, c.minimumScore)| < |ranked| { QualifiesNext(ranked, c.minimumScore); }
    hide Filter;
  }

  /** A successful run replaces the list of its date by the best ranked candidates. */
  lemma StoredListMeaning(call: Call, c: Config, acquired: Database, id: Id)
    requires id in acquired.rows && call.FirstFault().None? && Accepted(call.results)
    ensures var after := call.EffectOn(c, acquired, id);
      && call.date in after.watchlist && after.watchlist - {call.date} == acquired.watchlist - {call.date}
      && IsBest(after.watchlist[call.date], c, Ranking.RankedList(call.results, c.liquidity))
  {
    hide Accepted, Failing, Kept, IsBest;
    KeptShape(c, call.results);
    KeptIsBest(c, call.results);
    hide Ranking.RankedList, ValidEntries, Ranking.Entries;
  }

  lemma QualifiesNext(ranked: seq<Ranking.Candidate>, minimum: real)
    requires var q := Ranking.Qualified(ranked, minimum); q == ranked[..|q|] && |q| < |ranked|
    ensures ranked[|Ranking.Qualified(ranked, minimum)|].total < minimum
  {
    var q := Ranking.Qualified(ranked, minimum);
    var n := |q|;
    FilterConcat(ranked[..n], ranked[n..], Ranking.Qualifies(minimum));
    assert ranked == ranked[..n] + ranked[n..];
    FilterAll(ranked[..n], Ranking.Qualifies(minimum));
    assert Filter(ranked[n..], Ranking.Qualifies(minimum)) == [];
    assert ranked[n..][0] == ranked[n];
  }

  lemma CountsMeaning(c: Config, screened: int, results: seq<Ranking.Result>)
    ensures CountsAre(CountsOf(c, screened, results), c, screened, results)
  {
    var ranked := Ranking.RankedList(results, c.liquidity);
    Ranking.CutIsPrefix(results, c.liquidity, c.minimumScore, c.maximum);
    Ranking.RankedListShape(results, c.liquidity);
    hide Ranking.RankedList, Ranking.Cut, Filter;
    QualifiedCount(ranked, c.minimumScore);
  }

  ghost function AtLeast(ranked: seq<Ranking.Candidate>, minimum: real): set<int> {
    set i | 0 <= i < |ranked| && minimum <= ranked[i].total
  }

  lemma AtLeastSnoc(front: seq<Ranking.Candidate>, last: Ranking.Candidate, minimum: real)
    ensures |AtLeast(front + [last], minimum)| == |AtLeast(front, minimum)| + if minimum <= last.total then 1 else 0
  {
    var n := |front|;
    forall i ensures i in AtLeast(front + [last], minimum) <==>
      i in AtLeast(front, minimum) || (minimum <= last.total && i == n) {}
    assert AtLeast(front + [last], minimum) == AtLeast(front, minimum) + if minimum <= last.total then {n} else {};
  }

  lemma {:induction false} QualifiedCount(ranked: seq<Ranking.Candidate>, minimum: real)
    ensures |Ranking.Qualified(ranked, minimum)| == |AtLeast(ranked, minimum)|
    decreases |ranked|
  {
    if ranked != [] {
      var front, last := ranked[..|ranked| - 1], ranked[|ranked| - 1];
      assert ranked == front + [last];
      QualifiedCount(front, minimum);
      FilterSnoc(front, last, Ranking.Qualifies(minimum));
      AtLeastSnoc(front, last, minimum);
    }
  }
}
