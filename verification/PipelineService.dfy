/** One run of the daily pipeline: the stages in order, the ranking and cut-off, and what a run leaves
    behind in the tables whichever stage raises. */
module PipelineService {
  import opened Dates
  import opened Options
  import opened Watchlist
  import opened Pipeline
  import opened PipelineTables
  import opened PipelineProtocol
  import Ranking

  /** How entering a stage goes: it works, recording the stage raises, or its work raises afterwards. */
  datatype Fault = Works | NotRecorded | Raises

  /** A stage raises by itself, or because the ranker refuses the request. */
  predicate Raising(stage: Stage, faults: Stage -> Fault, accepted: bool) {
    faults(stage) != Works || (stage == CandidateRanking && !accepted)
  }

  /** The first stage that raises, from `stage` on. */
  function FirstRaising(stage: Stage, force: bool, faults: Stage -> Fault, accepted: bool): (r: Option<Stage>)
    ensures r.Some? ==> Raising(r.value, faults, accepted)
    decreases if stage == Completed then 0 else StagesLeft(stage) + 1
  {
    if stage == Completed then None
    else if Raising(stage, faults, accepted) then Some(stage)
    else FirstRaising(NextStage(stage, force), force, faults, accepted)
  }

  /** The stage at which a run fails, if it does. */
  function Failing(force: bool, faults: Stage -> Fault, accepted: bool): Option<Stage> {
    FirstRaising(NextStage(DuplicateCheck, force), force, faults, accepted)
  }

  lemma Proceeds(stage: Stage, force: bool, faults: Stage -> Fault, accepted: bool)
    requires stage != Completed
    ensures FirstRaising(stage, force, faults, accepted) ==
      if Raising(stage, faults, accepted) then Some(stage)
      else FirstRaising(NextStage(stage, force), force, faults, accepted)
  {}

  /** The two databases agree but for the recorded stage of one row. */
  predicate Staged(before: Database, now: Database, id: Id) {
    id in before.rows && id in now.rows && now == SetStage(before, id, now.rows[id].stage)
  }

  lemma StagedRow(before: Database, now: Database, id: Id)
    requires Staged(before, now, id)
    ensures id in before.rows && id in now.rows
  {}

  /** Only the transaction is left, and a completed run cannot fail any more. */
  lemma NothingAfterPersistence(force: bool, faults: Stage -> Fault)
    ensures FirstRaising(NextStage(WatchlistPersistence, force), force, faults, true) == None
  {}

  /** One acquisition, its running row being a latest one. */
  ghost predicate Acquires(db: Database, date: Date, trigger: Trigger, staleAfter: int, force: bool, at: Time,
                           after: Database, a: Acquisition) {
    exists running :: Queried(db.rows, date, Running, running)
      && (after, a) == Acquire(db, date, trigger, staleAfter, force, at, running, HasSuccess(db.rows, date))
  }

  lemma IsAcquisition(db: Database, date: Date, trigger: Trigger, staleAfter: int, force: bool, at: Time,
                      after: Database, a: Acquisition, running: Option<Id>)
    requires Queried(db.rows, date, Running, running)
    requires (after, a) == Acquire(db, date, trigger, staleAfter, force, at, running, HasSuccess(db.rows, date))
    ensures Acquires(db, date, trigger, staleAfter, force, at, after, a)
  {}

  lemma AcquiredRow(db: Database, date: Date, trigger: Trigger, staleAfter: int, force: bool, at: Time,
                    after: Database, id: Id)
    requires Acquires(db, date, trigger, staleAfter, force, at, after, Acquired(id))
    ensures id in after.rows && after.rows[id] == NewRow(date, trigger, at)
  {
    hide HasSuccess;
  }

  lemma StagedSame(db: Database, id: Id)
    requires id in db.rows
    ensures Staged(db, db, id)
  {}

  /** Finishing overwrites whatever stage was recorded. */
  lemma FailedRow(before: Database, now: Database, id: Id, stage: Stage, at: Time)
    requires Staged(before, now, id)
    ensures Finish(now, id, Failed, stage, at, None, Some(StageFailed(stage)))
        == Finish(before, id, Failed, stage, at, None, Some(StageFailed(stage)))
  {}

  predicate Accepted(results: seq<Ranking.Result>) { Ranking.ValidRequest(results) && Ranking.AllScorable(results) }

  datatype Config = Config(staleAfter: int, minimumScore: real, maximum: nat, liquidity: real)

  function Kept(c: Config, results: seq<Ranking.Result>): seq<Ranking.Candidate> {
    Ranking.Cut(Ranking.RankedList(results, c.liquidity), c.minimumScore, c.maximum)
  }

  function CountsOf(c: Config, screened: int, results: seq<Ranking.Result>): Counts {
    Counts(screened, |results|, |Ranking.Qualified(Ranking.RankedList(results, c.liquidity), c.minimumScore)|,
           c.minimumScore, |Kept(c, results)|)
  }

  /** What a run makes of the tables once it has acquired its row. */
  function Effect(db: Database, id: Id, date: Date, raising: Option<Stage>, c: Config, screened: int,
                  results: seq<Ranking.Result>, at: Time): Database
    requires id in db.rows
  {
    match raising
    case Some(stage) => Finish(db, id, Failed, stage, at, None, Some(StageFailed(stage)))
    case None => CommitSuccess(db, id, date, Ranking.Entries(Kept(c, results)), CountsOf(c, screened, results), at).0
  }

  lemma KeptShape(c: Config, results: seq<Ranking.Result>)
    requires Accepted(results)
    ensures var entries := Ranking.Entries(Kept(c, results));
      && ValidEntries(entries) && Listed(entries) == entries && |entries| == |Kept(c, results)| <= c.maximum
      && forall i :: 0 <= i < |entries| ==> entries[i].rank == i + 1 && entries[i].totalScore >= c.minimumScore
  {
    hide Ranking.RankedList, ValidEntries, Listed;
    Ranking.CutIsValidWatchlist(results, c.liquidity, c.minimumScore, c.maximum);
    Ranking.CutIsPrefix(results, c.liquidity, c.minimumScore, c.maximum);
    var kept := Kept(c, results);
    var qualified := Ranking.Qualified(Ranking.RankedList(results, c.liquidity), c.minimumScore);
    forall i | 0 <= i < |kept| ensures kept[i].total >= c.minimumScore {
      assert kept[i] == qualified[i] && qualified[i] in qualified;
    }
  }

  /** What a finished run leaves behind. A failure touches nothing but its own row; a success also replaces
      the list of its date by the kept candidates, in rank order from one, none below the minimum, and as
      many as its row says were persisted. */
  lemma WhatARunLeaves(db: Database, id: Id, date: Date, raising: Option<Stage>, c: Config, screened: int,
                       results: seq<Ranking.Result>, at: Time)
    requires id in db.rows && (raising.None? ==> Accepted(results))
    ensures var after := Effect(db, id, date, raising, c, screened, results, at);
      && id in after.rows && (forall i :: i in db.rows && i != id ==> i in after.rows && after.rows[i] == db.rows[i])
      && after.rows.Keys == db.rows.Keys && after.nextId == db.nextId
      && (raising.Some? ==>
            && after.watchlist == db.watchlist && after.rows[id].status == Failed
            && after.rows[id].stage == raising.value && after.rows[id].error == Some(StageFailed(raising.value)))
      && (raising.None? ==>
            && date in after.watchlist && after.watchlist - {date} == db.watchlist - {date}
            && after.rows[id].status == Succeeded && after.rows[id].counts.Some?
            && after.rows[id].counts.value.persisted == |after.watchlist[date]| <= c.maximum
            && Listed(after.watchlist[date]) == after.watchlist[date] == Ranking.Entries(Kept(c, results))
            && forall i :: 0 <= i < |after.watchlist[date]| ==>
                 after.watchlist[date][i].rank == i + 1 && after.watchlist[date][i].totalScore >= c.minimumScore)
  {
    hide Kept, Ranking.Qualified, Ranking.RankedList, Ranking.Entries, ValidEntries, Listed, Accepted;
    if raising.None? { KeptShape(c, results); }
  }

  datatype RunResult =
    | SkippedWeekend
    | Refused(a: Acquisition)
    | Finished(id: Id, status: Status, stage: Stage)

  /** One call of the service, with what happens to it on the way. */
  datatype Call = Call(
    date: Date,
    trigger: Trigger,
    force: bool,
    started: Time,
    ended: Time,
    faults: Stage -> Fault,
    screened: int,
    results: seq<Ranking.Result>)
  {
    ghost predicate AcquiresFrom(c: Config, before: Database, after: Database, a: Acquisition) {
      Acquires(before, date, trigger, c.staleAfter, force, started, after, a)
    }

    function FirstFault(): Option<Stage> { Failing(force, faults, Accepted(results)) }

    function EffectOn(c: Config, acquired: Database, id: Id): Database
      requires id in acquired.rows
    {
      Effect(acquired, id, date, FirstFault(), c, screened, results, ended)
    }
  }

  /** What a call leaves: nothing on a weekend, what the acquisition leaves when it refuses, and otherwise
      the acquired row finished once, with the list or with the first stage that raised. */
  ghost predicate Ran(call: Call, c: Config, before: Database, acquired: Database, after: Database, r: RunResult) {
    match r
    case SkippedWeekend => Weekend(call.date) && after == before
    case Refused(a) => !Weekend(call.date) && !a.Acquired? && call.AcquiresFrom(c, before, after, a)
    case Finished(id, status, stage) =>
      && !Weekend(call.date) && call.AcquiresFrom(c, before, acquired, Acquired(id))
      && id in acquired.rows && acquired.rows[id] == NewRow(call.date, call.trigger, call.started)
      && after == call.EffectOn(c, acquired, id)
      && status == (if call.FirstFault().Some? then Failed else Succeeded)
      && stage == (if call.FirstFault().Some? then call.FirstFault().value else Completed)
  }

  class DailyWatchlistPipeline {
    const store: PipelineStore
    const config: Config

    constructor (store: PipelineStore, config: Config)
      ensures this.store == store && this.config == config
    {
      this.store, this.config := store, config;
    }

    /** Records the stage and does its work, unless one of the two raises. */
    method Enter(id: Id, stage: Stage, fault: Fault, ghost before: Database) returns (ok: bool)
      requires Staged(before, store.View(), id)
      modifies store
      ensures ok <==> fault == Works
      ensures Staged(before, store.View(), id) && id in old(store.rows)
      ensures store.View() == if fault == NotRecorded then old(store.View()) else SetStage(old(store.View()), id, stage)
    {
      if fault == NotRecorded {
        return false;
      }
      var found := store.SetStage(id, stage);
      return fault == Works;
    }

    /** The stages up to the ranking; `stage` is the one reached, where a failure is charged. */
    method Analyse(id: Id, force: bool, faults: Stage -> Fault, results: seq<Ranking.Result>)
      returns (ok: bool, stage: Stage, ranked: seq<Ranking.Candidate>)
      requires id in store.rows
      modifies store
      ensures Staged(old(store.View()), store.View(), id)
      ensures !ok ==> Failing(force, faults, Accepted(results)) == Some(stage)
      ensures ok ==>
        Failing(force, faults, Accepted(results)) ==
          FirstRaising(WatchlistPersistence, force, faults, Accepted(results))
      ensures ok ==> Accepted(results) && ranked == Ranking.RankedList(results, config.liquidity)
    {
      hide Staged, SetStage, Ranking.RankedList, Ranking.ValidRequest, Ranking.AllScorable, FirstRaising;
      ranked := [];
      ghost var before, accepted := store.View(), Accepted(results);
      assert Staged(before, before, id) by { StagedSame(before, id); }
      stage := if force then IndicatorCalculation else MarketSync;
      Proceeds(stage, force, faults, accepted);
      if !force {
        ok := Enter(id, stage, faults(stage), before);
        if !ok { return; }
      }
      stage := IndicatorCalculation;
      Proceeds(stage, force, faults, accepted);
      ok := Enter(id, stage, faults(stage), before);
      if !ok { return; }
      stage := Screening;
      Proceeds(stage, force, faults, accepted);
      ok := Enter(id, stage, faults(stage), before);
      if !ok { return; }
      stage := CandidateScanning;
      Proceeds(stage, force, faults, accepted);
      ok := Enter(id, stage, faults(stage), before);
      if !ok { return; }
      stage := CandidateRanking;
      Proceeds(stage, force, faults, accepted);
      ok := Enter(id, stage, faults(stage), before);
      if !ok { return; }
      var outcome := Ranking.Rank(results, config.liquidity);
      if outcome.Rejected? {
        ok := false;
        return;
      }
      ranked := outcome.candidates;
    }

    /** The last stage: the cut-off and the transaction. */
    method Persist(id: Id, date: Date, fault: Fault, screened: int, results: seq<Ranking.Result>,
                   ranked: seq<Ranking.Candidate>, at: Time, ghost before: Database)
      returns (ok: bool)
      requires Staged(before, store.View(), id)
      requires Accepted(results) && ranked == Ranking.RankedList(results, config.liquidity)
      modifies store
      ensures ok <==> fault == Works
      ensures !ok ==> Staged(before, store.View(), id)
      ensures ok ==> store.View() == Effect(before, id, date, None, config, screened, results, at)
    {
      hide Ranking.RankedList, Ranking.Cut, Ranking.Qualified, Ranking.Entries,
          Ranking.ValidRequest, Ranking.AllScorable, ValidEntries;
      ok := Enter(id, WatchlistPersistence, fault, before);
      if !ok { return; }
      var qualified := Ranking.Qualified(ranked, config.minimumScore);
      var kept := Ranking.Cut(ranked, config.minimumScore, config.maximum);
      Ranking.CutIsValidWatchlist(results, config.liquidity, config.minimumScore, config.maximum);
      var counts := Counts(screened, |results|, |qualified|, config.minimumScore, |kept|);
      ok := store.CommitSuccess(id, date, Ranking.Entries(kept), counts, at);
    }

    /** What follows an acquisition: the stages and the transaction, or the failure that any exception
        on the way turns into. */
    method Work(id: Id, date: Date, force: bool, faults: Stage -> Fault, screened: int, results: seq<Ranking.Result>,
                at: Time)
      returns (status: Status, stage: Stage)
      requires id in store.rows
      modifies store
      ensures var raising := Failing(force, faults, Accepted(results));
        && store.View() == Effect(old(store.View()), id, date, raising, config, screened, results, at)
        && status == (if raising.Some? then Failed else Succeeded)
        && stage == (if raising.Some? then raising.value else Completed)
    {
      hide Staged, Ranking.RankedList, Ranking.ValidRequest, Ranking.AllScorable, FirstRaising, CommitSuccess, Finish,
        Failing;
      ghost var before := store.View();
      var ok, ranked;
      ok, stage, ranked := Analyse(id, force, faults, results);
      if ok {
        stage := WatchlistPersistence;
        Proceeds(stage, force, faults, true);
        NothingAfterPersistence(force, faults);
        ok := Persist(id, date, faults(stage), screened, results, ranked, at, before);
      }
      if ok {
        return Succeeded, Completed;
      }
      FailedRow(before, store.View(), id, stage, at);
      StagedRow(before, store.View(), id);
      var found := store.Finish(id, Failed, stage, at, None, Some(StageFailed(stage)));
      return Failed, stage;
    }

    /** A whole run with nobody in between: skipped, refused, or acquired and then finished once, as a
        success with the list or as a failure charged to the first stage that raises. */
    method Run(date: Date, trigger: Trigger, force: bool, started: Time, ended: Time, faults: Stage -> Fault,
               screened: int, results: seq<Ranking.Result>)
      returns (r: RunResult, ghost acquired: Database)
      requires forall i :: i in store.rows ==> 0 <= i < store.nextId
      modifies store
      ensures var call := Call(date, trigger, force, started, ended, faults, screened, results);
        Ran(call, config, old(store.View()), acquired, store.View(), r)
    {
      hide Effect, Failing, Accepted, Acquires, NewRow, Pipeline.Acquire, Queried, Weekend;
      ghost var before := store.View();
      acquired := before;
      if Weekend(date) {
        return SkippedWeekend, acquired;
      }
      var a, recovered, execution;
      ghost var running;
      a, recovered, execution, running := store.Acquire(date, trigger, config.staleAfter, force, started);
      acquired := store.View();
      IsAcquisition(before, date, trigger, config.staleAfter, force, started, acquired, a, running);
      if !a.Acquired? {
        return Refused(a), acquired;
      }
      AcquiredRow(before, date, trigger, config.staleAfter, force, started, acquired, a.id);
      var status, stage := Work(a.id, date, force, faults, screened, results, ended);
      return Finished(a.id, status, stage), acquired;
    }
  }
}
