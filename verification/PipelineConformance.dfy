/** A call of the service is a run of the protocol: its transactions are events of one worker, so what
    holds of every interleaving holds with calls of the service among the workers. */
module PipelineConformance {
  import opened Options
  import opened Watchlist
  import opened Pipeline
  import opened PipelineProtocol
  import opened PipelineService

  /** An event of a worker after its start. */
  predicate By(e: Event, id: Id) { !e.Start? && e.id == id }

  /** The second run is the first one followed by events of one worker. */
  ghost predicate Continued(states: seq<System>, events: seq<Event>, ss: seq<System>, es: seq<Event>, id: Id) {
    && IsRun(ss, es) && |ss| == |es| + 1 && |states| == |events| + 1 <= |ss|
    && ss[..|states|] == states && es[..|events|] == events
    && forall i :: |events| <= i < |es| ==> By(es[i], id)
  }

  lemma ContinuedTwice(states: seq<System>, events: seq<Event>, t: System, e: Event, ss: seq<System>,
                       es: seq<Event>, id: Id)
    requires |states| == |events| + 1 && By(e, id) && Continued(states + [t], events + [e], ss, es, id)
    ensures Continued(states, events, ss, es, id)
  {
    hide IsRun;
    assert (states + [t])[..|states|] == states && (events + [e])[..|events|] == events;
    assert ss[..|states|] == ss[..|states| + 1][..|states|] && es[..|events|] == es[..|events| + 1][..|events|];
    assert es[|events|] == es[..|events| + 1][|events|];
  }

  lemma ContinuedOnce(states: seq<System>, events: seq<Event>, t: System, e: Event, id: Id)
    requires IsRun(states, events) && Step(states[|events|], e, t) && By(e, id)
    ensures Continued(states, events, states + [t], events + [e], id)
  {
    Extend(states, events, e, t);
    hide Step;
  }

  /** Recording a stage first changes nothing about what a call leaves. */
  lemma StageForgotten(call: Call, c: Config, db: Database, id: Id, stage: Stage)
    requires id in db.rows && (call.FirstFault().None? ==> Accepted(call.results))
    ensures call.EffectOn(c, SetStage(db, id, stage), id) == call.EffectOn(c, db, id)
  {
    hide Failing, Accepted, ValidEntries, Kept, CountsOf;
    if call.FirstFault().None? { KeptIsValid(c, call.results); }
  }

  lemma KeptIsValid(c: Config, results: seq<Ranking.Result>)
    requires Accepted(results)
    ensures ValidEntries(Ranking.Entries(Kept(c, results)))
    ensures |Ranking.Entries(Kept(c, results))| == CountsOf(c, 0, results).persisted
  {
    hide Accepted, Kept, ValidEntries;
    KeptShape(c, results);
  }

  /** A worker about to enter its next stage, which with the rest of its work goes as in the call. */
  ghost predicate AtWork(s: System, id: Id, call: Call) {
    && id in s.workers && id in s.db.rows && s.workers[id].stage != Completed
    && s.workers[id].date == call.date && s.workers[id].forced == call.force
    && call.FirstFault() ==
      FirstRaising(NextStage(s.workers[id].stage, call.force), call.force, call.faults, Accepted(call.results))
    && (call.FirstFault().None? ==> Accepted(call.results))
  }

  /** The work of the call is done and its worker gone. */
  ghost predicate Done(s: System, t: System, id: Id, call: Call, c: Config)
    requires id in s.db.rows
  {
    t.db == call.EffectOn(c, s.db, id) && t.workers == s.workers - {id} && t.forced == s.forced
  }

  function CommitOf(call: Call, c: Config, id: Id): Event {
    Success(id, Ranking.Entries(Kept(c, call.results)), CountsOf(c, call.screened, call.results), call.ended)
  }

  lemma CommitIsStep(s: System, id: Id, call: Call, c: Config) returns (t: System)
    requires AtWork(s, id, call) && s.workers[id].stage == WatchlistPersistence
    ensures Step(s, CommitOf(call, c, id), t) && Done(s, t, id, call, c)
  {
    hide Accepted, Failing, Kept, ValidEntries;
    assert call.FirstFault() == None;
    KeptIsValid(c, call.results);
    var e := CommitOf(call, c, id);
    t := System(call.EffectOn(c, s.db, id), s.workers - {id}, s.forced, s.log + [Commit(call.date, id, e.entries)]);
  }

  lemma FailureIsStep(s: System, id: Id, call: Call, c: Config, stage: Stage) returns (t: System)
    requires id in s.workers && id in s.db.rows && call.FirstFault() == Some(stage)
    requires stage == s.workers[id].stage || stage == NextStage(s.workers[id].stage, s.workers[id].forced)
    ensures Step(s, Failure(id, stage, call.ended), t) && Done(s, t, id, call, c)
  {
    t := s.(db := call.EffectOn(c, s.db, id), workers := s.workers - {id});
  }

  lemma AdvanceIsStep(s: System, id: Id, call: Call, c: Config) returns (t: System)
    requires AtWork(s, id, call) && s.workers[id].stage != WatchlistPersistence
    ensures Step(s, Advance(id), t) && id in t.workers && id in t.db.rows
    ensures t.workers[id] == s.workers[id].(stage := NextStage(s.workers[id].stage, call.force))
    ensures forall u :: Done(t, u, id, call, c) ==> Done(s, u, id, call, c)
  {
    hide Accepted, Failing;
    var stage := NextStage(s.workers[id].stage, call.force);
    t := s.(db := SetStage(s.db, id, stage), workers := s.workers[id := s.workers[id].(stage := stage)]);
    StageForgotten(call, c, s.db, id, stage);
    assert t.workers - {id} == s.workers - {id};
  }

  /** The next stage raises, or the call goes on from it. */
  lemma StageOutcome(s: System, id: Id, call: Call)
    requires AtWork(s, id, call) && s.workers[id].stage != WatchlistPersistence
    ensures var stage := NextStage(s.workers[id].stage, call.force);
      && stage != Completed && StagesLeft(stage) < StagesLeft(s.workers[id].stage)
      && call.FirstFault() == (
           if Raising(stage, call.faults, Accepted(call.results)) then Some(stage)
           else FirstRaising(NextStage(stage, call.force), call.force, call.faults, Accepted(call.results)))
  {
    hide Accepted, Failing;
    Proceeds(NextStage(s.workers[id].stage, call.force), call.force, call.faults, Accepted(call.results));
  }

  /** The stages, then the commit or the failure. */
  lemma {:induction false} WorkIsProtocolRun(states: seq<System>, events: seq<Event>, id: Id, call: Call, c: Config)
    returns (ss: seq<System>, es: seq<Event>)
    requires IsRun(states, events) && AtWork(states[|events|], id, call)
    ensures Continued(states, events, ss, es, id) && Done(states[|events|], ss[|es|], id, call, c)
    decreases StagesLeft(states[|events|].workers[id].stage)
  {
    var s := states[|events|];
    var stage := NextStage(s.workers[id].stage, call.force);
    assert |states| == |events| + 1;
    hide IsRun, Step, Done, Continued, Accepted, Failing, FirstRaising;
    if s.workers[id].stage == WatchlistPersistence {
      var t := CommitIsStep(s, id, call, c);
      ContinuedOnce(states, events, t, CommitOf(call, c, id), id);
      return states + [t], events + [CommitOf(call, c, id)];
    }
    StageOutcome(s, id, call);
    var failure := Failure(id, stage, call.ended);
    if call.faults(stage) == NotRecorded {
      var t := FailureIsStep(s, id, call, c, stage);
      ContinuedOnce(states, events, t, failure, id);
      return states + [t], events + [failure];
    }
    var u := AdvanceIsStep(s, id, call, c);
    var now, past := states + [u], events + [Advance(id)];
    Extend(states, events, Advance(id), u);
    if Raising(stage, call.faults, Accepted(call.results)) {
      var t := FailureIsStep(u, id, call, c, stage);
      ContinuedOnce(now, past, t, failure, id);
      ss, es := now + [t], past + [failure];
    } else {
      ss, es := WorkIsProtocolRun(now, past, id, call, c);
    }
    ContinuedTwice(states, events, u, Advance(id), ss, es, id);
  }

  /** The acquisition of a call. */
  function StartOf(call: Call, c: Config, running: Option<Id>): Event {
    Start(call.date, call.trigger, call.force, c.staleAfter, call.started, running)
  }

  lemma StartIsStep(s: System, call: Call, c: Config, after: Database, a: Acquisition)
    returns (t: System, running: Option<Id>)
    requires !Weekend(call.date) && call.AcquiresFrom(c, s.db, after, a)
    ensures Step(s, StartOf(call, c, running), t) && t.db == after
    ensures !a.Acquired? ==> t.workers == s.workers
    ensures a.Acquired? ==> a.id == s.db.nextId && a.id in t.db.rows
    ensures a.Acquired? ==> t.workers == s.workers[a.id := Worker(call.date, call.force, DuplicateCheck)]
  {
    running :| Queried(s.db.rows, call.date, Running, running) && (after, a) ==
      Acquire(s.db, call.date, call.trigger, c.staleAfter, call.force, call.started, running,
              HasSuccess(s.db.rows, call.date));
    hide Queried, HasSuccess;
    t := if a.Acquired?
         then System(after, s.workers[a.id := Worker(call.date, call.force, DuplicateCheck)],
                     if call.force then s.forced + {a.id} else s.forced, s.log)
         else s.(db := after);
  }

  /** Where no stage raises, the ranker has accepted. */
  lemma NothingRaised(call: Call)
    requires call.FirstFault().None?
    ensures Accepted(call.results)
  {
    var accepted := Accepted(call.results);
    hide Accepted, FirstRaising;
    if !call.force { Proceeds(MarketSync, call.force, call.faults, accepted); }
    Proceeds(IndicatorCalculation, call.force, call.faults, accepted);
    Proceeds(Screening, call.force, call.faults, accepted);
    Proceeds(CandidateScanning, call.force, call.faults, accepted);
    Proceeds(CandidateRanking, call.force, call.faults, accepted);
  }

  /** One start and what its worker then does. */
  lemma StartedRun(states: seq<System>, events: seq<Event>, t: System, e: Event, ss: seq<System>, es: seq<Event>,
                   id: Id)
    requires |states| == |events| + 1 && Continued(states + [t], events + [e], ss, es, id)
    ensures IsRun(ss, es) && |events| < |es| && |ss| == |es| + 1
    ensures ss[..|states|] == states && es[..|events|] == events && es[|events|] == e
    ensures forall i :: |events| < i < |es| ==> By(es[i], id)
  {
    hide IsRun;
    assert (states + [t])[..|states|] == states && (events + [e])[..|events|] == events;
    assert ss[..|states|] == ss[..|states| + 1][..|states|] && es[..|events|] == es[..|events| + 1][..|events|];
    assert es[|events|] == es[..|events| + 1][|events|];
  }

  /** What is acquired is worked on, finished and gone. */
  lemma AcquiredIsProtocolRun(states: seq<System>, events: seq<Event>, call: Call, c: Config, acquired: Database,
                              id: Id)
    returns (ss: seq<System>, es: seq<Event>, running: Option<Id>)
    requires IsRun(states, events) && !Weekend(call.date) && id in acquired.rows
    requires call.AcquiresFrom(c, states[|events|].db, acquired, Acquired(id))
    ensures IsRun(ss, es) && |events| < |es| && ss[..|states|] == states && es[..|events|] == events
    ensures es[|events|] == StartOf(call, c, running)
    ensures forall i :: |events| < i < |es| ==> By(es[i], id)
    ensures ss[|es|].db == call.EffectOn(c, acquired, id) && ss[|es|].workers == states[|events|].workers
  {
    var s := states[|events|];
    assert |states| == |events| + 1;
    RunKeepsInv(states, events);
    var t;
    t, running := StartIsStep(s, call, c, acquired, Acquired(id));
    var e := StartOf(call, c, running);
    Extend(states, events, e, t);
    if call.FirstFault().None? { NothingRaised(call); }
    assert t.workers - {id} == s.workers;
    hide IsRun, Step, Inv, Call.AcquiresFrom, Accepted, FirstRaising, Call.EffectOn, Continued;
    assert AtWork(t, id, call);
    ss, es := WorkIsProtocolRun(states + [t], events + [e], id, call, c);
    StartedRun(states, events, t, e, ss, es, id);
  }

  /** From any state that workers can reach, a call of the service is one acquisition followed by events of
      its own worker, and leaves the tables of a state that workers can reach. */
  lemma CallIsProtocolRun(states: seq<System>, events: seq<Event>, call: Call, c: Config, acquired: Database,
                          after: Database, r: RunResult)
    returns (ss: seq<System>, es: seq<Event>)
    requires IsRun(states, events) && Ran(call, c, states[|events|].db, acquired, after, r)
    ensures IsRun(ss, es) && |events| < |es| && ss[..|states|] == states && es[..|events|] == events
    ensures exists running :: es[|events|] == StartOf(call, c, running)
    ensures forall i :: |events| < i < |es| ==> r.Finished? && By(es[i], r.id)
    ensures ss[|es|].db == after && ss[|es|].workers == states[|events|].workers
  {
    var s := states[|events|];
    assert |states| == |events| + 1;
    match r
    case SkippedWeekend =>
      Extend(states, events, StartOf(call, c, None), s);
      ss, es := states + [s], events + [StartOf(call, c, None)];
    case Refused(a) =>
      var t, running := StartIsStep(s, call, c, after, a);
      Extend(states, events, StartOf(call, c, running), t);
      ss, es := states + [t], events + [StartOf(call, c, running)];
    case Finished(id, _, _) =>
      var running;
      ss, es, running := AcquiredIsProtocolRun(states, events, call, c, acquired, id);
  }
}
