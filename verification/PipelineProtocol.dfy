/** Many workers on the execution table: any interleaving of acquisitions, stage updates, commits,
    failures and crashes, including workers whose run was meanwhile recovered as stale. */
module PipelineProtocol {
  import opened Dates
  import opened Options
  import opened Watchlist
  import opened Pipeline

  /** A worker between two of its transactions; `stage` is the last one it recorded. */
  datatype Worker = Worker(date: Date, forced: bool, stage: Stage)

  datatype Commit = Commit(date: Date, id: Id, entries: seq<Entry>)

  /** `forced` and `log` only remember what happened; no step depends on them. There is no common clock:
      every event carries the reading of the worker that takes it, in no particular order. */
  datatype System = System(
    db: Database,
    workers: map<Id, Worker>,
    forced: set<Id>,
    log: seq<Commit>)

  datatype Event =
    | Start(date: Date, trigger: Trigger, force: bool, staleAfter: int, at: Time, running: Option<Id>)
    | Advance(id: Id)
    | Success(id: Id, entries: seq<Entry>, counts: Counts, at: Time)
    | Failure(id: Id, stage: Stage, at: Time)
    | Crash(id: Id)

  /** Dates are proleptic day numbers, day one being a Monday. */
  predicate Weekend(date: Date) { (date + 6) % 7 >= 5 }

  /** The stages in order; a reanalysis starts after the market sync. */
  function NextStage(stage: Stage, forced: bool): Stage {
    match stage
    case DuplicateCheck => if forced then IndicatorCalculation else MarketSync
    case MarketSync => IndicatorCalculation
    case IndicatorCalculation => Screening
    case Screening => CandidateScanning
    case CandidateScanning => CandidateRanking
    case CandidateRanking => WatchlistPersistence
    case WatchlistPersistence => Completed
    case Completed => Completed
  }

  ghost predicate HasSuccess(rows: Rows, date: Date) { exists i :: Has(rows, date, Succeeded, i) }

  ghost predicate StartStep(s: System, e: Event, t: System)
    requires e.Start?
  {
    if Weekend(e.date) then t == s
    else
      && Queried(s.db.rows, e.date, Running, e.running)
      && var successful := HasSuccess(s.db.rows, e.date);
      && var (db, a) := Acquire(s.db, e.date, e.trigger, e.staleAfter, e.force, e.at, e.running, successful);
         t == if a.Acquired?
              then System(db, s.workers[a.id := Worker(e.date, e.force, DuplicateCheck)],
                          if e.force then s.forced + {a.id} else s.forced, s.log)
              else s.(db := db)
  }

  /** The success transaction; a refused save leaves the worker to record a failure. */
  ghost predicate SuccessStep(s: System, e: Event, t: System)
    requires e.Success? && e.id in s.workers && e.id in s.db.rows
  {
    var w := s.workers[e.id];
    && w.stage == WatchlistPersistence
    && e.counts.persisted == |e.entries|
    && var (db, ok) := CommitSuccess(s.db, e.id, w.date, e.entries, e.counts, e.at);
       t == if ok then System(db, s.workers - {e.id}, s.forced, s.log + [Commit(w.date, e.id, e.entries)]) else s
  }

  ghost predicate Step(s: System, e: Event, t: System) {
    match e
    case Start(_, _, _, _, _, _) => StartStep(s, e, t)
    case Advance(id) =>
      && id in s.workers && id in s.db.rows && s.workers[id].stage != WatchlistPersistence
      && var stage := NextStage(s.workers[id].stage, s.workers[id].forced);
         t == s.(db := SetStage(s.db, id, stage), workers := s.workers[id := s.workers[id].(stage := stage)])
    case Success(id, _, _, _) => id in s.workers && id in s.db.rows && SuccessStep(s, e, t)
    case Failure(id, stage, now) =>
      && id in s.workers && id in s.db.rows
      && (stage == s.workers[id].stage || stage == NextStage(s.workers[id].stage, s.workers[id].forced))
      && t == s.(db := Finish(s.db, id, Failed, stage, now, None, Some(StageFailed(stage))),
        workers := s.workers - {id})
    case Crash(id) => id in s.workers && t == s.(workers := s.workers - {id})
  }

  ghost predicate Initial(s: System) {
    s.db.rows == map[] && s.db.nextId == 0 && s.workers == map[] && s.forced == {} && s.log == []
  }

  /** A run: states joined by events, from an empty execution table and any stored watchlists. */
  ghost predicate IsRun(states: seq<System>, events: seq<Event>) {
    && |states| == |events| + 1
    && Initial(states[0])
    && forall i :: 0 <= i < |events| ==> Step(states[i], events[i], states[i + 1])
  }

  lemma RunPrefix(states: seq<System>, events: seq<Event>)
    requires IsRun(states, events) && events != []
    ensures IsRun(states[..|events|], events[..|events| - 1])
    ensures Step(states[|events| - 1], events[|events| - 1], states[|events|])
  {}

  // ---- every interleaving ----

  ghost predicate OneRunning(rows: Rows) {
    forall i, j ::
      (i in rows && j in rows && rows[i].status == Running && rows[j].status == Running && rows[i].date == rows[j].date)
      ==> i == j
  }

  ghost predicate Inv(s: System) {
    && 0 <= s.db.nextId
    && (forall i :: i in s.db.rows ==> 0 <= i < s.db.nextId && !Weekend(s.db.rows[i].date))
    && (forall i :: i in s.workers ==>
          && i in s.db.rows && s.db.rows[i].date == s.workers[i].date && s.db.rows[i].status != Succeeded
          && (s.workers[i].forced <==> i in s.forced))
    && (forall i :: i in s.forced ==> i in s.db.rows)
    && OneRunning(s.db.rows)
  }

  /** What a step may do to the rows that exist: keep them, or change the status of one of them. */
  ghost predicate RowsEvolve(s: System, e: Event, t: System) {
    forall i :: i in s.db.rows ==>
      && i in t.db.rows
      && t.db.rows[i].date == s.db.rows[i].date && t.db.rows[i].startedAt == s.db.rows[i].startedAt
      && (t.db.rows[i].status == Running ==> s.db.rows[i].status == Running)
  }

  /** A new row is a running one, of a date that has no other and whose success matches the request. */
  ghost predicate NewRowIsOwner(s: System, e: Event, t: System) {
    forall i :: i in t.db.rows && i !in s.db.rows ==>
      && e.Start? && i == s.db.nextId && t.db.nextId == i + 1 && !Weekend(e.date)
      && t.db.rows[i] == NewRow(e.date, e.trigger, e.at)
      && (e.force <==> HasSuccess(s.db.rows, e.date)) && (e.force <==> i in t.forced)
      && forall j :: j in s.db.rows && j in t.db.rows && s.db.rows[j].date == e.date ==> t.db.rows[j].status != Running
  }

  lemma StartRows(s: System, e: Event, t: System)
    requires Inv(s) && e.Start? && Step(s, e, t)
    ensures RowsEvolve(s, e, t) && t.db.nextId >= s.db.nextId && t.log == s.log
    ensures forall i :: i in s.db.rows && s.db.rows[i].status == Succeeded ==> t.db.rows[i] == s.db.rows[i]
    ensures s.forced <= t.forced && forall i :: i in t.forced && i !in s.forced ==> i in t.db.rows && i !in s.db.rows
    ensures forall i :: i in t.workers ==>
      (i in s.workers && t.workers[i] == s.workers[i])
          || (i !in s.db.rows && i in t.db.rows && t.workers[i] == Worker(e.date, e.force, DuplicateCheck))
  {
    hide HasSuccess, OneRunning;
    if !Weekend(e.date) && e.running.Some? { assert Has(s.db.rows, e.date, Running, e.running.value); }
  }

  lemma StartUnfinished(s: System, e: Event, t: System)
    requires Inv(s) && e.Start? && Step(s, e, t)
    ensures forall i :: i in t.workers && i in t.db.rows ==> t.db.rows[i].status != Succeeded
  {
    hide HasSuccess, OneRunning;
  }

  lemma StartOwner(s: System, e: Event, t: System)
    requires Inv(s) && e.Start? && Step(s, e, t)
    ensures NewRowIsOwner(s, e, t)
  {
    hide HasSuccess;
    if !Weekend(e.date) && e.running.Some? {
      var r := e.running.value;
      assert Has(s.db.rows, e.date, Running, r);
      assert forall j :: j in s.db.rows && s.db.rows[j].date == e.date && s.db.rows[j].status == Running ==> j == r;
    } else if !Weekend(e.date) {
      assert forall j :: j in s.db.rows && s.db.rows[j].date == e.date ==> !Has(s.db.rows, e.date, Running, j);
    }
  }

  lemma WorkRows(s: System, e: Event, t: System)
    requires Step(s, e, t) && !e.Start? && Inv(s)
    ensures RowsEvolve(s, e, t) && NewRowIsOwner(s, e, t)
    ensures t.db.rows.Keys == s.db.rows.Keys && t.db.nextId == s.db.nextId && t.forced == s.forced
    ensures forall i :: i in t.workers ==>
      i in s.workers && t.workers[i].date == s.workers[i].date && t.workers[i].forced == s.workers[i].forced
    ensures forall i :: i in t.workers && i in t.db.rows ==> t.db.rows[i].status != Succeeded
  {}

  lemma StepKeepsInv(s: System, e: Event, t: System)
    requires Inv(s) && Step(s, e, t)
    ensures Inv(t) && RowsEvolve(s, e, t) && NewRowIsOwner(s, e, t)
  {
    hide Step;
    if e.Start? { StartRows(s, e, t); StartOwner(s, e, t); StartUnfinished(s, e, t); } else { WorkRows(s, e, t); }
    hide HasSuccess;
  }

  lemma {:induction false} RunKeepsInv(states: seq<System>, events: seq<Event>)
    requires IsRun(states, events)
    ensures Inv(states[|events|])
    decreases |events|
  {
    if events != [] {
      hide Inv, Step;
      RunPrefix(states, events);
      RunKeepsInv(states[..|events|], events[..|events| - 1]);
      StepKeepsInv(states[|events| - 1], events[|events| - 1], states[|events|]);
    } else {
      hide Step;
    }
  }

  /** No date ever has two running executions, even when recovered workers carry on. */
  lemma AtMostOneRunning(states: seq<System>, events: seq<Event>, date: Date, i: Id, j: Id)
    requires IsRun(states, events)
    requires Has(states[|events|].db.rows, date, Running, i) && Has(states[|events|].db.rows, date, Running, j)
    ensures i == j
  {
    RunKeepsInv(states, events);
    hide IsRun;
  }

  /** A running execution blocks an acquisition exactly while it is not older than the timeout; past
      the timeout the acquisition records it as failed. */
  lemma StaleRunNeverBlocks(s: System, date: Date, trigger: Trigger, staleAfter: int, force: bool, now: Time, id: Id)
    requires Inv(s) && Has(s.db.rows, date, Running, id) && 0 < staleAfter
    ensures var (db, a) := Acquire(s.db, date, trigger, staleAfter, force, now, Some(id), HasSuccess(s.db.rows, date));
      && (a.AlreadyRunning? <==> now - s.db.rows[id].startedAt <= staleAfter)
      && (staleAfter < now - s.db.rows[id].startedAt ==>
            db.rows[id] == Recovered(s.db.rows[id], now)
            && (a.Acquired? <==> (force <==> HasSuccess(s.db.rows, date))))
    ensures forall r :: Queried(s.db.rows, date, Running, r) ==> r == Some(id)
  {
    forall r | Queried(s.db.rows, date, Running, r) ensures r == Some(id) {
      if r.Some? { assert Has(s.db.rows, date, Running, r.value); }
    }
  }

  function Lookup(w: map<Date, seq<Entry>>, date: Date): Option<seq<Entry>> {
    if date in w then Some(w[date]) else None
  }

  /** The list of the most recent commit for a date, or what was stored at the beginning. */
  function LastWritten(log: seq<Commit>, date: Date, before: map<Date, seq<Entry>>): Option<seq<Entry>> {
    if log == [] then Lookup(before, date)
    else if log[|log| - 1].date == date then Some(log[|log| - 1].entries)
    else LastWritten(log[..|log| - 1], date, before)
  }

  /** A step changes at most the watchlist of the date it commits, and then logs exactly that. */
  lemma StepWatchlist(s: System, e: Event, t: System)
    requires Inv(s) && Step(s, e, t)
    ensures (t.db.watchlist == s.db.watchlist && t.log == s.log)
      || (e.Success? && e.id in s.workers && ValidEntries(e.entries)
          && t.log == s.log + [Commit(s.workers[e.id].date, e.id, e.entries)]
          && t.db.watchlist == s.db.watchlist[s.workers[e.id].date := e.entries]
          && e.id in t.db.rows && t.db.rows[e.id].status == Succeeded
          && t.db.rows[e.id].counts == Some(e.counts) && e.counts.persisted == |e.entries|)
  {}

  /** In every reachable state the stored list of a date is the one of its last committed success. */
  lemma {:induction false} StoredListIsLastCommit(states: seq<System>, events: seq<Event>, date: Date)
    requires IsRun(states, events)
    ensures Lookup(states[|events|].db.watchlist, date) ==
      LastWritten(states[|events|].log, date, states[0].db.watchlist)
    decreases |events|
  {
    if events != [] {
      hide Inv, Step;
      var n := |events|;
      RunPrefix(states, events);
      StoredListIsLastCommit(states[..n], events[..n - 1], date);
      RunKeepsInv(states[..n], events[..n - 1]);
      StepWatchlist(states[n - 1], events[n - 1], states[n]);
      var log := states[n - 1].log;
      if states[n].log != log {
        assert states[n].log[..|states[n].log| - 1] == log;
      }
    } else {
      hide Step;
    }
  }

  // ---- when the latest success is the writer of the stored list ----

  /** The id of the most recent commit for a date. */
  function LastWriter(log: seq<Commit>, date: Date): Option<Id> {
    if log == [] then None
    else if log[|log| - 1].date == date then Some(log[|log| - 1].id)
    else LastWriter(log[..|log| - 1], date)
  }

  /** The last writer of a date is its youngest success, and its row counts what is stored. */
  ghost predicate WriterIsLatest(s: System, date: Date) {
    match LastWriter(s.log, date)
    case None => !HasSuccess(s.db.rows, date)
    case Some(id) =>
      && Has(s.db.rows, date, Succeeded, id)
      && (forall i :: Has(s.db.rows, date, Succeeded, i) && i != id ==>
        s.db.rows[i].startedAt < s.db.rows[id].startedAt)
      && date in s.db.watchlist
      && s.db.rows[id].counts.Some? && s.db.rows[id].counts.value.persisted == |s.db.watchlist[date]|
  }

  ghost predicate Commits(s: System, e: Event) {
    e.Success? && e.id in s.workers && e.id in s.db.rows && ValidEntries(e.entries)
  }

  /** What a caller can check before a commit: no success of the date started later, or at the same time. */
  ghost predicate CommitInOrder(s: System, e: Event) {
    Commits(s, e) ==>
      forall i :: Has(s.db.rows, s.workers[e.id].date, Succeeded, i) && i != e.id ==>
        s.db.rows[i].startedAt < s.db.rows[e.id].startedAt
  }

  /** Successes are never changed, and only a commit adds one: the row of its worker. */
  lemma SuccessesPersist(s: System, e: Event, t: System)
    requires Inv(s) && Step(s, e, t)
    ensures forall d, i :: Has(s.db.rows, d, Succeeded, i) ==> i in t.db.rows && t.db.rows[i] == s.db.rows[i]
    ensures forall d, i :: Has(t.db.rows, d, Succeeded, i) ==>
      Has(s.db.rows, d, Succeeded, i) || (Commits(s, e) && e.id == i && s.workers[i].date == d)
  {
    hide ValidEntries;
    if e.Start? {
      StartRows(s, e, t);
      StepKeepsInv(s, e, t);
      StartNeverSucceeds(s, e, t);
      hide Step;
    }
  }

  lemma StartNeverSucceeds(s: System, e: Event, t: System)
    requires Inv(s) && e.Start? && Step(s, e, t)
    ensures forall i :: i in s.db.rows && i in t.db.rows && t.db.rows[i].status == Succeeded ==>
      s.db.rows[i].status == Succeeded
  {
    hide HasSuccess;
  }

  /** A step that commits logs its worker and makes its row a success that counts the entries; any other
      step leaves log and lists alone. */
  lemma CommitOrNot(s: System, e: Event, t: System)
    requires Inv(s) && Step(s, e, t)
    ensures !Commits(s, e) ==> t.log == s.log && t.db.watchlist == s.db.watchlist
    ensures Commits(s, e) ==> var d := s.workers[e.id].date;
      && !Has(s.db.rows, d, Succeeded, e.id) && Has(t.db.rows, d, Succeeded, e.id)
      && t.db.rows[e.id].startedAt == s.db.rows[e.id].startedAt && t.forced == s.forced
      && t.log == s.log + [Commit(d, e.id, e.entries)] && t.db.watchlist == s.db.watchlist[d := e.entries]
      && t.db.rows[e.id].counts == Some(e.counts) && e.counts.persisted == |e.entries|
  {
    hide ValidEntries;
    if e.Start? { StartRows(s, e, t); }
  }

  /** Without a commit for its date the claim about a date carries over in both directions. */
  lemma WriterUntouched(s: System, e: Event, t: System, d: Date)
    requires Inv(s) && Step(s, e, t) && !(Commits(s, e) && s.workers[e.id].date == d)
    ensures WriterIsLatest(t, d) <==> WriterIsLatest(s, d)
  {
    SuccessesPersist(s, e, t);
    CommitOrNot(s, e, t);
    hide Inv, Step, Commits;
    assert LastWriter(t.log, d) == LastWriter(s.log, d) by {
      if t.log != s.log { assert t.log[..|t.log| - 1] == s.log; }
    }
    SameSuccesses(s, t, d);
  }

  lemma SameSuccesses(s: System, t: System, d: Date)
    requires forall i :: Has(s.db.rows, d, Succeeded, i) ==> i in t.db.rows && t.db.rows[i] == s.db.rows[i]
    requires forall i :: Has(t.db.rows, d, Succeeded, i) ==> Has(s.db.rows, d, Succeeded, i)
    requires LastWriter(t.log, d) == LastWriter(s.log, d) && Lookup(t.db.watchlist, d) == Lookup(s.db.watchlist, d)
    ensures WriterIsLatest(t, d) <==> WriterIsLatest(s, d)
  {
    assert forall i :: Has(t.db.rows, d, Succeeded, i) <==> Has(s.db.rows, d, Succeeded, i);
  }

  /** After a commit the claim holds for its date exactly when the commit came in order. */
  lemma WriterAfterCommit(s: System, e: Event, t: System)
    requires Inv(s) && Step(s, e, t) && Commits(s, e)
    ensures WriterIsLatest(t, s.workers[e.id].date) <==> CommitInOrder(s, e)
  {
    SuccessesPersist(s, e, t);
    CommitOrNot(s, e, t);
    hide Inv, Step, ValidEntries;
    var d := s.workers[e.id].date;
    assert LastWriter(t.log, d) == Some(e.id);
    assert forall i :: Has(t.db.rows, d, Succeeded, i) <==> i == e.id || Has(s.db.rows, d, Succeeded, i);
  }

  lemma WriterStep(s: System, e: Event, t: System)
    requires Inv(s) && Step(s, e, t) && forall d :: WriterIsLatest(s, d)
    ensures (forall d :: WriterIsLatest(t, d)) <==> CommitInOrder(s, e)
  {
    if Commits(s, e) { WriterAfterCommit(s, e, t); }
    hide Inv, Step, WriterIsLatest;
    forall d | !(Commits(s, e) && s.workers[e.id].date == d)
      ensures WriterIsLatest(t, d) { WriterUntouched(s, e, t, d); }
  }

  ghost predicate AllInOrder(states: seq<System>, events: seq<Event>)
    requires |states| == |events| + 1
  {
    forall i :: 0 <= i < |events| ==> CommitInOrder(states[i], events[i])
  }

  ghost predicate AlwaysLatest(states: seq<System>) {
    forall k, d :: 0 <= k < |states| ==> WriterIsLatest(states[k], d)
  }

  /** In any run of any workers, recovered ones included, the latest success of every date is throughout
      the run that wrote the stored list, and counts its entries, if and only if every commit came in
      order. */
  lemma {:induction false} WriterIsLatestExactly(states: seq<System>, events: seq<Event>)
    requires IsRun(states, events)
    ensures AlwaysLatest(states) <==> AllInOrder(states, events)
    decreases |events|
  {
    var n := |events|;
    if n == 0 {
      hide Step;
      assert forall d :: WriterIsLatest(states[0], d);
    } else {
      RunPrefix(states, events);
      var before, past := states[..n], events[..n - 1];
      WriterIsLatestExactly(before, past);
      RunKeepsInv(before, past);
      hide Inv, Step, IsRun, WriterIsLatest, CommitInOrder;
      if AllInOrder(states, events) {
        assert AllInOrder(before, past) by {
          forall i | 0 <= i < n - 1
            ensures CommitInOrder(before[i], past[i]) { assert CommitInOrder(states[i], events[i]); }
        }
      }
      if AlwaysLatest(states) {
        assert AlwaysLatest(before) by {
          forall k, d | 0 <= k < n ensures WriterIsLatest(before[k], d) { assert WriterIsLatest(states[k], d); }
        }
      }
      if AlwaysLatest(before) && AllInOrder(before, past) {
        var last := states[n - 1];
        assert before[n - 1] == last;
        assert forall d :: WriterIsLatest(last, d);
        WriterStep(states[n - 1], events[n - 1], states[n]);
        LastStep(states, events);
      }
    }
  }

  lemma LastStep(states: seq<System>, events: seq<Event>)
    requires |states| == |events| + 1 && events != []
    requires AlwaysLatest(states[..|events|]) && AllInOrder(states[..|events|], events[..|events| - 1])
    ensures AlwaysLatest(states) <==> forall d :: WriterIsLatest(states[|events|], d)
    ensures AllInOrder(states, events) <==> CommitInOrder(states[|events| - 1], events[|events| - 1])
  {
    hide WriterIsLatest, CommitInOrder;
    var n := |events|;
    forall k, d | 0 <= k < n ensures WriterIsLatest(states[k], d) { assert WriterIsLatest(states[..n][k], d); }
    forall i | 0 <= i < n - 1 ensures CommitInOrder(states[i], events[i]) {
      assert CommitInOrder(states[..n][i], events[..n - 1][i]);
    }
  }

  /** In any run a forced execution only starts once its date has a success. */
  lemma {:induction false} ForcedHasSuccess(states: seq<System>, events: seq<Event>, i: Id)
    requires IsRun(states, events) && i in states[|events|].forced
    ensures i in states[|events|].db.rows && HasSuccess(states[|events|].db.rows, states[|events|].db.rows[i].date)
    decreases |events|
  {
    if events != [] {
      var n := |events|;
      RunPrefix(states, events);
      RunKeepsInv(states[..n], events[..n - 1]);
      var s, e, t := states[n - 1], events[n - 1], states[n];
      StepKeepsInv(s, e, t);
      SuccessesPersist(s, e, t);
      if i in s.forced {
        ForcedHasSuccess(states[..n], events[..n - 1], i);
        hide Step;
        SuccessStays(s, t, s.db.rows[i].date);
      } else {
        ForcedIsNew(s, e, t, i);
        hide Step;
        SuccessStays(s, t, e.date);
      }
    } else {
      hide Step;
    }
  }

  lemma SuccessStays(s: System, t: System, d: Date)
    requires HasSuccess(s.db.rows, d)
    requires forall i :: Has(s.db.rows, d, Succeeded, i) ==> i in t.db.rows && t.db.rows[i] == s.db.rows[i]
    ensures HasSuccess(t.db.rows, d)
  {
    var j := SomeSuccess(s.db.rows, d);
    assert Has(t.db.rows, d, Succeeded, j);
  }

  lemma ForcedIsNew(s: System, e: Event, t: System, i: Id)
    requires Inv(s) && Step(s, e, t) && i in t.forced && i !in s.forced
    ensures e.Start? && e.force && HasSuccess(s.db.rows, e.date)
    ensures i in t.db.rows && i !in s.db.rows && t.db.rows[i].date == e.date && t.db.rows[i].startedAt == e.at
  {
    StepKeepsInv(s, e, t);
    if e.Start? { StartRows(s, e, t); } else { WorkRows(s, e, t); }
    hide Step, HasSuccess;
  }

  lemma SomeSuccess(rows: Rows, date: Date) returns (j: Id)
    requires HasSuccess(rows, date)
    ensures Has(rows, date, Succeeded, j)
  {
    j :| Has(rows, date, Succeeded, j);
  }

  // ---- when a date has one normal success ----

  ghost predicate OneNormalSuccess(s: System) {
    forall d, i, j ::
      && Has(s.db.rows, d, Succeeded, i) && i !in s.forced
      && Has(s.db.rows, d, Succeeded, j) && j !in s.forced
      ==> i == j
  }

  /** A normal commit finds no normal success of its date. */
  ghost predicate CommitAlone(s: System, e: Event) {
    Commits(s, e) && e.id !in s.forced ==>
      forall i :: Has(s.db.rows, s.workers[e.id].date, Succeeded, i) ==> i in s.forced
  }

  lemma StartForced(s: System, e: Event, t: System)
    requires Inv(s) && Step(s, e, t)
    ensures forall i :: i in s.db.rows ==> (i in t.forced <==> i in s.forced)
  {
    forall i | i in t.forced && i !in s.forced ensures i !in s.db.rows { ForcedIsNew(s, e, t, i); }
    if e.Start? { StartRows(s, e, t); } else { WorkRows(s, e, t); }
  }

  lemma OneNormalStep(s: System, e: Event, t: System)
    requires Inv(s) && Step(s, e, t) && OneNormalSuccess(s)
    ensures OneNormalSuccess(t) <==> CommitAlone(s, e)
  {
    SuccessesPersist(s, e, t);
    CommitOrNot(s, e, t);
    StartForced(s, e, t);
    hide Step, ValidEntries;
    if Commits(s, e) && e.id !in s.forced {
      var d := s.workers[e.id].date;
      forall i | Has(s.db.rows, d, Succeeded, i) && i !in s.forced ensures !OneNormalSuccess(t) {
        assert Has(t.db.rows, d, Succeeded, i) && Has(t.db.rows, d, Succeeded, e.id);
      }
    }
  }

  /** In any run a date has at most one normal success throughout if and only if every normal commit finds
      none of its date. */
  lemma {:induction false} OneNormalExactly(states: seq<System>, events: seq<Event>)
    requires IsRun(states, events)
    ensures (forall k :: 0 <= k < |states| ==> OneNormalSuccess(states[k]))
       <==> (forall i :: 0 <= i < |events| ==> CommitAlone(states[i], events[i]))
    decreases |events|
  {
    var n := |events|;
    if n == 0 {
      hide Step;
    } else {
      RunPrefix(states, events);
      OneNormalExactly(states[..n], events[..n - 1]);
      RunKeepsInv(states[..n], events[..n - 1]);
      hide Inv, Step, IsRun, OneNormalSuccess, CommitAlone;
      assert forall k :: 0 <= k < n ==> states[..n][k] == states[k];
      assert forall i :: 0 <= i < n - 1 ==> events[..n - 1][i] == events[i];
      if OneNormalSuccess(states[n - 1]) { OneNormalStep(states[n - 1], events[n - 1], states[n]); }
    }
  }

  // ---- why a normal commit can find another one ----

  /** A worker whose run was recovered as stale commits a normal success of the date. */
  ghost predicate CommitsRecovered(s: System, e: Event, d: Date) {
    && Commits(s, e) && e.id !in s.forced && s.workers[e.id].date == d
    && s.db.rows[e.id].error == Some(StaleExecutionRecovered)
  }

  /** The row of a worker is running unless it was recovered. */
  ghost predicate RunningOrRecovered(s: System) {
    forall i :: i in s.workers && i in s.db.rows ==>
      s.db.rows[i].status == Running || s.db.rows[i].error == Some(StaleExecutionRecovered)
  }

  /** Once the date has a normal success no normal execution of it is running. */
  ghost predicate Closed(s: System, d: Date) {
    forall i, j ::
      Has(s.db.rows, d, Succeeded, i) && i !in s.forced && Has(s.db.rows, d, Running, j) ==> j in s.forced
  }

  lemma KeepsRunningOrRecovered(s: System, e: Event, t: System)
    requires Inv(s) && RunningOrRecovered(s) && Step(s, e, t)
    ensures RunningOrRecovered(t)
  {
    hide HasSuccess, OneRunning, ValidEntries;
  }

  lemma KeepsClosed(s: System, e: Event, t: System, d: Date)
    requires Inv(s) && RunningOrRecovered(s) && Closed(s, d) && Step(s, e, t) && !CommitsRecovered(s, e, d)
    ensures Closed(t, d)
  {
    SuccessesPersist(s, e, t);
    StepKeepsInv(s, e, t);
    StartForced(s, e, t);
    hide Step, ValidEntries;
    forall i, j | Has(t.db.rows, d, Succeeded, i) && i !in t.forced && Has(t.db.rows, d, Running, j)
      ensures j in t.forced
    {
      assert Has(s.db.rows, d, Succeeded, i) || Has(s.db.rows, d, Running, i);
      assert j !in s.db.rows || Has(s.db.rows, d, Running, j);
    }
  }

  /** Until a recovered worker commits for the date, its first normal success closes it. */
  lemma {:induction false} ClosedUntilRecovered(states: seq<System>, events: seq<Event>, d: Date)
    requires IsRun(states, events)
    ensures RunningOrRecovered(states[|events|])
    ensures Closed(states[|events|], d) || exists k :: 0 <= k < |events| && CommitsRecovered(states[k], events[k], d)
    decreases |events|
  {
    var n := |events|;
    if n == 0 {
      hide Step;
    } else {
      RunPrefix(states, events);
      ClosedUntilRecovered(states[..n], events[..n - 1], d);
      RunKeepsInv(states[..n], events[..n - 1]);
      KeepsRunningOrRecovered(states[n - 1], events[n - 1], states[n]);
      hide Inv, Step, IsRun, Closed, CommitsRecovered;
      if Closed(states[n - 1], d) {
        var s, e := states[n - 1], events[n - 1];
        if !CommitsRecovered(s, e, d) { KeepsClosed(s, e, states[n], d); }
      } else {
        var k :| 0 <= k < n - 1 && CommitsRecovered(states[..n][k], events[..n - 1][k], d);
        assert CommitsRecovered(states[k], events[k], d);
      }
    }
  }

  /** If a normal commit finds a normal success of its date, one of the two, or an earlier one, was the
      commit of a recovered worker. */
  lemma SecondNormalNeedsRecovery(states: seq<System>, events: seq<Event>, i: int)
    requires IsRun(states, events) && 0 <= i < |events| && !CommitAlone(states[i], events[i])
    ensures exists k :: 0 <= k <= i && CommitsRecovered(states[k], events[k], states[i].workers[events[i].id].date)
  {
    var s, e := states[i], events[i];
    var d := s.workers[e.id].date;
    var before, past := states[..i + 1], events[..i];
    assert IsRun(before, past) by { hide Step; }
    RunKeepsInv(before, past);
    ClosedUntilRecovered(before, past, d);
    hide IsRun, Step, ValidEntries;
    if Closed(s, d) {
      assert !Has(s.db.rows, d, Running, e.id);
      assert CommitsRecovered(s, e, d);
    } else {
      hide CommitsRecovered;
      var k :| 0 <= k < i && CommitsRecovered(before[k], past[k], d);
      assert CommitsRecovered(states[k], events[k], d);
    }
  }

  /** Without commits of recovered workers a date has at most one normal success, whatever else happens. */
  lemma OneNormalUnlessRecovered(states: seq<System>, events: seq<Event>)
    requires IsRun(states, events)
    requires forall k, d :: 0 <= k < |events| ==> !CommitsRecovered(states[k], events[k], d)
    ensures forall k :: 0 <= k < |states| ==> OneNormalSuccess(states[k])
  {
    assert |states| == |events| + 1;
    hide IsRun, CommitAlone, CommitsRecovered, OneNormalSuccess;
    forall i | 0 <= i < |events| ensures CommitAlone(states[i], events[i]) {
      if !CommitAlone(states[i], events[i]) { SecondNormalNeedsRecovery(states, events, i); }
    }
    OneNormalExactly(states, events);
  }

  // ---- runs in which recovered workers do not commit and each acquisition is the youngest of its date ----

  /** A new execution starts after every earlier one of its date, and only running executions commit. A
      recovered worker may still record stages and failures. */
  ghost predicate Disciplined(s: System, e: Event) {
    match e
    case Start(date, _, _, _, now, _) =>
      forall j :: j in s.db.rows && s.db.rows[j].date == date ==> s.db.rows[j].startedAt < now
    case Success(id, _, _, _) => id in s.db.rows && s.db.rows[id].status == Running
    case _ => true
  }

  ghost predicate IsDisciplinedRun(states: seq<System>, events: seq<Event>) {
    IsRun(states, events) && forall i :: 0 <= i < |events| ==> Disciplined(states[i], events[i])
  }

  /** A running execution is the youngest of its date; started normally, it has no success before it. */
  ghost predicate RunningIsYoungest(s: System) {
    forall d, i :: Has(s.db.rows, d, Running, i) ==> Youngest(s, d, i)
  }

  ghost predicate Youngest(s: System, d: Date, i: Id)
    requires i in s.db.rows
  {
    && (forall j :: j in s.db.rows && s.db.rows[j].date == d && j != i ==>
      s.db.rows[j].startedAt < s.db.rows[i].startedAt)
    && (i !in s.forced ==> !HasSuccess(s.db.rows, d))
  }

  ghost predicate ForcedAfterSuccess(s: System) {
    forall i :: i in s.forced && i in s.db.rows ==>
      exists j :: Has(s.db.rows, s.db.rows[i].date, Succeeded, j) && s.db.rows[j].startedAt < s.db.rows[i].startedAt
  }

  ghost predicate StrictInv(s: System) {
    Inv(s) && RunningIsYoungest(s) && OneNormalSuccess(s) && ForcedAfterSuccess(s)
  }

  lemma SuccessSame(s: System, e: Event, t: System, d: Date)
    requires Inv(s) && Step(s, e, t)
    ensures HasSuccess(t.db.rows, d) ==> HasSuccess(s.db.rows, d) || (Commits(s, e) && s.workers[e.id].date == d)
  {
    SuccessesPersist(s, e, t);
    hide Inv, Step, Commits;
    if i :| Has(t.db.rows, d, Succeeded, i) {
      if Has(s.db.rows, d, Succeeded, i) {} else { assert s.workers[e.id].date == d; }
    }
  }

  lemma KeepsYoungest(s: System, e: Event, t: System)
    requires StrictInv(s) && Step(s, e, t) && Disciplined(s, e)
    ensures RunningIsYoungest(t)
  {
    forall d, i | Has(t.db.rows, d, Running, i) ensures Youngest(t, d, i) { YoungestRow(s, e, t, d, i); }
  }

  lemma YoungestRow(s: System, e: Event, t: System, d: Date, i: Id)
    requires StrictInv(s) && Step(s, e, t) && Disciplined(s, e) && Has(t.db.rows, d, Running, i)
    ensures Youngest(t, d, i)
  {
    hide OneNormalSuccess, ForcedAfterSuccess;
    StepKeepsInv(s, e, t);
    SuccessSame(s, e, t, d);
    if Commits(s, e) { CommitEndsRunning(s, e, t); }
    if e.Start? { StartRows(s, e, t); } else { WorkRows(s, e, t); }
    hide Step, HasSuccess, ValidEntries;
    if i in s.db.rows {
      assert Has(s.db.rows, d, Running, i);
      assert Youngest(s, d, i);
    }
  }

  /** A committing worker was the running execution of its date and no longer is. */
  lemma CommitEndsRunning(s: System, e: Event, t: System)
    requires Inv(s) && Step(s, e, t) && Disciplined(s, e) && Commits(s, e)
    ensures Has(s.db.rows, s.workers[e.id].date, Running, e.id)
    ensures forall i :: !Has(t.db.rows, s.workers[e.id].date, Running, i)
  {
    hide ValidEntries;
  }

  lemma KeepsOneNormal(s: System, e: Event, t: System)
    requires StrictInv(s) && Step(s, e, t) && Disciplined(s, e)
    ensures OneNormalSuccess(t)
  {
    hide ForcedAfterSuccess;
    SuccessesPersist(s, e, t);
    if e.Start? { StartRows(s, e, t); StartForced(s, e, t); } else { WorkRows(s, e, t); }
    if Commits(s, e) {
      CommitEndsRunning(s, e, t);
      assert Youngest(s, s.workers[e.id].date, e.id);
    }
    hide Step, ValidEntries;
  }

  lemma KeepsForced(s: System, e: Event, t: System)
    requires StrictInv(s) && Step(s, e, t) && Disciplined(s, e)
    ensures ForcedAfterSuccess(t)
  {
    hide OneNormalSuccess, RunningIsYoungest;
    SuccessesPersist(s, e, t);
    StepKeepsInv(s, e, t);
    StartForced(s, e, t);
    forall i | i in t.forced && i in t.db.rows
      ensures exists j ::
        Has(t.db.rows, t.db.rows[i].date, Succeeded, j) && t.db.rows[j].startedAt < t.db.rows[i].startedAt
    {
      if i in s.db.rows {
        hide Step, Inv;
        var j :| Has(s.db.rows, s.db.rows[i].date, Succeeded, j) && s.db.rows[j].startedAt < s.db.rows[i].startedAt;
        assert Has(t.db.rows, t.db.rows[i].date, Succeeded, j);
      } else {
        ForcedIsNew(s, e, t, i);
        hide Step, Inv;
        var j := SomeSuccess(s.db.rows, e.date);
        assert Has(t.db.rows, e.date, Succeeded, j);
      }
    }
  }

  lemma StepKeepsStrictInv(s: System, e: Event, t: System)
    requires StrictInv(s) && Step(s, e, t) && Disciplined(s, e)
    ensures StrictInv(t)
  {
    StepKeepsInv(s, e, t);
    KeepsYoungest(s, e, t);
    KeepsOneNormal(s, e, t);
    KeepsForced(s, e, t);
  }

  lemma {:induction false} DisciplinedRunKeepsInv(states: seq<System>, events: seq<Event>)
    requires IsDisciplinedRun(states, events)
    ensures StrictInv(states[|events|])
    decreases |events|
  {
    if events != [] {
      hide StrictInv, Step, Disciplined;
      RunPrefix(states, events);
      DisciplinedRunKeepsInv(states[..|events|], events[..|events| - 1]);
      StepKeepsStrictInv(states[|events| - 1], events[|events| - 1], states[|events|]);
    } else {
      hide Step, Disciplined;
    }
  }

  lemma DisciplinedCommitsInOrder(s: System, e: Event)
    requires StrictInv(s) && Disciplined(s, e)
    ensures CommitInOrder(s, e)
  {
    if Commits(s, e) {
      assert Has(s.db.rows, s.workers[e.id].date, Running, e.id);
      assert Youngest(s, s.workers[e.id].date, e.id);
    }
  }

  lemma DisciplinedInOrder(states: seq<System>, events: seq<Event>)
    requires IsDisciplinedRun(states, events)
    ensures AllInOrder(states, events)
  {
    forall i | 0 <= i < |events| ensures CommitInOrder(states[i], events[i]) {
      assert IsDisciplinedRun(states[..i + 1], events[..i]) by {
        hide Step, Disciplined;
        forall j | 0 <= j < i ensures Step(states[j], events[j], states[j + 1]) && Disciplined(states[j], events[j]) {}
      }
      DisciplinedRunKeepsInv(states[..i + 1], events[..i]);
      DisciplinedCommitsInOrder(states[i], events[i]);
    }
  }

  /** If recovered workers do not commit and each acquisition starts after the earlier ones of its date: a
      date has at most one normal success, a forced run starts after a success of its date, and the latest
      success is the run that wrote the stored list and counts its entries. */
  lemma LatestSuccessOwnsList(states: seq<System>, events: seq<Event>, date: Date, id: Id)
    requires IsDisciplinedRun(states, events)
    ensures var s := states[|events|];
      && OneNormalSuccess(s) && ForcedAfterSuccess(s)
      && (IsLatest(s.db.rows, date, Succeeded, id) <==> LastWriter(s.log, date) == Some(id))
      && (IsLatest(s.db.rows, date, Succeeded, id) ==>
            && date in s.db.watchlist && s.db.rows[id].counts.Some?
            && s.db.rows[id].counts.value.persisted == |s.db.watchlist[date]|)
  {
    DisciplinedRunKeepsInv(states, events);
    DisciplinedInOrder(states, events);
    WriterIsLatestExactly(states, events);
    hide IsRun, AllInOrder;
    assert WriterIsLatest(states[|events|], date);
  }

  // ---- why the order of commits matters ----

  function StagesLeft(stage: Stage): nat {
    match stage
    case DuplicateCheck => 6
    case MarketSync => 5
    case IndicatorCalculation => 4
    case Screening => 3
    case CandidateScanning => 2
    case CandidateRanking => 1
    case WatchlistPersistence => 0
    case Completed => 0
  }

  lemma Extend(states: seq<System>, events: seq<Event>, e: Event, t: System)
    requires IsRun(states, events) && Step(states[|events|], e, t)
    ensures IsRun(states + [t], events + [e])
  {
    var ss, es := states + [t], events + [e];
    forall i | 0 <= i < |es| ensures Step(ss[i], es[i], ss[i + 1]) {
      if i < |events| { assert Step(states[i], events[i], states[i + 1]); }
    }
  }

  /** A worker left to itself records its remaining stages and changes nothing else. */
  lemma {:induction false} AdvanceToPersistence(states: seq<System>, events: seq<Event>, id: Id)
    returns (ss: seq<System>, es: seq<Event>)
    requires IsRun(states, events) && id in states[|events|].workers && id in states[|events|].db.rows
    requires states[|events|].workers[id].stage != Completed
    ensures IsRun(ss, es)
    ensures var s, t := states[|events|], ss[|es|];
      id in t.db.rows && t == s.(db := SetStage(s.db, id, t.db.rows[id].stage),
          workers := s.workers[id := s.workers[id].(stage := WatchlistPersistence)])
    decreases StagesLeft(states[|events|].workers[id].stage)
  {
    var s := states[|events|];
    if s.workers[id].stage == WatchlistPersistence {
      assert s.workers[id := s.workers[id]] == s.workers && s.db.rows[id := s.db.rows[id]] == s.db.rows;
      return states, events;
    }
    var stage := NextStage(s.workers[id].stage, s.workers[id].forced);
    var t := s.(db := SetStage(s.db, id, stage), workers := s.workers[id := s.workers[id].(stage := stage)]);
    Extend(states, events, Advance(id), t);
    ss, es := AdvanceToPersistence(states + [t], events + [Advance(id)], id);
    var u := ss[|es|];
    assert u.workers == s.workers[id := s.workers[id].(stage := WatchlistPersistence)];
    assert u.db.rows == s.db.rows[id := s.db.rows[id].(stage := u.db.rows[id].stage)];
  }

  lemma Begin(before: map<Date, seq<Entry>>) returns (ss: seq<System>, es: seq<Event>)
    ensures IsRun(ss, es)
    ensures ss[|es|] == System(Database(map[0 := NewRow(1, Manual, 0)], 1, before),
        map[0 := Worker(1, false, DuplicateCheck)], {}, [])
  {
    var s := System(Database(map[], 0, before), map[], {}, []);
    var db := Database(map[0 := NewRow(1, Manual, 0)], 1, before);
    var t := System(db, map[0 := Worker(1, false, DuplicateCheck)], {}, []);
    var e := Start(1, Manual, false, 7200, 0, None);
    assert !HasSuccess(s.db.rows, 1);
    assert IsRun([s], []);
    Extend([s], [], e, t);
    ss, es := [s] + [t], [] + [e];
  }

  /** The timed-out first run is recovered and a second run takes over the date. */
  lemma TakeOver(before: map<Date, seq<Entry>>) returns (ss: seq<System>, es: seq<Event>)
    ensures IsRun(ss, es)
    ensures var first := Recovered(NewRow(1, Manual, 0), 7201); var second := NewRow(1, Manual, 7201);
      ss[|es|] == System(Database(map[0 := first, 1 := second], 2, before),
                         map[0 := Worker(1, false, DuplicateCheck), 1 := Worker(1, false, DuplicateCheck)], {}, [])
  {
    var states, events := Begin(before);
    var s := states[|events|];
    var first, second := Recovered(NewRow(1, Manual, 0), 7201), NewRow(1, Manual, 7201);
    var t := System(Database(map[0 := first, 1 := second], 2, before),
                    map[0 := Worker(1, false, DuplicateCheck), 1 := Worker(1, false, DuplicateCheck)], {}, []);
    var e := Start(1, Manual, false, 7200, 7201, Some(0));
    assert !HasSuccess(s.db.rows, 1);
    assert Has(s.db.rows, 1, Running, 0) && IsLatest(s.db.rows, 1, Running, 0);
    assert t.db.rows == s.db.rows[0 := first][1 := second];
    assert t.workers == s.workers[1 := Worker(1, false, DuplicateCheck)];
    Extend(states, events, e, t);
    ss, es := states + [t], events + [e];
  }

  /** A worker at the last stage commits. */
  lemma CommitNext(states: seq<System>, events: seq<Event>, id: Id, entries: seq<Entry>, counts: Counts, now: Time)
    returns (ss: seq<System>, es: seq<Event>)
    requires IsRun(states, events) && ValidEntries(entries) && counts.persisted == |entries|
    requires var s := states[|events|];
      id in s.workers && id in s.db.rows && s.workers[id].stage == WatchlistPersistence
    ensures IsRun(ss, es)
    ensures var s := states[|events|]; var w := s.workers[id];
      ss[|es|] == System(CommitSuccess(s.db, id, w.date, entries, counts, now).0, s.workers - {id}, s.forced,
                         s.log + [Commit(w.date, id, entries)])
  {
    var s := states[|events|];
    var w := s.workers[id];
    var t := System(CommitSuccess(s.db, id, w.date, entries, counts, now).0, s.workers - {id}, s.forced,
                    s.log + [Commit(w.date, id, entries)]);
    Extend(states, events, Success(id, entries, counts, now), t);
    ss, es := states + [t], events + [Success(id, entries, counts, now)];
  }

  /** Two normal successes of one date, the later of which did not write what is stored. */
  ghost predicate Overwritten(s: System, date: Date, latest: Id, writer: Id) {
    && latest != writer && latest !in s.forced && writer !in s.forced
    && Has(s.db.rows, date, Succeeded, writer) && IsLatest(s.db.rows, date, Succeeded, latest)
    && LastWriter(s.log, date) == Some(writer)
    && s.db.rows[latest].counts.Some? && date in s.db.watchlist
    && s.db.rows[latest].counts.value.persisted != |s.db.watchlist[date]|
  }

  lemma TwoSuccesses(s: System)
    requires s.db.rows.Keys == {0, 1} && s.forced == {} && 1 in s.db.watchlist && s.db.watchlist[1] == []
    requires s.db.rows[0].date == s.db.rows[1].date == 1 && s.db.rows[0].status == s.db.rows[1].status == Succeeded
    requires s.db.rows[0].startedAt == 0 && s.db.rows[1].startedAt == 7201
    requires s.db.rows[1].counts.Some? && s.db.rows[1].counts.value.persisted == 1
    requires LastWriter(s.log, 1) == Some(0)
    ensures Overwritten(s, 1, 1, 0)
  {}

  /** Commits do come out of order: a recovered worker that still commits gives a date two
      normal successes, and the latest of them is not the run that wrote the stored list. */
  lemma RecoveredWorkerOverwrites() returns (ss: seq<System>, es: seq<Event>)
    ensures IsRun(ss, es) && Overwritten(ss[|es|], 1, 1, 0)
  {
    hide IsRun, Step;
    var entry := Entry("A", 1, 90.0);
    assert 'A' in entry.symbol;
    var s0, e0 := TakeOver(map[]);
    var s1, e1 := AdvanceToPersistence(s0, e0, 1);
    var s2, e2 := CommitNext(s1, e1, 1, [entry], Counts(1, 1, 1, 80.0, 1), 7202);
    var s3, e3 := AdvanceToPersistence(s2, e2, 0);
    ss, es := CommitNext(s3, e3, 0, [], Counts(1, 0, 0, 80.0, 0), 7203);
    hide ValidEntries;
    var t := ss[|es|];
    assert t.log == [Commit(1, 1, [entry]), Commit(1, 0, [])];
    TwoSuccesses(t);
  }
}
