/** The execution table of the daily pipeline: acquiring a date, recording stages, finishing a run, and
    the transaction that records a success together with the date's watchlist. */
module Pipeline {
  import opened Dates
  import opened Options
  import opened Watchlist

  type Id = int
  type Time = int

  datatype Status = Running | Succeeded | Failed | Skipped

  datatype Stage =
    | DuplicateCheck
    | MarketSync
    | IndicatorCalculation
    | Screening
    | CandidateScanning
    | CandidateRanking
    | WatchlistPersistence
    | Completed

  datatype Trigger = Scheduled | Manual | ManualReanalysis

  datatype ErrorCode = StaleExecutionRecovered | StageFailed(stage: Stage)

  datatype Counts = Counts(screened: int, candidates: int, qualified: int, threshold: real, persisted: int)

  datatype Row = Row(
    date: Date,
    trigger: Trigger,
    status: Status,
    stage: Stage,
    startedAt: Time,
    finishedAt: Option<Time>,
    counts: Option<Counts>,
    error: Option<ErrorCode>)

  type Rows = map<Id, Row>

  /** The two tables; ids below `nextId` have been used. */
  datatype Database = Database(rows: Rows, nextId: Id, watchlist: map<Date, seq<Entry>>)

  datatype Acquisition = Acquired(id: Id) | AlreadyRunning | AlreadyCompleted | PriorSuccessRequired | InvalidTimeout

  ghost predicate Has(rows: Rows, date: Date, status: Status, id: Id) {
    id in rows && rows[id].date == date && rows[id].status == status
  }

  /** A first row of the query for a date and status, ordered by descending start. */
  ghost predicate IsLatest(rows: Rows, date: Date, status: Status, id: Id) {
    Has(rows, date, status, id) && forall i :: Has(rows, date, status, i) ==> rows[i].startedAt <= rows[id].startedAt
  }

  ghost predicate Queried(rows: Rows, date: Date, status: Status, r: Option<Id>) {
    match r
    case Some(id) => IsLatest(rows, date, status, id)
    case None => forall i :: !Has(rows, date, status, i)
  }

  function Recovered(row: Row, now: Time): Row {
    row.(status := Failed, finishedAt := Some(now), error := Some(StaleExecutionRecovered))
  }

  function NewRow(date: Date, trigger: Trigger, now: Time): Row {
    Row(date, trigger, Running, DuplicateCheck, now, None, None, None)
  }

  /** The decision of an acquisition, given what its two queries returned. */
  function Acquire(db: Database, date: Date, trigger: Trigger, staleAfter: int, force: bool, now: Time,
                   running: Option<Id>, succeeded: bool): (Database, Acquisition)
    requires running.Some? ==> running.value in db.rows
  {
    if staleAfter <= 0 then (db, InvalidTimeout)
    else if running.None? then
      if succeeded && !force then (db, AlreadyCompleted)
      else if !succeeded && force then (db, PriorSuccessRequired)
      else Insert(db, date, trigger, now)
    else
      var row := db.rows[running.value];
      if row.startedAt >= now - staleAfter then (db, AlreadyRunning)
      else
        var recovered := db.(rows := db.rows[running.value := Recovered(row, now)]);
        if force && !succeeded then (recovered, PriorSuccessRequired)
        else if !force && succeeded then (recovered, AlreadyCompleted)
        else Insert(recovered, date, trigger, now)
  }

  function Insert(db: Database, date: Date, trigger: Trigger, now: Time): (Database, Acquisition) {
    (db.(rows := db.rows[db.nextId := NewRow(date, trigger, now)], nextId := db.nextId + 1), Acquired(db.nextId))
  }

  function SetStage(db: Database, id: Id, stage: Stage): Database
    requires id in db.rows
  {
    db.(rows := db.rows[id := db.rows[id].(stage := stage)])
  }

  /** Finishing overwrites status, stage, end, counts and error of the row, whatever they were. */
  function Finished(row: Row, status: Status, stage: Stage, now: Time, counts: Option<Counts>,
                    error: Option<ErrorCode>): Row {
    row.(status := status, stage := stage, finishedAt := Some(now), counts := counts, error := error)
  }

  function Finish(db: Database, id: Id, status: Status, stage: Stage, now: Time, counts: Option<Counts>,
                  error: Option<ErrorCode>): Database
    requires id in db.rows
  {
    db.(rows := db.rows[id := Finished(db.rows[id], status, stage, now, counts, error)])
  }

  /** Success and watchlist in one transaction; a refused save rolls both back. */
  function CommitSuccess(db: Database, id: Id, date: Date, entries: seq<Entry>, counts: Counts, now: Time)
    : (Database, bool)
    requires id in db.rows
  {
    if ValidEntries(entries) then
      (Finish(db, id, Succeeded, Completed, now, Some(counts), None).(watchlist := db.watchlist[date := entries]), true)
    else (db, false)
  }

}

/** The same tables as an object that the repositories update in place. */
module PipelineTables {
  import opened Dates
  import opened Options
  import opened Watchlist
  import opened Pipeline

  class PipelineStore {
    var rows: Rows
    var nextId: Id
    var watchlist: map<Date, seq<Entry>>

    ghost function View(): Database
      reads this
    {
      Database(rows, nextId, watchlist)
    }

    constructor ()
      ensures View() == Database(map[], 0, map[])
    {
      rows, nextId, watchlist := map[], 0, map[];
    }

    /** Scans the table for the latest row of a date and status. */
    method Latest(date: Date, status: Status) returns (r: Option<Id>)
      requires forall i :: i in rows ==> 0 <= i < nextId
      ensures Queried(rows, date, status, r)
    {
      r := None;
      var id := 0;
      while id < nextId
        invariant r.Some? ==> Has(rows, date, status, r.value)
        invariant forall i :: Has(rows, date, status, i) && i < id ==>
          r.Some? && rows[i].startedAt <= rows[r.value].startedAt
      {
        if id in rows && rows[id].date == date && rows[id].status == status
           && (r.None? || rows[id].startedAt > rows[r.value].startedAt) {
          r := Some(id);
        }
        id := id + 1;
      }
    }

    method Acquire(date: Date, trigger: Trigger, staleAfter: int, force: bool, now: Time)
      returns (a: Acquisition, recovered: Option<Id>, execution: Option<Id>, ghost running: Option<Id>)
      requires forall i :: i in rows ==> 0 <= i < nextId
      modifies this
      ensures Queried(old(rows), date, Running, running)
      ensures (View(), a) == Pipeline.Acquire(old(View()), date, trigger, staleAfter, force, now, running,
                                              exists i :: Has(old(rows), date, Succeeded, i))
      ensures recovered.Some? ==> running == recovered && rows[recovered.value].error == Some(StaleExecutionRecovered)
      ensures a.AlreadyCompleted? ==> execution.Some? && IsLatest(old(rows), date, Succeeded, execution.value)
      ensures a.AlreadyRunning? ==> execution == running && running.Some?
      ensures a.Acquired? ==> execution == Some(a.id)
    {
      recovered, execution, running := None, None, None;
      var current := Latest(date, Running);
      running := current;
      var succeeded := Latest(date, Succeeded);
      assert succeeded.Some? <==> exists i :: Has(rows, date, Succeeded, i);
      if staleAfter <= 0 {
        return InvalidTimeout, None, None, running;
      }
      if current.None? && succeeded.Some? && !force {
        return AlreadyCompleted, None, succeeded, running;
      }
      if current.None? && succeeded.None? && force {
        return PriorSuccessRequired, None, None, running;
      }
      if current.Some? {
        var row := rows[current.value];
        if row.startedAt >= now - staleAfter {
          return AlreadyRunning, None, current, running;
        }
        rows := rows[current.value := row.(status := Failed, finishedAt := Some(now),
          error := Some(StaleExecutionRecovered))];
        recovered := current;
        if force && succeeded.None? {
          return PriorSuccessRequired, recovered, None, running;
        }
        if !force && succeeded.Some? {
          return AlreadyCompleted, recovered, succeeded, running;
        }
      }
      var id := nextId;
      rows, nextId := rows[id := Row(date, trigger, Running, DuplicateCheck, now, None, None, None)], nextId + 1;
      return Acquired(id), recovered, Some(id), running;
    }

    /** `found` is false where the original raises a lookup error. */
    method SetStage(id: Id, stage: Stage) returns (found: bool)
      modifies this
      ensures found <==> id in old(rows)
      ensures View() == if found then Pipeline.SetStage(old(View()), id, stage) else old(View())
    {
      if id !in rows {
        return false;
      }
      rows := rows[id := rows[id].(stage := stage)];
      return true;
    }

    method Finish(id: Id, status: Status, stage: Stage, now: Time, counts: Option<Counts>,
                  error: Option<ErrorCode>) returns (found: bool)
      modifies this
      ensures found <==> id in old(rows)
      ensures View() ==
        if found then Pipeline.Finish(old(View()), id, status, stage, now, counts, error) else old(View())
    {
      if id !in rows {
        return false;
      }
      var row := rows[id];
      row := row.(status := status, stage := stage, finishedAt := Some(now));
      row := row.(counts := counts);
      row := row.(error := error);
      rows := rows[id := row];
      return true;
    }

    /** Replaces the entries of one date after validating all of them. */
    method Save(date: Date, entries: seq<Entry>) returns (ok: bool)
      modifies this
      ensures ok <==> ValidEntries(entries)
      ensures View() == if ok then old(View()).(watchlist := old(watchlist)[date := entries]) else old(View())
    {
      ok := Validate(entries);
      if ok {
        watchlist := watchlist - {date};
        watchlist := watchlist[date := entries];
      }
    }

    /** The transaction of a successful run: finish, save, and commit or roll back. */
    method CommitSuccess(id: Id, date: Date, entries: seq<Entry>, counts: Counts, now: Time) returns (ok: bool)
      requires id in rows
      modifies this
      ensures (View(), ok) == Pipeline.CommitSuccess(old(View()), id, date, entries, counts, now)
    {
      var savedRows := rows;
      var found := Finish(id, Succeeded, Completed, now, Some(counts), None);
      ok := Save(date, entries);
      if !ok {
        rows := savedRows;
      }
    }
  }
}
