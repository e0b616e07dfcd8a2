/** Runs and their status as values (backend/internal/store/memstore/runstore.go). */
module Runs {
  import opened Model

  type RunTable = map<Id, Run>

  datatype Snapshot = Snapshot(
    id: Id, runID: Id, ts: Time, elapsedSeconds: int, throughputRPS: real,
    avgResponseTimeMs: real, errorRatePct: real, sampleCount: int)

  /** The row CreateRun stores. An unversioned caller's test id is its catalog id. */
  function NewRun(r: Run, id: Id, now: Time): Run {
    r.(id := id, createdAt := now, testCatalogID := if r.testCatalogID == "" then r.testID else r.testCatalogID)
  }

  /** UpdateRunStatus on one row: the first start is kept, the last end wins. */
  function WithStatus(r: Run, status: RunStatus, errMsg: string, now: Time): Run {
    var r' := r.(status := status, errorMessage := errMsg);
    match status
    case Running => if r.startedAt.None? then r'.(startedAt := Some(now)) else r'
    case Completed => r'.(completedAt := Some(now))
    case Failed => r'.(completedAt := Some(now))
    case Stopped => r'.(completedAt := Some(now))
    case Pending => r'
  }

  /** A new run is the caller's under its own id, dated now, and filed under a catalogue id in any case. */
  lemma {:induction false} NewRunOutcome(r: Run, id: Id, now: Time)
    ensures var run := NewRun(r, id, now);
      && run.id == id && run.createdAt == now && run.testID == r.testID
      && run.testCatalogID == (if r.testCatalogID == "" then r.testID else r.testCatalogID)
      && run.status == r.status && run.startedAt == r.startedAt && run.completedAt == r.completedAt
      && run.errorMessage == r.errorMessage
  {
  }

  predicate IsEnd(status: RunStatus) { status.Completed? || status.Failed? || status.Stopped? }

  /** An update sets the status and the message; the first start is kept, the last end is stamped, and
      nothing else of the run changes. */
  lemma {:induction false} StatusUpdateOutcome(r: Run, status: RunStatus, errMsg: string, now: Time)
    ensures var run := WithStatus(r, status, errMsg, now);
      && run.status == status && run.errorMessage == errMsg
      && run.startedAt == (if status.Running? && r.startedAt.None? then Some(now) else r.startedAt)
      && run.completedAt == (if IsEnd(status) then Some(now) else r.completedAt)
      && run.id == r.id && run.testID == r.testID && run.testCatalogID == r.testCatalogID && run.createdAt == r.createdAt
  {
  }

  function UpdateStatus(runs: RunTable, id: Id, status: RunStatus, errMsg: string, now: Time): (RunTable, Option<Error>) {
    if id !in runs then (runs, Some(NotFound))
    else (runs[id := WithStatus(runs[id], status, errMsg, now)], None)
  }

  function RunsOfTest(runs: RunTable, c: Id): set<Run> {
    RunRows(runs, RunIDsOfTest(runs, c))
  }

  function RunRows(runs: RunTable, ids: set<Id>): set<Run> {
    set id | id in ids && id in runs :: runs[id]
  }

  lemma {:induction false} RunRowsStep(runs: RunTable, ids: set<Id>, id: Id)
    requires forall j | j in runs :: runs[j].id == j
    requires id in runs && id !in ids
    ensures runs[id] !in RunRows(runs, ids)
    ensures RunRows(runs, ids + {id}) == RunRows(runs, ids) + {runs[id]}
  {
  }

  function RunIDsOfTest(runs: RunTable, c: Id): set<Id> {
    set id | id in runs && runs[id].testCatalogID == c
  }

  predicate NewerRun(a: Run, b: Run) { a.createdAt > b.createdAt }

  /** A run's timestamps fit its status. */
  predicate TimesFitStatus(r: Run) {
    match r.status
    case Pending => r.startedAt.None? && r.completedAt.None?
    case Running => r.startedAt.Some? && r.completedAt.None?
    case _ => r.completedAt.Some?
  }

  // ---------- metrics ----------

  type Snapshots = map<Id, seq<Snapshot>>

  function HistoryOf(snapshots: Snapshots, r: Id): seq<Snapshot> {
    if r in snapshots then snapshots[r] else []
  }

  function LatestOf(snapshots: Snapshots, r: Id): Result<Snapshot> {
    var history := HistoryOf(snapshots, r);
    if history == [] then Err(NotFound) else Ok(history[|history| - 1])
  }

  /** AppendMetricSnapshot, with the id and the time it gives the snapshot already in it. */
  function Append(runs: RunTable, snapshots: Snapshots, snap: Snapshot): (Snapshots, Option<Error>) {
    if snap.runID !in runs then (snapshots, Some(NotFound))
    else (snapshots[snap.runID := HistoryOf(snapshots, snap.runID) + [snap]], None)
  }

  function AppendAll(runs: RunTable, snapshots: Snapshots, snaps: seq<Snapshot>): Snapshots {
    if |snaps| == 0 then snapshots
    else Append(runs, AppendAll(runs, snapshots, snaps[..|snaps| - 1]), snaps[|snaps| - 1]).0
  }

  /** The snapshots of one run among those of all. */
  function Of(snaps: seq<Snapshot>, r: Id): seq<Snapshot> {
    if |snaps| == 0 then []
    else Of(snaps[..|snaps| - 1], r) + if snaps[|snaps| - 1].runID == r then [snaps[|snaps| - 1]] else []
  }

  /** However the posts of all runs are mixed, a known run's history grows by exactly its own, in order,
      and its latest snapshot is the last of them; an unknown run's posts leave no trace. */
  lemma {:induction false} HistoryIsWhatWasPosted(runs: RunTable, snapshots: Snapshots, snaps: seq<Snapshot>, r: Id)
    ensures var after := AppendAll(runs, snapshots, snaps);
      && HistoryOf(after, r) == HistoryOf(snapshots, r) + (if r in runs then Of(snaps, r) else [])
      && (r in runs && Of(snaps, r) != [] ==> LatestOf(after, r) == Ok(Of(snaps, r)[|Of(snaps, r)| - 1]))
  {
    if |snaps| > 0 {
      HistoryIsWhatWasPosted(runs, snapshots, snaps[..|snaps| - 1], r);
    }
  }
}
