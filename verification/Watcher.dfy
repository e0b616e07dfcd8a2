/** Reconciling Jobs with run statuses (backend/internal/watcher/watcher.go). */
module Watcher {
  import opened Model
  import opened Runs
  import M = MemStore

  /** What one iteration of PollOnce makes of the run it has read: nothing, or one status update. */
  datatype Verdict = Keep | Set(status: RunStatus, message: string)

  function Decide(run: Run, job: Job, now: Time, timeout: Time): Verdict {
    if job.succeeded > 0 && !run.status.Completed? then Set(Completed, "")
    else if job.failed > 0 && !run.status.Failed? then Set(Failed, "job failed")
    else if job.active > 0 && run.status.Pending? then Set(Running, "")
    else if run.status.Pending? && job.active == 0 && job.succeeded == 0 && job.failed == 0
      && run.startedAt.None? && now - job.created > timeout then Set(Failed, "unschedulable")
    else Keep
  }

  /** The update, applied to the row as it is stored by then. */
  function WriteBack(stored: Run, verdict: Verdict, now: Time): Run {
    match verdict
    case Keep => stored
    case Set(status, message) => WithStatus(stored, status, message, now)
  }

  /** An iteration with nothing between its read and its write. */
  function Reconcile(run: Run, job: Job, now: Time, timeout: Time): Run {
    WriteBack(run, Decide(run, job, now, timeout), now)
  }

  function PollJob(runs: RunTable, job: Job, now: Time, timeout: Time): RunTable {
    if job.runID in runs then runs[job.runID := Reconcile(runs[job.runID], job, now, timeout)] else runs
  }

  function Poll(runs: RunTable, jobs: seq<Job>, now: Time, timeout: Time): RunTable {
    if |jobs| == 0 then runs
    else PollJob(Poll(runs, jobs[..|jobs| - 1], now, timeout), jobs[|jobs| - 1], now, timeout)
  }

  class Watcher {
    const runStore: M.RunStore
    const unschedulableTimeout: Time

    constructor (runStore: M.RunStore, timeout: Time)
      ensures this.runStore == runStore && unschedulableTimeout == timeout
    {
      this.runStore, unschedulableTimeout := runStore, timeout;
    }

    /** listing is the labelled Jobs, or None when the cluster cannot list them. */
    method PollOnce(listing: Option<seq<Job>>, now: Time) returns (ok: bool)
      modifies runStore`runs
      ensures ok <==> listing.Some?
      ensures runStore.runs
           == if ok then Poll(old(runStore.runs), listing.value, now, unschedulableTimeout) else old(runStore.runs)
    {
      if listing.None? {
        return false;
      }
      var jobs := listing.value;
      for i := 0 to |jobs|
        invariant runStore.runs == Poll(old(runStore.runs), jobs[..i], now, unschedulableTimeout)
      {
        assert jobs[..i + 1][..i] == jobs[..i];
        var job := jobs[i];
        var found := runStore.GetRun(job.runID);
        if found.Err? {
          continue;
        }
        var run := found.value;
        var r;
        assert runStore.runs[job.runID := run] == runStore.runs;
        if job.succeeded > 0 && !run.status.Completed? {
          r := runStore.UpdateRunStatus(job.runID, Completed, "", now);
        } else if job.failed > 0 && !run.status.Failed? {
          r := runStore.UpdateRunStatus(job.runID, Failed, "job failed", now);
        } else if job.active > 0 && run.status.Pending? {
          r := runStore.UpdateRunStatus(job.runID, Running, "", now);
        } else if run.status.Pending? && job.active == 0 && job.succeeded == 0 && job.failed == 0 {
          if run.startedAt.None? && now - job.created > unschedulableTimeout {
            r := runStore.UpdateRunStatus(job.runID, Failed, "unschedulable", now);
          }
        }
      }
      assert jobs[..|jobs|] == jobs;
      ok := true;
    }
  }

  // ---------- one run ----------

  predicate Ended(job: Job) { job.succeeded > 0 || job.failed > 0 }

  predicate Contradictory(job: Job) { job.succeeded > 0 && job.failed > 0 }

  /** The later report of a Job whose finished-pod counters only grow. */
  predicate GrowsTo(job: Job, later: Job) {
    job.succeeded <= later.succeeded && job.failed <= later.failed
  }

  /** The status the run of an ended Job must have. */
  function FinalStatus(job: Job): RunStatus
    requires Ended(job)
  {
    if job.succeeded > 0 then Completed else Failed
  }

  /** The first poll after a Job ends fixes its run for good: the final status is set, and no later
      poll, at any time and whatever the other counters say, writes the run again. */
  lemma {:induction false} EndIsFinal(run: Run, job: Job, now: Time, later: Job, then': Time, timeout: Time)
    requires Ended(job) && GrowsTo(job, later) && !Contradictory(later)
    ensures var r := Reconcile(run, job, now, timeout);
      && r.status == FinalStatus(job)
      && Reconcile(r, later, then', timeout) == r
      && (run.status != FinalStatus(job) ==> r.completedAt == Some(now))
  {
  }

  /** A run is still pending after a poll exactly when it was pending and its Job shows no pod at all
      and is within the timeout; a poll writes nothing else of it. */
  lemma {:induction false} PendingAfterPoll(run: Run, job: Job, now: Time, timeout: Time)
    requires TimesFitStatus(run)
    ensures var r := Reconcile(run, job, now, timeout);
      (r.status.Pending? <==>
        run.status.Pending? && !Ended(job) && job.active == 0 && now - job.created <= timeout)
      && (r.status.Pending? ==> r == run)
  {
  }

  /** An iteration writes a run exactly when it changes the run's status. */
  lemma {:induction false} WritesChangeTheStatus(run: Run, job: Job, now: Time, timeout: Time)
    ensures Decide(run, job, now, timeout).Set? <==> Reconcile(run, job, now, timeout).status != run.status
    ensures Decide(run, job, now, timeout).Set? <==> Reconcile(run, job, now, timeout) != run
    ensures TimesFitStatus(run) ==> TimesFitStatus(Reconcile(run, job, now, timeout))
  {
  }

  /** What an iteration decides, outcome by outcome. Success comes before failure, and either before a
      first pod or a lost patience. */
  lemma {:induction false} VerdictsExactly(run: Run, job: Job, now: Time, timeout: Time)
    ensures var v := Decide(run, job, now, timeout);
      var succeeds, fails := job.succeeded > 0 && !run.status.Completed?, job.failed > 0 && !run.status.Failed?;
      && (v == Set(Completed, "") <==> succeeds)
      && (v == Set(Failed, "job failed") <==> !succeeds && fails)
      && (v == Set(Running, "") <==> !Ended(job) && run.status.Pending? && job.active > 0)
      && (v == Set(Failed, "unschedulable") <==>
           !Ended(job) && run.status.Pending? && job.active == 0 && run.startedAt.None? && now - job.created > timeout)
      && (v.Set? ==> v in {Set(Completed, ""), Set(Failed, "job failed"), Set(Running, ""), Set(Failed, "unschedulable")})
  {
  }

  /** An iteration writes nothing exactly when the run already has every outcome the Job reports and,
      if it is pending, the Job shows no pod and may still get one. */
  lemma {:induction false} KeepsExactly(run: Run, job: Job, now: Time, timeout: Time)
    ensures Decide(run, job, now, timeout).Keep? <==>
      && (job.succeeded > 0 ==> run.status.Completed?)
      && (job.failed > 0 ==> run.status.Failed?)
      && (run.status.Pending? ==> job.active == 0 && (run.startedAt.None? ==> now - job.created <= timeout))
  {
  }

  /** A cancelled run that still finds a Job in a listing -- one taken before the Job was deleted --
      keeps its status exactly when that Job had not ended. */
  lemma {:induction false} StoppedSurvivesOnlyAnUnendedJob(run: Run, job: Job, now: Time, timeout: Time)
    requires run.status.Stopped?
    ensures Reconcile(run, job, now, timeout) == run <==> !Ended(job)
  {
  }

  lemma {:induction false} ReconcileTwice(run: Run, job: Job, now: Time, timeout: Time)
    ensures var r := Reconcile(run, job, now, timeout);
      Reconcile(r, job, now, timeout) == r <==> !Contradictory(job)
  {
  }

  // ---------- a whole poll ----------

  ghost predicate DistinctRuns(jobs: seq<Job>) {
    forall i, j | 0 <= i < j < |jobs| :: jobs[i].runID != jobs[j].runID
  }

  ghost predicate Lists(jobs: seq<Job>, id: Id) {
    exists j :: j in jobs && j.runID == id
  }

  lemma {:induction false} UnlistedIsUntouched(runs: RunTable, jobs: seq<Job>, now: Time, timeout: Time, id: Id)
    requires forall k | 0 <= k < |jobs| :: jobs[k].runID != id
    ensures Poll(runs, jobs, now, timeout).Keys == runs.Keys
    ensures id in runs ==> Poll(runs, jobs, now, timeout)[id] == runs[id]
  {
    if |jobs| > 0 {
      UnlistedIsUntouched(runs, jobs[..|jobs| - 1], now, timeout, id);
    }
  }

  lemma {:induction false} ListedIsReconciled(runs: RunTable, jobs: seq<Job>, now: Time, timeout: Time, k: nat)
    requires DistinctRuns(jobs) && k < |jobs| && jobs[k].runID in runs
    ensures Poll(runs, jobs, now, timeout).Keys == runs.Keys
    ensures Poll(runs, jobs, now, timeout)[jobs[k].runID] == Reconcile(runs[jobs[k].runID], jobs[k], now, timeout)
  {
    var init := jobs[..|jobs| - 1];
    if k < |init| {
      ListedIsReconciled(runs, init, now, timeout, k);
    } else {
      UnlistedIsUntouched(runs, init, now, timeout, jobs[k].runID);
    }
  }

  lemma {:induction false} PollKeepsRuns(runs: RunTable, jobs: seq<Job>, now: Time, timeout: Time)
    ensures Poll(runs, jobs, now, timeout).Keys == runs.Keys
  {
    if |jobs| > 0 {
      PollKeepsRuns(runs, jobs[..|jobs| - 1], now, timeout);
    }
  }

  /** A poll is one reconciliation per listed run, and touches no other run. */
  lemma {:induction false} PollIsPointwise(runs: RunTable, jobs: seq<Job>, now: Time, timeout: Time)
    requires DistinctRuns(jobs)
    ensures Poll(runs, jobs, now, timeout).Keys == runs.Keys
    ensures forall j | j in jobs && j.runID in runs ::
      Poll(runs, jobs, now, timeout)[j.runID] == Reconcile(runs[j.runID], j, now, timeout)
    ensures forall id | id in runs && !Lists(jobs, id) :: Poll(runs, jobs, now, timeout)[id] == runs[id]
  {
    PollKeepsRuns(runs, jobs, now, timeout);
    forall j | j in jobs && j.runID in runs
      ensures Poll(runs, jobs, now, timeout)[j.runID] == Reconcile(runs[j.runID], j, now, timeout)
    {
      var k :| 0 <= k < |jobs| && jobs[k] == j;
      ListedIsReconciled(runs, jobs, now, timeout, k);
    }
    forall id | id in runs && !Lists(jobs, id) ensures Poll(runs, jobs, now, timeout)[id] == runs[id] {
      assert forall k | 0 <= k < |jobs| :: jobs[k] in jobs;
      UnlistedIsUntouched(runs, jobs, now, timeout, id);
    }
  }

  /** The order in which the cluster lists the Jobs does not matter. */
  lemma {:induction false} PollIgnoresListingOrder(runs: RunTable, jobs: seq<Job>, jobs': seq<Job>, now: Time, timeout: Time)
    requires DistinctRuns(jobs) && DistinctRuns(jobs')
    requires forall j :: j in jobs <==> j in jobs'
    ensures Poll(runs, jobs, now, timeout) == Poll(runs, jobs', now, timeout)
  {
    PollIsPointwise(runs, jobs, now, timeout);
    PollIsPointwise(runs, jobs', now, timeout);
    forall id | id in runs
      ensures Poll(runs, jobs, now, timeout)[id] == Poll(runs, jobs', now, timeout)[id]
    {
      if Lists(jobs, id) {
        var j :| j in jobs && j.runID == id;
        assert j in jobs';
      } else {
        assert !Lists(jobs', id);
      }
    }
  }

  /** A second poll of the same Jobs at the same time changes nothing, exactly when no listed Job
      reports both success and failure for a stored run. */
  lemma {:induction false} PollTwice(runs: RunTable, jobs: seq<Job>, now: Time, timeout: Time)
    requires DistinctRuns(jobs)
    ensures var once := Poll(runs, jobs, now, timeout);
      Poll(once, jobs, now, timeout) == once
      <==> forall j | j in jobs && j.runID in runs :: !Contradictory(j)
  {
    var once := Poll(runs, jobs, now, timeout);
    var twice := Poll(once, jobs, now, timeout);
    PollIsPointwise(runs, jobs, now, timeout);
    PollIsPointwise(once, jobs, now, timeout);
    forall j | j in jobs && j.runID in runs
      ensures twice[j.runID] == once[j.runID] <==> !Contradictory(j)
    {
      ReconcileTwice(runs[j.runID], j, now, timeout);
    }
    if forall j | j in jobs && j.runID in runs :: !Contradictory(j) {
      forall id | id in runs ensures twice[id] == once[id] {
        if Lists(jobs, id) {
          var j :| j in jobs && j.runID == id;
        }
      }
    }
  }
}
