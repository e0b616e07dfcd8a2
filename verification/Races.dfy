/** The run lifecycle without atomicity: starts, cancels and polls of any number of sessions, each in
    the steps the source takes, interleaved. A poll lists the Jobs, and for each of them reads the run
    and then writes it; a start creates the run and then the Job; a cancel deletes the Job and then
    marks the run (backend/internal/watcher/watcher.go, backend/internal/api/runs.go). */
module Races {
  import opened Model
  import opened Runs
  import opened Watcher

  datatype Session =
    | Polling(todo: seq<Job>)                                // Jobs listed and not yet looked at
    | Deciding(runID: Id, verdict: Verdict, todo: seq<Job>)  // run read, verdict not yet written
    | Starting(runID: Id)                                    // run created, Job not yet
    | Stopping(runID: Id)                                    // Job deleted, run not yet marked

  datatype World = World(runs: RunTable, jobs: map<Id, Job>, sessions: map<Id, Session>)

  datatype Action =
    | List(listing: seq<Job>)
    | Read
    | Write
    | Create(run: Run)
    | Launch
    | Abort(reason: string)
    | Delete(runID: Id)
    | Stop
    | Report(job: Job)

  datatype Event = Event(s: Id, action: Action, now: Time)

  predicate Idle(w: World, s: Id) {
    s !in w.sessions || (w.sessions[s].Polling? && |w.sessions[s].todo| == 0)
  }

  /** A listing shows every Job once. */
  ghost predicate IsListing(listing: seq<Job>, jobs: map<Id, Job>) {
    DistinctRuns(listing) && forall j :: j in listing <==> j in jobs.Values
  }

  ghost predicate Enabled(w: World, e: Event) {
    match e.action
    case List(listing) => Idle(w, e.s) && IsListing(listing, w.jobs)
    case Read => e.s in w.sessions && w.sessions[e.s].Polling? && |w.sessions[e.s].todo| > 0
    case Write => e.s in w.sessions && w.sessions[e.s].Deciding?
    case Create(run) => Idle(w, e.s) && run.id !in w.runs && run.status.Pending?
    case Launch => e.s in w.sessions && w.sessions[e.s].Starting?
    case Abort(_) => e.s in w.sessions && w.sessions[e.s].Starting?
    case Delete(r) => Idle(w, e.s) && r in w.runs
    case Stop => e.s in w.sessions && w.sessions[e.s].Stopping?
    case Report(job) => job.runID in w.jobs && job.created == w.jobs[job.runID].created
  }

  function Marked(runs: RunTable, r: Id, verdict: Verdict, now: Time): RunTable {
    if r in runs then runs[r := WriteBack(runs[r], verdict, now)] else runs
  }

  ghost function RunsAfter(w: World, e: Event): RunTable
    requires Enabled(w, e)
  {
    match e.action
    case Write => Marked(w.runs, w.sessions[e.s].runID, w.sessions[e.s].verdict, e.now)
    case Create(run) => w.runs[run.id := run]
    case Abort(reason) => Marked(w.runs, w.sessions[e.s].runID, Set(Failed, reason), e.now)
    case Stop => Marked(w.runs, w.sessions[e.s].runID, Set(Stopped, ""), e.now)
    case _ => w.runs
  }

  ghost function JobsAfter(w: World, e: Event): map<Id, Job>
    requires Enabled(w, e)
  {
    match e.action
    case Launch => w.jobs[w.sessions[e.s].runID := Job(w.sessions[e.s].runID, 0, 0, 0, e.now)]
    case Delete(r) => w.jobs - {r}
    case Report(job) => w.jobs[job.runID := job]
    case _ => w.jobs
  }

  /** The read of an iteration; a run that is not stored is skipped. */
  function AfterRead(runs: RunTable, todo: seq<Job>, now: Time, timeout: Time): Session
    requires |todo| > 0
  {
    var job := todo[0];
    if job.runID in runs then Deciding(job.runID, Decide(runs[job.runID], job, now, timeout), todo[1..])
    else Polling(todo[1..])
  }

  ghost function SessionsAfter(w: World, e: Event, timeout: Time): map<Id, Session>
    requires Enabled(w, e)
  {
    match e.action
    case List(listing) => w.sessions[e.s := Polling(listing)]
    case Read => w.sessions[e.s := AfterRead(w.runs, w.sessions[e.s].todo, e.now, timeout)]
    case Write => w.sessions[e.s := Polling(w.sessions[e.s].todo)]
    case Create(run) => w.sessions[e.s := Starting(run.id)]
    case Delete(r) => w.sessions[e.s := Stopping(r)]
    case Report(_) => w.sessions
    case _ => w.sessions - {e.s}
  }

  ghost function Step(w: World, e: Event, timeout: Time): World
    requires Enabled(w, e)
  {
    World(RunsAfter(w, e), JobsAfter(w, e), SessionsAfter(w, e, timeout))
  }

  ghost predicate Possible(w: World, es: seq<Event>, timeout: Time)
    decreases |es|
  {
    |es| == 0 || (Enabled(w, es[0]) && Possible(Step(w, es[0], timeout), es[1..], timeout))
  }

  ghost function Exec(w: World, es: seq<Event>, timeout: Time): World
    requires Possible(w, es, timeout)
    decreases |es|
  {
    if |es| == 0 then w else Exec(Step(w, es[0], timeout), es[1..], timeout)
  }

  // ---------- what every interleaving keeps ----------

  predicate SessionOk(runs: RunTable, session: Session) {
    match session
    case Polling(_) => true
    case Deciding(r, v, _) => r in runs && (v.Set? ==> v.status.Completed? || v.status.Failed? || v.status.Running?)
    case Starting(r) => r in runs
    case Stopping(r) => r in runs
  }

  ghost predicate Good(w: World) {
    && w.jobs.Keys <= w.runs.Keys
    && (forall r | r in w.jobs :: w.jobs[r].runID == r)
    && forall s | s in w.sessions :: SessionOk(w.runs, w.sessions[s])
  }

  lemma {:induction false} RunsGrow(w: World, e: Event)
    requires Enabled(w, e)
    ensures w.runs.Keys <= RunsAfter(w, e).Keys
  {
  }

  lemma {:induction false} StepStaysGood(w: World, e: Event, timeout: Time)
    requires Good(w) && Enabled(w, e)
    ensures Good(Step(w, e, timeout))
  {
    RunsGrow(w, e);
    var w' := Step(w, e, timeout);
    forall s | s in w'.sessions ensures SessionOk(w'.runs, w'.sessions[s]) {
      assert s in w.sessions ==> SessionOk(w.runs, w.sessions[s]);
    }
    assert e.s in w.sessions ==> SessionOk(w.runs, w.sessions[e.s]);
  }

  predicate Live(run: Run) { run.status.Pending? || run.status.Running? }

  /** A request in flight that will either give the run a Job or end it. */
  ghost predicate Covered(sessions: map<Id, Session>, r: Id) {
    exists s :: s in sessions && (sessions[s] == Starting(r) || sessions[s] == Stopping(r))
  }

  ghost predicate Attended(w: World, r: Id) {
    r in w.jobs || Covered(w.sessions, r)
  }

  /** No run is stuck: each one that is pending or running has a Job, or a start or cancel under way. */
  ghost predicate NothingStuck(w: World) {
    forall r | r in w.runs && Live(w.runs[r]) :: Attended(w, r)
  }

  /** The poll that strands a run: it marks running a run whose Job is gone and that nobody attends to. */
  ghost predicate Strands(w: World, e: Event)
    requires Enabled(w, e)
  {
    && e.action.Write?
    && var session := w.sessions[e.s];
       session.verdict.Set? && session.verdict.status.Running? && !Attended(w, session.runID)
  }

  lemma {:induction false} NewCover(sessions: map<Id, Session>, s: Id, r: Id)
    ensures Covered(sessions[s := Starting(r)], r) && Covered(sessions[s := Stopping(r)], r)
  {
    assert (sessions[s := Starting(r)])[s] == Starting(r) && (sessions[s := Stopping(r)])[s] == Stopping(r);
  }

  lemma {:induction false} StaysAttended(w: World, e: Event, timeout: Time, r: Id)
    requires Good(w) && Enabled(w, e) && Attended(w, r)
    requires r in RunsAfter(w, e) && Live(RunsAfter(w, e)[r])
    ensures Attended(Step(w, e, timeout), r)
  {
    var ss, ss' := w.sessions, SessionsAfter(w, e, timeout);
    assert e.s in ss ==> SessionOk(w.runs, ss[e.s]);
    if e.action == Delete(r) {
      NewCover(ss, e.s, r);
    } else if r !in w.jobs && (e.s in ss ==> ss[e.s] != Starting(r) && ss[e.s] != Stopping(r)) {
      var t :| t in ss && (ss[t] == Starting(r) || ss[t] == Stopping(r));
      assert t in ss' && ss'[t] == ss[t];
    }
  }

  /** One step: whether a run gets stuck is decided by that poll's write alone. */
  lemma {:induction false} StuckExactlyWhenStranded(w: World, e: Event, timeout: Time)
    requires Good(w) && NothingStuck(w) && Enabled(w, e)
    ensures NothingStuck(Step(w, e, timeout)) <==> !Strands(w, e)
  {
    var w' := Step(w, e, timeout);
    if Strands(w, e) {
      StrandedIsStuck(w, e, timeout);
    } else {
      forall r | r in w'.runs && Live(w'.runs[r]) ensures Attended(w', r) {
        LiveWasAttended(w, e, r);
        if Attended(w, r) {
          StaysAttended(w, e, timeout, r);
        } else {
          NewCover(w.sessions, e.s, r);
        }
      }
    }
  }

  lemma {:induction false} LiveWasAttended(w: World, e: Event, r: Id)
    requires Good(w) && NothingStuck(w) && Enabled(w, e) && !Strands(w, e)
    requires r in RunsAfter(w, e) && Live(RunsAfter(w, e)[r])
    ensures Attended(w, r) || (e.action.Create? && e.action.run.id == r)
  {
    assert e.s in w.sessions ==> SessionOk(w.runs, w.sessions[e.s]);
  }

  lemma {:induction false} StrandedIsStuck(w: World, e: Event, timeout: Time)
    requires Good(w) && Enabled(w, e) && Strands(w, e)
    ensures var r := w.sessions[e.s].runID; var w' := Step(w, e, timeout);
      r in w'.runs && w'.runs[r].status.Running? && !Attended(w', r)
    ensures !NothingStuck(Step(w, e, timeout))
  {
    var r, w' := w.sessions[e.s].runID, Step(w, e, timeout);
    assert SessionOk(w.runs, w.sessions[e.s]);
    forall t | t in w'.sessions ensures w'.sessions[t] != Starting(r) && w'.sessions[t] != Stopping(r) {
      assert t != e.s ==> w.sessions[t] == w'.sessions[t];
    }
  }

  // ---------- which atomicity the promise needs ----------

  /** Every write of a poll directly follows the read it was decided on. */
  predicate WholeIterations(prev: Option<Event>, es: seq<Event>)
    decreases |es|
  {
    |es| == 0 || (
      && (es[0].action.Write? ==> prev.Some? && prev.value.s == es[0].s && prev.value.action.Read?)
      && WholeIterations(Some(es[0]), es[1..]))
  }

  /** The read just made still holds: if it decided to mark the run running, the run is attended to. */
  ghost predicate ReadHolds(w: World, prev: Option<Event>) {
    prev.Some? && prev.value.action.Read? && prev.value.s in w.sessions ==>
      var session := w.sessions[prev.value.s];
      session.Deciding? && session.verdict.Set? && session.verdict.status.Running? ==> Attended(w, session.runID)
  }

  lemma {:induction false} ReadsHold(w: World, e: Event, timeout: Time)
    requires Good(w) && NothingStuck(w) && Enabled(w, e)
    ensures ReadHolds(Step(w, e, timeout), Some(e))
  {
    if e.action.Read? {
      var job := w.sessions[e.s].todo[0];
      var w' := Step(w, e, timeout);
      if job.runID in w.runs && Live(w.runs[job.runID]) {
        assert Attended(w, job.runID);
        StaysAttended(w, e, timeout, job.runID);
      }
    }
  }

  /** With every iteration's read and write atomic -- and nothing else: listings may be stale, starts
      and cancels split, and any number of polls under way -- no run is ever stuck. */
  lemma {:induction false} WholeIterationsNeverStick(w: World, prev: Option<Event>, es: seq<Event>, timeout: Time)
    requires Good(w) && NothingStuck(w) && ReadHolds(w, prev)
    requires Possible(w, es, timeout) && WholeIterations(prev, es)
    ensures Good(Exec(w, es, timeout)) && NothingStuck(Exec(w, es, timeout))
    decreases |es|
  {
    if |es| > 0 {
      StepStaysGood(w, es[0], timeout);
      StuckExactlyWhenStranded(w, es[0], timeout);
      ReadsHold(w, es[0], timeout);
      WholeIterationsNeverStick(Step(w, es[0], timeout), Some(es[0]), es[1..], timeout);
    }
  }

  const EMPTY := World(map[], map[], map[])

  lemma {:induction false} NoRunSticksIfIterationsAreWhole(es: seq<Event>, timeout: Time)
    requires Possible(EMPTY, es, timeout) && WholeIterations(None, es)
    ensures NothingStuck(Exec(EMPTY, es, timeout))
  {
    WholeIterationsNeverStick(EMPTY, None, es, timeout);
  }

  // ---------- stopped runs and their Jobs ----------

  /** No Job is left working for a run that has been stopped. */
  ghost predicate StoppedAreIdle(w: World) {
    forall r | r in w.runs && w.runs[r].status.Stopped? :: r !in w.jobs
  }

  /** A start that creates a Job for a run already stopped, or a cancel that marks a run whose Job has
      been created since it looked for one to delete. */
  ghost predicate Overlaps(w: World, e: Event)
    requires Enabled(w, e)
  {
    && (e.action.Launch? || e.action.Stop?)
    && var r := w.sessions[e.s].runID;
       if e.action.Launch? then r in w.runs && w.runs[r].status.Stopped? else r in w.jobs
  }

  lemma {:induction false} WorkingExactlyWhenOverlapping(w: World, e: Event, timeout: Time)
    requires Good(w) && StoppedAreIdle(w) && Enabled(w, e)
    ensures StoppedAreIdle(Step(w, e, timeout)) <==> !Overlaps(w, e)
  {
    var w' := Step(w, e, timeout);
    assert e.s in w.sessions ==> SessionOk(w.runs, w.sessions[e.s]);
    if Overlaps(w, e) {
      var r := w.sessions[e.s].runID;
      assert r in w'.runs && w'.runs[r].status.Stopped? && r in w'.jobs;
    }
  }

  /** Every Job that is created is created directly after its run. */
  predicate WholeStarts(prev: Option<Event>, es: seq<Event>)
    decreases |es|
  {
    |es| == 0 || (
      && (es[0].action.Launch? ==> prev.Some? && prev.value.s == es[0].s && prev.value.action.Create?)
      && WholeStarts(Some(es[0]), es[1..]))
  }

  /** No cancel is under way for a run that has a Job again. */
  ghost predicate CancelsHold(w: World) {
    forall s | s in w.sessions && w.sessions[s].Stopping? :: w.sessions[s].runID !in w.jobs
  }

  ghost predicate CreationHolds(w: World, prev: Option<Event>) {
    prev.Some? && prev.value.action.Create? && prev.value.s in w.sessions && w.sessions[prev.value.s].Starting? ==>
      var r := w.sessions[prev.value.s].runID;
      && r in w.runs && w.runs[r].status.Pending?
      && forall s | s in w.sessions && w.sessions[s].Stopping? :: w.sessions[s].runID != r
  }

  lemma {:induction false} StartStep(w: World, prev: Option<Event>, e: Event, timeout: Time)
    requires Good(w) && Enabled(w, e) && CancelsHold(w) && CreationHolds(w, prev) && WholeStarts(prev, [e])
    ensures CancelsHold(Step(w, e, timeout)) && CreationHolds(Step(w, e, timeout), Some(e)) && !Overlaps(w, e)
  {
    var w' := Step(w, e, timeout);
    assert forall s | s in w.sessions :: SessionOk(w.runs, w.sessions[s]);
    forall s | s in w'.sessions && w'.sessions[s].Stopping? ensures w'.sessions[s].runID !in w'.jobs {
      if s != e.s || e.action.Report? {
        assert w.sessions[s] == w'.sessions[s];
      }
    }
  }

  /** With every start atomic -- and nothing else -- no Job works for a stopped run. */
  lemma {:induction false} WholeStartsLeaveNoJobBehind(w: World, prev: Option<Event>, es: seq<Event>, timeout: Time)
    requires Good(w) && StoppedAreIdle(w) && CancelsHold(w) && CreationHolds(w, prev)
    requires Possible(w, es, timeout) && WholeStarts(prev, es)
    ensures StoppedAreIdle(Exec(w, es, timeout))
    decreases |es|
  {
    if |es| > 0 {
      assert WholeStarts(prev, [es[0]]);
      StartStep(w, prev, es[0], timeout);
      StepStaysGood(w, es[0], timeout);
      WorkingExactlyWhenOverlapping(w, es[0], timeout);
      WholeStartsLeaveNoJobBehind(Step(w, es[0], timeout), Some(es[0]), es[1..], timeout);
    }
  }

  // ---------- whether a cancel lasts ----------

  /** The steps that write a run without being asked to stop it: a poll's verdict, and a failed start. */
  predicate Overwrites(w: World, e: Event, r: Id) {
    && e.s in w.sessions
    && match w.sessions[e.s]
       case Deciding(q, verdict, _) => e.action.Write? && q == r && verdict.Set?
       case Starting(q) => e.action.Abort? && q == r
       case _ => false
  }

  predicate Stops(w: World, e: Event, r: Id) {
    e.action.Stop? && e.s in w.sessions && w.sessions[e.s] == Stopping(r)
  }

  ghost predicate NeverStops(w: World, es: seq<Event>, r: Id, timeout: Time)
    requires Possible(w, es, timeout)
    decreases |es|
  {
    |es| == 0 || (!Stops(w, es[0], r) && NeverStops(Step(w, es[0], timeout), es[1..], r, timeout))
  }

  ghost predicate EverOverwrites(w: World, es: seq<Event>, r: Id, timeout: Time)
    requires Possible(w, es, timeout)
    decreases |es|
  {
    |es| > 0 && (Overwrites(w, es[0], r) || EverOverwrites(Step(w, es[0], timeout), es[1..], r, timeout))
  }

  lemma {:induction false} StatusAfter(w: World, e: Event, timeout: Time, r: Id)
    requires Good(w) && Enabled(w, e) && r in w.runs && !Stops(w, e, r)
    ensures var runs' := Step(w, e, timeout).runs;
      && r in runs'
      && (Overwrites(w, e, r) ==> !runs'[r].status.Stopped?)
      && (!Overwrites(w, e, r) ==> runs'[r] == w.runs[r])
  {
    assert e.s in w.sessions ==> SessionOk(w.runs, w.sessions[e.s]);
  }

  /** Over any interleaving without another cancel, a stopped run is stopped at the end exactly when no
      poll wrote a verdict it had reached about it and no start of it failed. */
  lemma {:induction false} CancelLastsExactly(w: World, es: seq<Event>, timeout: Time, r: Id)
    requires Good(w) && Possible(w, es, timeout) && r in w.runs && NeverStops(w, es, r, timeout)
    ensures var runs' := Exec(w, es, timeout).runs;
      r in runs' && (runs'[r].status.Stopped? <==> w.runs[r].status.Stopped? && !EverOverwrites(w, es, r, timeout))
    decreases |es|
  {
    if |es| > 0 {
      StepStaysGood(w, es[0], timeout);
      StatusAfter(w, es[0], timeout, r);
      CancelLastsExactly(Step(w, es[0], timeout), es[1..], timeout, r);
    }
  }

  // ---------- what decides, at the cancel, whether it lasts ----------

  predicate EndedIn(todo: seq<Job>, r: Id) {
    exists j :: j in todo && j.runID == r && Ended(j)
  }

  /** A session that can still overwrite a stopped run: a poll that has listed the run's Job as ended, a
      poll that has decided to write the run, or the run's start. */
  predicate Threatens(session: Session, r: Id) {
    match session
    case Polling(todo) => EndedIn(todo, r)
    case Deciding(q, verdict, todo) => (q == r && verdict.Set?) || EndedIn(todo, r)
    case Starting(q) => q == r
    case Stopping(_) => false
  }

  ghost predicate Safe(w: World, r: Id) {
    && r in w.runs && w.runs[r].status.Stopped? && r !in w.jobs
    && forall s | s in w.sessions :: !Threatens(w.sessions[s], r)
  }

  ghost predicate StoppedAfter(w: World, es: seq<Event>, r: Id, timeout: Time)
    requires Possible(w, es, timeout)
  {
    var runs' := Exec(w, es, timeout).runs;
    r in runs' && runs'[r].status.Stopped?
  }

  lemma {:induction false} SafeRead(runs: RunTable, todo: seq<Job>, r: Id, now: Time, timeout: Time)
    requires |todo| > 0 && !EndedIn(todo, r) && r in runs && runs[r].status.Stopped?
    ensures !Threatens(AfterRead(runs, todo, now, timeout), r)
  {
    assert todo[0] in todo && forall j | j in todo[1..] :: j in todo;
    if todo[0].runID == r {
      KeepsExactly(runs[r], todo[0], now, timeout);
    }
  }

  lemma {:induction false} SafeSession(w: World, e: Event, timeout: Time, r: Id)
    requires Good(w) && Enabled(w, e) && Safe(w, r)
    requires e.s in SessionsAfter(w, e, timeout)
    ensures !Threatens(SessionsAfter(w, e, timeout)[e.s], r)
  {
    assert e.s in w.sessions ==> !Threatens(w.sessions[e.s], r);
    match e.action
    case List(listing) =>
      forall j | j in listing ensures j.runID != r {
        assert j in w.jobs.Values;
      }
    case Read => SafeRead(w.runs, w.sessions[e.s].todo, r, e.now, timeout);
    case _ =>
  }

  lemma {:induction false} StaysSafe(w: World, e: Event, timeout: Time, r: Id)
    requires Good(w) && Enabled(w, e) && Safe(w, r)
    ensures Safe(Step(w, e, timeout), r)
  {
    var w' := Step(w, e, timeout);
    assert e.s in w.sessions ==> !Threatens(w.sessions[e.s], r) && SessionOk(w.runs, w.sessions[e.s]);
    forall s | s in w'.sessions ensures !Threatens(w'.sessions[s], r) {
      if s == e.s {
        SafeSession(w, e, timeout, r);
      } else {
        assert w'.sessions[s] == w.sessions[s];
      }
    }
  }

  lemma {:induction false} SafeForGood(w: World, es: seq<Event>, timeout: Time, r: Id)
    requires Good(w) && Possible(w, es, timeout) && Safe(w, r)
    ensures StoppedAfter(w, es, r, timeout)
    decreases |es|
  {
    if |es| > 0 {
      StepStaysGood(w, es[0], timeout);
      StaysSafe(w, es[0], timeout, r);
      SafeForGood(Step(w, es[0], timeout), es[1..], timeout, r);
    }
  }

  lemma {:induction false} OneMoreEvent(w: World, e: Event, es: seq<Event>, timeout: Time)
    requires Enabled(w, e) && Possible(Step(w, e, timeout), es, timeout)
    ensures Possible(w, [e] + es, timeout)
    ensures Exec(w, [e] + es, timeout) == Exec(Step(w, e, timeout), es, timeout)
  {
    assert ([e] + es)[0] == e && ([e] + es)[1..] == es;
  }

  lemma {:induction false} NothingHappens(w: World, timeout: Time)
    ensures Possible(w, [], timeout) && Exec(w, [], timeout) == w
  {
  }

  /** How much a session still has to do. */
  function Ahead(session: Session): nat {
    match session
    case Polling(todo) => 2 * |todo|
    case Deciding(_, _, todo) => 2 * |todo| + 1
    case _ => 0
  }

  /** The next thing the session does: it writes the run at once, or remains a threat with less to do. */
  function NextOf(session: Session): Action {
    match session
    case Polling(_) => Read
    case Deciding(_, _, _) => Write
    case Starting(_) => Abort("")
    case Stopping(_) => Stop
  }

  lemma {:induction false} ThreatAdvances(w: World, s: Id, r: Id, timeout: Time)
    requires Good(w) && r in w.runs && w.runs[r].status.Stopped? && s in w.sessions && Threatens(w.sessions[s], r)
    ensures var e := Event(s, NextOf(w.sessions[s]), 0);
      && Enabled(w, e)
      && var w' := Step(w, e, timeout);
      && r in w'.runs
      && (w'.runs[r].status.Stopped? ==>
           s in w'.sessions && Threatens(w'.sessions[s], r) && Ahead(w'.sessions[s]) < Ahead(w.sessions[s]))
  {
    assert SessionOk(w.runs, w.sessions[s]);
    match w.sessions[s]
    case Polling(todo) => ThreatReads(w.runs, todo, r, timeout);
    case Deciding(q, verdict, todo) =>
    case Starting(q) =>
  }

  lemma {:induction false} ThreatReads(runs: RunTable, todo: seq<Job>, r: Id, timeout: Time)
    requires EndedIn(todo, r) && r in runs && runs[r].status.Stopped?
    ensures |todo| > 0
    ensures var next := AfterRead(runs, todo, 0, timeout); Threatens(next, r) && Ahead(next) < Ahead(Polling(todo))
  {
    var j :| j in todo && j.runID == r && Ended(j);
    if todo[0] == j {
      KeepsExactly(runs[r], j, 0, timeout);
    } else {
      assert j in todo[1..];
    }
  }

  /** A threat can be carried out. */
  lemma {:induction false} ThreatMeansOverwritten(w: World, s: Id, r: Id, timeout: Time) returns (es: seq<Event>)
    requires Good(w) && r in w.runs && w.runs[r].status.Stopped? && s in w.sessions && Threatens(w.sessions[s], r)
    ensures Possible(w, es, timeout) && !StoppedAfter(w, es, r, timeout)
    decreases Ahead(w.sessions[s])
  {
    var e := Event(s, NextOf(w.sessions[s]), 0);
    ThreatAdvances(w, s, r, timeout);
    var w' := Step(w, e, timeout);
    if w'.runs[r].status.Stopped? {
      StepStaysGood(w, e, timeout);
      es := ThreatMeansOverwritten(w', s, r, timeout);
    } else {
      es := [];
      NothingHappens(w', timeout);
    }
    OneMoreEvent(w, e, es, timeout);
    es := [e] + es;
  }

  lemma {:induction false} LongerThanAll(ids: set<Id>) returns (n: nat)
    ensures forall id | id in ids :: |id| < n
  {
    if ids == {} {
      n := 0;
    } else {
      var id :| id in ids;
      n := LongerThanAll(ids - {id});
      n := if n <= |id| then |id| + 1 else n;
    }
  }

  lemma {:induction false} SomeListing(jobs: map<Id, Job>) returns (listing: seq<Job>)
    requires forall r | r in jobs :: jobs[r].runID == r
    ensures IsListing(listing, jobs)
    decreases |jobs|
  {
    if jobs == map[] {
      listing := [];
    } else {
      var r :| r in jobs;
      var rest := jobs - {r};
      assert rest.Keys == jobs.Keys - {r};
      listing := SomeListing(rest);
      assert forall j | j in listing :: j in rest.Values;
      forall j ensures j in listing + [jobs[r]] <==> j in jobs.Values {
        if j in jobs.Values {
          var q :| q in jobs && jobs[q] == j;
          assert q != r ==> q in rest && rest[q] == j;
        }
      }
      assert forall i | 0 <= i < |listing| :: listing[i] in listing;
      listing := listing + [jobs[r]];
    }
  }

  /** A Job that is still there can end, be listed, and overwrite its run. */
  lemma {:induction false} JobMeansOverwritten(w: World, r: Id, timeout: Time) returns (es: seq<Event>)
    requires Good(w) && r in w.runs && w.runs[r].status.Stopped? && r in w.jobs
    ensures Possible(w, es, timeout) && !StoppedAfter(w, es, r, timeout)
  {
    var n := LongerThanAll(w.sessions.Keys);
    var s: Id := seq(n, _ => 'x');
    var job := w.jobs[r].(succeeded := 1);
    var report := Event(s, Report(job), 0);
    var w1 := Step(w, report, timeout);
    StepStaysGood(w, report, timeout);
    var listing := SomeListing(w1.jobs);
    var list := Event(s, List(listing), 0);
    var w2 := Step(w1, list, timeout);
    StepStaysGood(w1, list, timeout);
    assert w1.jobs[r] == job && job in w1.jobs.Values && job in listing;
    es := ThreatMeansOverwritten(w2, s, r, timeout);
    OneMoreEvent(w1, list, es, timeout);
    OneMoreEvent(w, report, [list] + es, timeout);
    es := [report] + ([list] + es);
  }

  /** What a cancel is worth is decided where it is made: a stopped run stays stopped, whatever happens
      next, exactly when its Job is gone and no session under way threatens it. */
  lemma {:induction false} StoppedForGoodExactlyWhenSafe(w: World, r: Id, timeout: Time)
    requires Good(w) && r in w.runs && w.runs[r].status.Stopped?
    ensures (forall es | Possible(w, es, timeout) :: StoppedAfter(w, es, r, timeout)) <==> Safe(w, r)
  {
    if Safe(w, r) {
      forall es | Possible(w, es, timeout) ensures StoppedAfter(w, es, r, timeout) {
        SafeForGood(w, es, timeout, r);
      }
    } else if r in w.jobs {
      var es := JobMeansOverwritten(w, r, timeout);
    } else {
      var s :| s in w.sessions && Threatens(w.sessions[s], r);
      var es := ThreatMeansOverwritten(w, s, r, timeout);
    }
  }

  // ---------- the races, exactly ----------

  ghost function Cancelled(w: World, r: Id, cancelledAt: Time): World
    requires r in w.runs
  {
    World(w.runs[r := WithStatus(w.runs[r], Stopped, "", cancelledAt)], w.jobs - {r}, w.sessions)
  }

  /** An undisturbed cancel: the two steps of a session that has just come and then goes. */
  lemma {:induction false} CancelSteps(w: World, c: Id, r: Id, now: Time, timeout: Time)
    requires c !in w.sessions && r in w.runs
    ensures Enabled(w, Event(c, Delete(r), now))
    ensures var w1 := Step(w, Event(c, Delete(r), now), timeout);
      && Enabled(w1, Event(c, Stop, now))
      && Step(w1, Event(c, Stop, now), timeout) == Cancelled(w, r, now)
  {
    assert (w.sessions[c := Stopping(r)]) - {c} == w.sessions;
  }

  /** An undisturbed start leaves the run pending with its Job, or failed without one. */
  lemma {:induction false} StartSteps(w: World, s: Id, run: Run, reason: string, now: Time, timeout: Time)
    requires s !in w.sessions && run.id !in w.runs && run.status.Pending?
    ensures Enabled(w, Event(s, Create(run), now))
    ensures var w1 := Step(w, Event(s, Create(run), now), timeout);
      && Enabled(w1, Event(s, Launch, now)) && Enabled(w1, Event(s, Abort(reason), now))
      && Step(w1, Event(s, Launch, now), timeout) ==
        World(w.runs[run.id := run], w.jobs[run.id := Job(run.id, 0, 0, 0, now)], w.sessions)
      && Step(w1, Event(s, Abort(reason), now), timeout) ==
        World(w.runs[run.id := WithStatus(run, Failed, reason, now)], w.jobs, w.sessions)
  {
    assert (w.sessions[s := Starting(run.id)]) - {s} == w.sessions;
    assert w.runs[run.id := run][run.id := WithStatus(run, Failed, reason, now)]
      == w.runs[run.id := WithStatus(run, Failed, reason, now)];
  }

  /** A session about to look at the Job of run r. */
  predicate LooksAt(w: World, p: Id, r: Id) {
    && p in w.sessions && w.sessions[p].Polling? && |w.sessions[p].todo| > 0
    && w.sessions[p].todo[0].runID == r && r in w.runs
  }

  ghost function AfterTurn(w: World, p: Id, readAt: Time, writeAt: Time, timeout: Time): World
    requires Enabled(w, Event(p, Read, readAt))
    requires Enabled(Step(w, Event(p, Read, readAt), timeout), Event(p, Write, writeAt))
  {
    Step(Step(w, Event(p, Read, readAt), timeout), Event(p, Write, writeAt), timeout)
  }

  /** An iteration with nothing in between reconciles the run with the Job as it was listed. */
  lemma {:induction false} WholeTurn(w: World, p: Id, r: Id, readAt: Time, writeAt: Time, timeout: Time)
    requires LooksAt(w, p, r)
    ensures Enabled(w, Event(p, Read, readAt))
    ensures Enabled(Step(w, Event(p, Read, readAt), timeout), Event(p, Write, writeAt))
    ensures AfterTurn(w, p, readAt, writeAt, timeout) == World(
      w.runs[r := WriteBack(w.runs[r], Decide(w.runs[r], w.sessions[p].todo[0], readAt, timeout), writeAt)],
      w.jobs, w.sessions[p := Polling(w.sessions[p].todo[1..])])
  {
  }

  /** A cancel that falls between a poll's listing and its read: the poll sees a stopped run, and
      overwrites it exactly when the listed Job had ended. */
  lemma {:induction false} CancelBeforeTheRead(w: World, p: Id, r: Id, cancelledAt: Time, readAt: Time, writeAt: Time, timeout: Time)
    requires LooksAt(w, p, r)
    ensures var after := AfterTurn(Cancelled(w, r, cancelledAt), p, readAt, writeAt, timeout);
      r in after.runs && (after.runs[r].status.Stopped? <==> !Ended(w.sessions[p].todo[0]))
  {
    var w1 := Cancelled(w, r, cancelledAt);
    WholeTurn(w1, p, r, readAt, writeAt, timeout);
    KeepsExactly(w1.runs[r], w.sessions[p].todo[0], readAt, timeout);
  }

  ghost function CancelledInTurn(w: World, p: Id, r: Id, readAt: Time, cancelledAt: Time, writeAt: Time, timeout: Time): World
    requires LooksAt(w, p, r)
  {
    var read := Step(w, Event(p, Read, readAt), timeout);
    Step(Cancelled(read, r, cancelledAt), Event(p, Write, writeAt), timeout)
  }

  /** A cancel that falls between a poll's read and its write. It lasts exactly when the poll had decided
      to write nothing, which is when an undisturbed iteration would have left the run alone. The run is
      left running without a Job exactly when it was read pending and its Job was active and had not
      ended. */
  lemma {:induction false} CancelBeforeTheWrite(w: World, p: Id, r: Id, readAt: Time, cancelledAt: Time, writeAt: Time, timeout: Time)
    requires LooksAt(w, p, r)
    ensures var seen, job := w.runs[r], w.sessions[p].todo[0];
      var after := CancelledInTurn(w, p, r, readAt, cancelledAt, writeAt, timeout);
      && r in after.runs && r !in after.jobs
      && (after.runs[r].status.Stopped? <==> Decide(seen, job, readAt, timeout).Keep?)
      && (after.runs[r].status.Stopped? <==> Reconcile(seen, job, readAt, timeout) == seen)
      && (after.runs[r].status.Running? <==> seen.status.Pending? && job.active > 0 && !Ended(job))
      && after.sessions == w.sessions[p := Polling(w.sessions[p].todo[1..])]
  {
    var seen, job := w.runs[r], w.sessions[p].todo[0];
    WritesChangeTheStatus(seen, job, readAt, timeout);
  }

  predicate Mentions(session: Session, r: Id) {
    match session
    case Polling(todo) => exists j :: j in todo && j.runID == r
    case Deciding(q, _, todo) => q == r || exists j :: j in todo && j.runID == r
    case Starting(q) => q == r
    case Stopping(q) => q == r
  }

  /** A run nobody will look at: it has no Job, and no session under way is about it. */
  ghost predicate Forgotten(w: World, r: Id) {
    && r in w.runs && r !in w.jobs
    && forall s | s in w.sessions :: !Mentions(w.sessions[s], r)
  }

  predicate NoCancelOf(es: seq<Event>, r: Id) {
    forall i | 0 <= i < |es| :: es[i].action != Delete(r)
  }

  lemma {:induction false} StaysForgotten(w: World, e: Event, timeout: Time, r: Id)
    requires Good(w) && Enabled(w, e) && Forgotten(w, r) && e.action != Delete(r)
    ensures var w' := Step(w, e, timeout); Forgotten(w', r) && w'.runs[r] == w.runs[r]
  {
    var w' := Step(w, e, timeout);
    assert e.s in w.sessions ==> !Mentions(w.sessions[e.s], r);
    forall s | s in w'.sessions ensures !Mentions(w'.sessions[s], r) {
      if s == e.s && !e.action.Report? {
        match e.action
        case List(listing) =>
          forall j | j in listing ensures j.runID != r {
            assert j in w.jobs.Values;
          }
        case _ =>
      } else {
        assert !Mentions(w.sessions[s], r);
      }
    }
  }

  /** A forgotten run keeps its record over any continuation in which it is not cancelled: if it was
      left running, it is stuck for good. */
  lemma {:induction false} ForgottenForGood(w: World, es: seq<Event>, timeout: Time, r: Id)
    requires Good(w) && Possible(w, es, timeout) && Forgotten(w, r) && NoCancelOf(es, r)
    ensures var w' := Exec(w, es, timeout); Forgotten(w', r) && w'.runs[r] == w.runs[r]
    decreases |es|
  {
    if |es| > 0 {
      assert es[0].action != Delete(r);
      StepStaysGood(w, es[0], timeout);
      StaysForgotten(w, es[0], timeout, r);
      forall i | 0 <= i < |es| - 1 ensures es[1..][i].action != Delete(r) {
        assert es[1..][i] == es[i + 1];
      }
      ForgottenForGood(Step(w, es[0], timeout), es[1..], timeout, r);
    }
  }

  /** With no other session about the run, a cancel lost to a running verdict is lost for good. */
  lemma {:induction false} LostCancelIsStuck(w: World, p: Id, r: Id, readAt: Time, cancelledAt: Time, writeAt: Time,
                                            es: seq<Event>, timeout: Time)
    requires Good(w) && LooksAt(w, p, r) && DistinctRuns(w.sessions[p].todo)
    requires forall s | s in w.sessions && s != p :: !Mentions(w.sessions[s], r)
    requires w.runs[r].status.Pending? && w.sessions[p].todo[0].active > 0 && !Ended(w.sessions[p].todo[0])
    requires var after := CancelledInTurn(w, p, r, readAt, cancelledAt, writeAt, timeout);
      Possible(after, es, timeout) && NoCancelOf(es, r)
    ensures var last := Exec(CancelledInTurn(w, p, r, readAt, cancelledAt, writeAt, timeout), es, timeout);
      r in last.runs && last.runs[r].status.Running? && r !in last.jobs && !NothingStuck(last)
  {
    var after := CancelledInTurn(w, p, r, readAt, cancelledAt, writeAt, timeout);
    CancelBeforeTheWrite(w, p, r, readAt, cancelledAt, writeAt, timeout);
    RestIsAboutOthers(w.sessions[p].todo);
    forall s | s in after.sessions ensures !Mentions(after.sessions[s], r) {
      assert s != p ==> after.sessions[s] == w.sessions[s];
    }
    GoodAfterRace(w, p, r, readAt, cancelledAt, writeAt, timeout);
    ForgottenForGood(after, es, timeout, r);
    ForgottenIsUnattended(Exec(after, es, timeout), r);
  }

  lemma {:induction false} RestIsAboutOthers(todo: seq<Job>)
    requires |todo| > 0 && DistinctRuns(todo)
    ensures !Mentions(Polling(todo[1..]), todo[0].runID)
  {
    forall j | j in todo[1..] ensures j.runID != todo[0].runID {
      var i :| 0 <= i < |todo| - 1 && todo[1..][i] == j;
      assert todo[i + 1] == j;
    }
  }

  lemma {:induction false} GoodAfterRace(w: World, p: Id, r: Id, readAt: Time, cancelledAt: Time, writeAt: Time, timeout: Time)
    requires Good(w) && LooksAt(w, p, r)
    ensures Good(CancelledInTurn(w, p, r, readAt, cancelledAt, writeAt, timeout))
  {
    var after := CancelledInTurn(w, p, r, readAt, cancelledAt, writeAt, timeout);
    forall s | s in after.sessions ensures SessionOk(after.runs, after.sessions[s]) {
      assert s != p ==> SessionOk(w.runs, w.sessions[s]);
    }
  }

  lemma {:induction false} ForgottenIsUnattended(w: World, r: Id)
    requires Forgotten(w, r)
    ensures !Attended(w, r)
  {
    forall s | s in w.sessions ensures w.sessions[s] != Starting(r) && w.sessions[s] != Stopping(r) {
      assert !Mentions(w.sessions[s], r);
    }
  }

  /** The race from nothing: a run is started, its Job becomes active, a poll lists it and reads the run,
      a cancel comes and goes, and the poll writes. */
  function LostCancel(run: Run): seq<Event> {
    StartAndList(run) + ReadCancelWrite(run.id)
  }

  function ActiveJob(r: Id): Job { Job(r, 1, 0, 0, 1) }

  function StartAndList(run: Run): seq<Event> {
    [Event("start", Create(run), 1), Event("start", Launch, 1),
     Event("", Report(ActiveJob(run.id)), 2), Event("poll", List([ActiveJob(run.id)]), 3)]
  }

  function ReadCancelWrite(r: Id): seq<Event> {
    [Event("poll", Read, 3), Event("cancel", Delete(r), 4), Event("cancel", Stop, 4), Event("poll", Write, 5)]
  }

  function Listed(run: Run): World {
    World(map[run.id := run], map[run.id := ActiveJob(run.id)], map["poll" := Polling([ActiveJob(run.id)])])
  }

  lemma {:induction false} OneJobListed(r: Id, job: Job)
    ensures IsListing([job], map[r := job])
  {
    var jobs := map[r := job];
    assert r in jobs && jobs[r] == job;
  }

  lemma {:induction false} StartedAndListed(run: Run, es: seq<Event>, timeout: Time)
    requires run.status.Pending? && Possible(Listed(run), es, timeout)
    ensures Possible(EMPTY, StartAndList(run) + es, timeout)
    ensures Exec(EMPTY, StartAndList(run) + es, timeout) == Exec(Listed(run), es, timeout)
  {
    var r, job, first := run.id, ActiveJob(run.id), StartAndList(run);
    var w1 := World(map[r := run], map[], map["start" := Starting(r)]);
    var w2 := World(map[r := run], map[r := Job(r, 0, 0, 0, 1)], map[]);
    var w3 := World(map[r := run], map[r := job], map[]);
    OneJobListed(r, job);
    assert Step(EMPTY, first[0], timeout) == w1;
    assert Step(w1, first[1], timeout) == w2;
    assert Step(w2, first[2], timeout) == w3;
    assert Step(w3, first[3], timeout) == Listed(run);
    FourEvents(EMPTY, w1, w2, w3, Listed(run), first, es, timeout);
  }

  lemma {:induction false} FourEvents(w0: World, w1: World, w2: World, w3: World, w4: World, first: seq<Event>,
                                      es: seq<Event>, timeout: Time)
    requires |first| == 4
    requires Enabled(w0, first[0]) && Step(w0, first[0], timeout) == w1
    requires Enabled(w1, first[1]) && Step(w1, first[1], timeout) == w2
    requires Enabled(w2, first[2]) && Step(w2, first[2], timeout) == w3
    requires Enabled(w3, first[3]) && Step(w3, first[3], timeout) == w4
    requires Possible(w4, es, timeout)
    ensures Possible(w0, first + es, timeout) && Exec(w0, first + es, timeout) == Exec(w4, es, timeout)
  {
    OneMoreEvent(w3, first[3], es, timeout);
    OneMoreEvent(w2, first[2], [first[3]] + es, timeout);
    OneMoreEvent(w1, first[1], [first[2]] + ([first[3]] + es), timeout);
    OneMoreEvent(w0, first[0], [first[1]] + ([first[2]] + ([first[3]] + es)), timeout);
    assert first + es == [first[0]] + ([first[1]] + ([first[2]] + ([first[3]] + es)));
  }

  lemma {:induction false} ARunCanStick(run: Run, timeout: Time)
    requires run.status.Pending?
    ensures Possible(EMPTY, LostCancel(run), timeout)
    ensures var w := Exec(EMPTY, LostCancel(run), timeout);
      run.id in w.runs && w.runs[run.id].status.Running? && !NothingStuck(w)
  {
    var r, es, verdict := run.id, ReadCancelWrite(run.id), Set(Running, "");
    var stopped := WithStatus(run, Stopped, "", 4);
    var w4 := Listed(run);
    var w5 := w4.(sessions := map["poll" := Deciding(r, verdict, [])]);
    var w6 := World(map[r := run], map[], map["poll" := Deciding(r, verdict, []), "cancel" := Stopping(r)]);
    var w7 := World(map[r := stopped], map[], map["poll" := Deciding(r, verdict, [])]);
    var w8 := World(map[r := WithStatus(stopped, Running, "", 5)], map[], map["poll" := Polling([])]);
    assert [ActiveJob(r)][1..] == [];
    assert Step(w4, es[0], timeout) == w5;
    assert Step(w5, es[1], timeout) == w6;
    assert Step(w6, es[2], timeout) == w7;
    assert Step(w7, es[3], timeout) == w8;
    NothingHappens(w8, timeout);
    FourEvents(w4, w5, w6, w7, w8, es, [], timeout);
    assert es + [] == es;
    StartedAndListed(run, es, timeout);
    assert !Attended(w8, r);
  }

  /** A cancel that falls inside a start, before the Job is created: the run is stopped and its Job works
      on, to overwrite the run once it has ended. */
  lemma {:induction false} CancelDuringStart(w: World, s: Id, run: Run, cancelledAt: Time, launchedAt: Time, timeout: Time)
    requires Good(w) && Enabled(w, Event(s, Create(run), launchedAt))
    ensures var started := Step(w, Event(s, Create(run), launchedAt), timeout);
      var after := Step(Cancelled(started, run.id, cancelledAt), Event(s, Launch, launchedAt), timeout);
      && after.runs[run.id].status.Stopped? && run.id in after.jobs && !StoppedAreIdle(after)
      && forall job, now :: Reconcile(after.runs[run.id], job, now, timeout).status.Stopped? <==> !Ended(job)
  {
    var started := Step(w, Event(s, Create(run), launchedAt), timeout);
    var after := Step(Cancelled(started, run.id, cancelledAt), Event(s, Launch, launchedAt), timeout);
    forall job: Job, now: Time
      ensures Reconcile(after.runs[run.id], job, now, timeout).status.Stopped? <==> !Ended(job)
    {
      KeepsExactly(after.runs[run.id], job, now, timeout);
    }
  }

  // ---------- the atomic poll ----------

  /** A poll with nothing in between: read and write, Job by Job. */
  ghost function Turns(w: World, p: Id, now: Time, timeout: Time): World
    requires p in w.sessions && w.sessions[p].Polling?
    requires forall j | j in w.sessions[p].todo :: j.runID in w.runs
    decreases |w.sessions[p].todo|
  {
    if |w.sessions[p].todo| == 0 then w
    else
      var r := w.sessions[p].todo[0].runID;
      WholeTurn(w, p, r, now, now, timeout);
      var next := AfterTurn(w, p, now, now, timeout);
      Turns(next, p, now, timeout)
  }

  lemma {:induction false} PollFromTheFront(runs: RunTable, jobs: seq<Job>, now: Time, timeout: Time)
    requires |jobs| > 0
    ensures Poll(runs, jobs, now, timeout) == Poll(PollJob(runs, jobs[0], now, timeout), jobs[1..], now, timeout)
    decreases |jobs|
  {
    var last := jobs[|jobs| - 1];
    if |jobs| == 1 {
      assert jobs[..0] == [] && jobs[1..] == [];
    } else {
      PollFromTheFront(runs, jobs[..|jobs| - 1], now, timeout);
      assert jobs[..|jobs| - 1][1..] == jobs[1..][..|jobs| - 2];
    }
  }

  /** An undisturbed poll, turn by turn, is the atomic poll of its listing. */
  lemma {:induction false} UndisturbedPollIsAtomic(w: World, p: Id, now: Time, timeout: Time)
    requires p in w.sessions && w.sessions[p].Polling?
    requires forall j | j in w.sessions[p].todo :: j.runID in w.runs
    ensures var last := Turns(w, p, now, timeout);
      last.runs == Poll(w.runs, w.sessions[p].todo, now, timeout) && last.jobs == w.jobs
    decreases |w.sessions[p].todo|
  {
    var todo := w.sessions[p].todo;
    if |todo| > 0 {
      WholeTurn(w, p, todo[0].runID, now, now, timeout);
      PollFromTheFront(w.runs, todo, now, timeout);
      UndisturbedPollIsAtomic(AfterTurn(w, p, now, now, timeout), p, now, timeout);
    }
  }
}
