/** What every request, poll and report does, said from the outside: which answer, when, and what is stored
    afterwards, field by field (backend/internal/api). Nothing here is said through the functions that
    compute it. */
module Outcomes {
  import opened Model
  import opened Catalog
  import opened CatalogLists
  import opened Runs
  import opened Watcher
  import opened System
  import O = Ordering
  import P = Projects
  import R = Races

  // ---------- projects ----------

  ghost predicate NamedElsewhere(ps: P.Registry, id: Id, name: string) {
    exists k :: k in ps && k != id && ps[k].name == name
  }

  /** 400 for a name that is blank or too long once trimmed, 409 for one that is taken, else the project is
      stored under the trimmed name, and is not the default. */
  lemma {:induction false} CreateProjectOutcome(s: State, rawName: string, id: Id, now: Time)
    requires P.WellKept(s.projects) && id !in s.projects
    ensures var name, r := P.TrimSpace(rawName), StepCreateProject(s, rawName, id, now);
      && (r.code == 400 <==> name == "" || |name| > 100)
      && (r.code == 409 <==> r.code != 400 && NamedElsewhere(s.projects, id, name))
      && (r.code != 201 ==> r.code in {400, 409} && r.state == s)
      && (r.code == 201 ==> r.state == s.(projects := s.projects[id := Project(id, name, now, false)]))
  {
  }

  /** 400 for an unacceptable name, 404 for an unknown project, 409 for a name another one has, else only
      the name changes. */
  lemma {:induction false} RenameProjectOutcome(s: State, id: Id, rawName: string)
    requires P.WellKept(s.projects)
    ensures var name, r := P.TrimSpace(rawName), StepRenameProject(s, id, rawName);
      && (r.code == 400 <==> name == "" || |name| > 100)
      && (r.code == 404 <==> r.code != 400 && id !in s.projects)
      && (r.code == 409 <==> r.code !in {400, 404} && NamedElsewhere(s.projects, id, name))
      && (r.code != 200 ==> r.code in {400, 404, 409} && r.state == s)
      && (r.code == 200 ==>
           var was := s.projects[id];
           r.state == s.(projects := s.projects[id := Project(id, name, was.createdAt, was.isDefault)]))
  {
  }

  // ---------- tests ----------

  predicate BadRequest(req: TestRequest) {
    req.name == "" || req.targetURL == "" || req.virtualUsers <= 0 || req.durationSeconds <= 0
  }

  /** The row holds what the request asked for. */
  predicate Configured(row: Test, req: TestRequest) {
    && row.name == req.name
    && row.targetURL == req.targetURL
    && row.virtualUsers == req.virtualUsers
    && row.durationSeconds == req.durationSeconds
  }

  /** A created test is version 1 of itself, as requested, in the project named or else the default. */
  lemma {:induction false} CreateTestOutcome(s: State, req: TestRequest, id: Id, now: Time)
    ensures var r := StepCreateTest(s, req, id, now);
      && (r.code == 400 <==> BadRequest(req) || (req.projectID != "" && req.projectID !in s.projects))
      && (r.code != 201 ==> r.code == 400 && r.state == s)
      && (r.code == 201 ==>
           && id in r.state.tests
           && r.state == s.(tests := s.tests[id := r.state.tests[id]])
           && var row := r.state.tests[id];
           && Configured(row, req)
           && row.id == row.versionID == id && row.version == 1 && row.createdAt == row.updatedAt == now
           && row.projectID == if req.projectID == "" then P.DEFAULT_PROJECT_ID else req.projectID)
  {
  }

  /** An edit is the family's next version, as requested; no stored row changes. */
  lemma {:induction false} UpdateTestOutcome(s: State, testID: Id, req: TestRequest, versionID: Id, now: Time)
    requires Keyed(s.tests) && versionID !in s.tests && versionID != ""
    ensures var r := StepUpdateTest(s, testID, req, versionID, now);
      && (r.code == 400 <==> BadRequest(req))
      && (r.code == 404 <==> !BadRequest(req) && !HasFamily(s.tests, testID))
      && (r.code != 200 ==> r.code in {400, 404} && r.state == s)
      && (r.code == 200 ==>
           && versionID in r.state.tests
           && r.state == s.(tests := s.tests[versionID := r.state.tests[versionID]])
           && HasFamily(r.state.tests, testID) && LatestID(r.state.tests, testID) == versionID
           && var row, before := r.state.tests[versionID], Latest(s.tests, testID);
           && Configured(row, req)
           && row.id == testID && row.versionID == versionID && row.version == before.version + 1
           && row.projectID == before.projectID
           && row.createdAt == FamilyCreatedAt(s.tests, testID) && row.updatedAt == now)
  {
    if !BadRequest(req) && HasFamily(s.tests, testID) {
      var t := RequestedTest(testID, req, "");
      EditExtends(s.tests, t, versionID, now);
      ExtendMovesOneLatest(s.tests, Edited(s.tests, t, versionID, now), now);
    }
  }

  /** 400 for no project or an unknown one, 404 for an unknown test; else the test's rows, and only they,
      are in the project. */
  lemma {:induction false} MoveTestOutcome(s: State, testID: Id, projectID: Id)
    ensures var r := StepMoveTest(s, testID, projectID);
      && (r.code == 400 <==> projectID == "" || projectID !in s.projects)
      && (r.code == 404 <==> r.code != 400 && !HasFamily(s.tests, testID))
      && (r.code != 200 ==> r.code in {400, 404} && r.state == s)
      && (r.code == 200 ==>
           && r.state == s.(tests := r.state.tests) && r.state.tests.Keys == s.tests.Keys
           && forall v | v in s.tests :: r.state.tests[v] ==
                if s.tests[v].id == testID then s.tests[v].(projectID := projectID) else s.tests[v])
  {
  }

  // ---------- runs ----------

  /** Why a start fails after its run has been created, if it does. */
  function StartFailure(generated: Generated, cmError: Option<string>, jobError: Option<string>): Option<string> {
    if generated.NoPlan? then Some("failed to generate test plan: " + generated.reason)
    else if cmError.Some? then Some("failed to create configmap: " + cmError.value)
    else if jobError.Some? then Some("failed to create job: " + jobError.value)
    else None
  }

  /** What a start makes of the run and the plan, from the version it has read. */
  lemma {:induction false} SubmissionOutcome(cfg: Config, test: Test, runID: Id, cmError: Option<string>,
                                             jobError: Option<string>, now: Time)
    requires test.id != ""
    ensures var sub := Submit(cfg, test, runID, cmError, jobError, now);
      var generated := cfg.generate(PlanParams(test.targetURL, test.virtualUsers, test.durationSeconds));
      var failure := StartFailure(generated, cmError, jobError);
      var run := Run(runID, test.versionID, test.id, Pending, now, None, None, "");
      && sub.submitted == failure.None?
      && sub.plan == (if generated.Plan? && cmError.None? then Some(generated.jmx) else None)
      && sub.run == match failure
           case None => run
           case Some(reason) => run.(status := Failed, completedAt := Some(now), errorMessage := reason)
  {
  }

  /** A start creates one run, pinned to the latest version. If nothing fails it is pending, with a Job and
      the plan for that version's URL, users and duration; otherwise it is failed at once, with the reason,
      and has no Job. */
  lemma {:induction false} StartRunOutcome(s: State, cfg: Config, testID: Id, runID: Id, cmError: Option<string>,
                                           jobError: Option<string>, now: Time)
    requires Keyed(s.tests) && Rooted(s.tests)
    ensures var r := StepStartRun(s, cfg, testID, runID, cmError, jobError, now);
      && (r.code == 404 <==> !HasFamily(s.tests, testID))
      && (r.code == 404 ==> r.state == s)
      && (r.code != 404 ==>
           var row := Latest(s.tests, testID);
           var generated := cfg.generate(PlanParams(row.targetURL, row.virtualUsers, row.durationSeconds));
           var failure := StartFailure(generated, cmError, jobError);
           var run := Run(runID, row.versionID, testID, Pending, now, None, None, "");
           && r.code == (if failure.None? then 201 else 500)
           && r.state == s.(runs := r.state.runs, jobs := r.state.jobs, plans := r.state.plans)
           && r.state.runs == s.runs[runID := match failure
                case None => run
                case Some(reason) => run.(status := Failed, completedAt := Some(now), errorMessage := reason)]
           && r.state.jobs == (if failure.None? then s.jobs[runID := Job(runID, 0, 0, 0, now)] else s.jobs)
           && r.state.plans == (if generated.Plan? && cmError.None? then s.plans[runID := generated.jmx] else s.plans))
  {
    if HasFamily(s.tests, testID) {
      FamiliesAreNamed(s.tests, testID);
      SubmissionOutcome(cfg, Get(s.tests, testID), runID, cmError, jobError, now);
    }
  }

  /** A cancel cancels: the run is stopped now and has no Job, and nothing else changes. If the Job cannot
      be deleted, nothing changes at all. */
  lemma {:induction false} CancelRunOutcome(s: State, runID: Id, deleteFails: bool, now: Time)
    ensures var r := StepCancelRun(s, runID, deleteFails, now);
      && (r.code == 404 <==> runID !in s.runs)
      && (r.code == 500 <==> runID in s.runs && deleteFails)
      && (r.code != 204 ==> r.code in {404, 500} && r.state == s)
      && (r.code == 204 ==>
           && runID !in r.state.jobs && runID in r.state.runs
           && r.state.runs[runID] == s.runs[runID].(status := Stopped, errorMessage := "", completedAt := Some(now))
           && r.state == s.(runs := r.state.runs, jobs := r.state.jobs)
           && r.state.runs.Keys == s.runs.Keys && r.state.jobs.Keys == s.jobs.Keys - {runID}
           && (forall q | q in s.runs && q != runID :: r.state.runs[q] == s.runs[q])
           && (forall q | q in s.jobs && q != runID :: r.state.jobs[q] == s.jobs[q]))
  {
  }

  /** A Job's report sets its three counters and nothing else. */
  lemma {:induction false} JobReportOutcome(s: State, runID: Id, active: nat, succeeded: nat, failed: nat)
    requires forall r | r in s.jobs :: s.jobs[r].runID == r
    ensures var s' := StepJobReport(s, runID, active, succeeded, failed);
      && s' == s.(jobs := s'.jobs) && s'.jobs.Keys == s.jobs.Keys
      && (forall q | q in s.jobs && q != runID :: s'.jobs[q] == s.jobs[q])
      && (runID in s.jobs ==> s'.jobs[runID] == Job(runID, active, succeeded, failed, s.jobs[runID].created))
  {
  }

  /** A poll writes runs and nothing else, and of these only runs with a Job. */
  lemma {:induction false} PollOutcome(s: State, cfg: Config, now: Time)
    ensures var s' := StepPoll(s, cfg, now);
      && s' == s.(runs := s'.runs) && s'.runs.Keys == s.runs.Keys
      && (forall r | r in s.runs && r !in s.jobs :: s'.runs[r] == s.runs[r])
      && (forall r | r in s.runs && r in s.jobs ::
           var run, run' := s.runs[r], s'.runs[r];
           && run' == run.(status := run'.status, errorMessage := run'.errorMessage,
                           startedAt := run'.startedAt, completedAt := run'.completedAt)
           && (run'.status == run.status ==> run' == run))
  {
  }

  /** Every event that the machine names can happen: the clock need only not run backwards, and new ids
      need only be new. */
  lemma {:induction false} AnythingCanHappen(s: State, op: Op, now: Time)
    requires s.clock <= now
    ensures !Legal(s, Event(op, now)) ==> match op
      case OnProjects(CreateProject(_, id)) => id in s.projects
      case OnTests(CreateTest(_, id)) => id in s.tests || id == ""
      case OnTests(UpdateTest(_, _, id)) => id in s.tests || id == ""
      case OnRuns(StartRun(_, id, _, _)) => id in s.runs
      case _ => false
  {
  }

  /** A run of the machine is its events one by one, each the request, poll or report it says, at the time
      it says. */
  lemma {:induction false} RunsAreTheirEvents(s: State, cfg: Config, e: Event, es: seq<Event>)
    ensures Execute(s, cfg, []) == s && LegalRun(s, cfg, [])
    ensures Execute(s, cfg, [e] + es) == Execute(Step(s, cfg, e), cfg, es)
    ensures LegalRun(s, cfg, [e] + es) <==> Legal(s, e) && LegalRun(Step(s, cfg, e), cfg, es)
    ensures var s' := match e.op
        case OnProjects(CreateProject(rawName, id)) => StepCreateProject(s, rawName, id, e.now).state
        case OnProjects(RenameProject(id, rawName)) => StepRenameProject(s, id, rawName).state
        case OnProjects(DeleteProject(id)) => StepDeleteProject(s, id).state
        case OnTests(CreateTest(req, id)) => StepCreateTest(s, req, id, e.now).state
        case OnTests(UpdateTest(testID, req, id)) => StepUpdateTest(s, testID, req, id, e.now).state
        case OnTests(MoveTest(testID, projectID)) => StepMoveTest(s, testID, projectID).state
        case OnRuns(StartRun(testID, runID, cm, job)) => StepStartRun(s, cfg, testID, runID, cm, job, e.now).state
        case OnRuns(CancelRun(runID, fails)) => StepCancelRun(s, runID, fails, e.now).state
        case OnRuns(PollJobs) => StepPoll(s, cfg, e.now)
        case OnRuns(JobReport(runID, active, succeeded, failed)) => StepJobReport(s, runID, active, succeeded, failed);
      Step(s, cfg, e) == s'.(clock := e.now)
  {
    assert ([e] + es)[0] == e && ([e] + es)[1..] == es;
  }

  // ---------- the same requests, step by step ----------

  /** The machine's cancel is the undisturbed cancel of the machine in which its steps are split. */
  lemma {:induction false} CancelIsTheSplitCancel(s: State, runID: Id, now: Time, sessions: map<Id, R.Session>)
    requires runID in s.runs
    ensures var s' := StepCancelRun(s, runID, false, now).state;
      R.World(s'.runs, s'.jobs, sessions) == R.Cancelled(R.World(s.runs, s.jobs, sessions), runID, now)
  {
  }

  /** The machine's start is the undisturbed start there: the run is created, and then its Job, or else it
      is marked failed. */
  lemma {:induction false} StartIsTheSplitStart(s: State, cfg: Config, testID: Id, runID: Id, cmError: Option<string>,
                                                jobError: Option<string>, now: Time, c: Id, timeout: Time)
    requires Keyed(s.tests) && Rooted(s.tests) && HasFamily(s.tests, testID) && runID !in s.runs
    ensures var r := StepStartRun(s, cfg, testID, runID, cmError, jobError, now);
      var w, run := R.World(s.runs, s.jobs, map[]), Run(runID, LatestID(s.tests, testID), testID, Pending, now, None, None, "");
      && R.Enabled(w, R.Event(c, R.Create(run), now))
      && var w1 := R.Step(w, R.Event(c, R.Create(run), now), timeout);
      && R.Enabled(w1, R.Event(c, R.Launch, now)) && R.Enabled(w1, R.Event(c, R.Abort(r.state.runs[runID].errorMessage), now))
      && R.World(r.state.runs, r.state.jobs, map[]) ==
           if r.code == 201 then R.Step(w1, R.Event(c, R.Launch, now), timeout)
           else R.Step(w1, R.Event(c, R.Abort(r.state.runs[runID].errorMessage), now), timeout)
  {
    var r := StepStartRun(s, cfg, testID, runID, cmError, jobError, now);
    var run := Run(runID, LatestID(s.tests, testID), testID, Pending, now, None, None, "");
    StartRunOutcome(s, cfg, testID, runID, cmError, jobError, now);
    R.StartSteps(R.World(s.runs, s.jobs, map[]), c, run, r.state.runs[runID].errorMessage, now, timeout);
  }

  // ---------- from the request to the plan ----------

  predicate Edits(e: Event, testID: Id) {
    e.op.OnTests? && e.op.t.UpdateTest? && e.op.t.testID == testID
  }

  /** The test's latest version holds what req asked for. */
  ghost predicate LatestConfigured(m: Rows, testID: Id, req: TestRequest) {
    HasFamily(m, testID) && Configured(Latest(m, testID), req)
  }

  lemma {:induction false} ChangeKeepsConfiguration(m: Rows, m': Rows, change: Change, now: Time, testID: Id, req: TestRequest)
    requires Keyed(m) && Changed(m, m', change, now) && LatestConfigured(m, testID, req)
    requires change.Added? ==> change.row.id != testID
    ensures LatestConfigured(m', testID, req)
  {
    match change
    case Untouched =>
    case Added(row) =>
      ExtendMovesOneLatest(m, row, now);
      assert m'[LatestID(m, testID)] == Latest(m, testID);
    case Refiled(c, p) =>
      MoveChangesOnlyTheProject(m, c, p);
      SameLatest(m, m', testID);
  }

  lemma {:induction false} OtherOpsLeaveTests(s: State, cfg: Config, e: Event)
    requires P.WellKept(s.projects) && Keyed(s.tests) && Rooted(s.tests) && Legal(s, e) && !e.op.OnTests?
    requires Pinned(s.runs, s.plans, s.tests, cfg) && NothingStuck(s.runs, s.jobs)
    ensures Step(s, cfg, e).tests == s.tests
  {
    match e.op
    case OnProjects(op) => ProjectsStayWellKept(s, op, e.now);
    case OnRuns(op) => RunStep(s, cfg, op, e.now);
  }

  lemma {:induction false} TestOpKeepsConfiguration(s: State, op: TestOp, now: Time, testID: Id, req: TestRequest)
    requires P.DEFAULT_PROJECT_ID in s.projects && Keyed(s.tests) && Rooted(s.tests) && FreshIDs(s, OnTests(op))
    requires !Edits(Event(OnTests(op), now), testID) && LatestConfigured(s.tests, testID, req)
    ensures LatestConfigured(ServeTests(s, op, now).state.tests, testID, req)
  {
    var change := CatalogChange(s, op, now);
    ChangeKeepsConfiguration(s.tests, ServeTests(s, op, now).state.tests, change, now, testID, req);
  }

  lemma {:induction false} StepKeepsConfiguration(s: State, cfg: Config, e: Event, testID: Id, req: TestRequest)
    requires Invariant(s, cfg) && Legal(s, e) && !Edits(e, testID) && LatestConfigured(s.tests, testID, req)
    ensures LatestConfigured(Step(s, cfg, e).tests, testID, req)
  {
    if e.op.OnTests? {
      TestOpKeepsConfiguration(s, e.op.t, e.now, testID, req);
    } else {
      OtherOpsLeaveTests(s, cfg, e);
    }
  }

  ghost predicate NoEdits(es: seq<Event>, testID: Id) {
    forall i | 0 <= i < |es| :: !Edits(es[i], testID)
  }

  lemma {:induction false} ConfigurationLasts(s: State, cfg: Config, es: seq<Event>, testID: Id, req: TestRequest)
    requires Invariant(s, cfg) && LegalRun(s, cfg, es) && NoEdits(es, testID) && LatestConfigured(s.tests, testID, req)
    ensures Invariant(Execute(s, cfg, es), cfg) && LatestConfigured(Execute(s, cfg, es).tests, testID, req)
    decreases |es|
  {
    if |es| > 0 {
      assert !Edits(es[0], testID);
      forall i | 0 <= i < |es| - 1 ensures !Edits(es[1..][i], testID) {
        assert es[1..][i] == es[i + 1];
      }
      StepKeepsInvariant(s, cfg, es[0]);
      StepKeepsConfiguration(s, cfg, es[0], testID, req);
      ConfigurationLasts(Step(s, cfg, es[0]), cfg, es[1..], testID, req);
    }
  }

  lemma {:induction false} StartedAsConfigured(s: State, cfg: Config, testID: Id, req: TestRequest, runID: Id, now: Time)
    requires Keyed(s.tests) && Rooted(s.tests) && LatestConfigured(s.tests, testID, req)
    ensures var r := StepStartRun(s, cfg, testID, runID, None, None, now);
      var generated := cfg.generate(PlanParams(req.targetURL, req.virtualUsers, req.durationSeconds));
      && r.code == (if generated.Plan? then 201 else 500)
      && (r.code == 201 ==> runID in r.state.plans && r.state.plans[runID] == generated.jmx && runID in r.state.jobs)
  {
    StartRunOutcome(s, cfg, testID, runID, None, None, now);
  }

  /** From the form to the cluster: a test whose latest version was created or edited by req, then whatever
      happens but an edit of it, then started: the plan handed over is the one generated for the URL, the
      users and the duration of req, and if there is one, the run has its Job. */
  lemma {:induction false} WhatWasAskedForIsRun(s: State, cfg: Config, testID: Id, req: TestRequest, es: seq<Event>,
                                                runID: Id, now: Time)
    requires Invariant(s, cfg) && LatestConfigured(s.tests, testID, req)
    requires LegalRun(s, cfg, es) && NoEdits(es, testID)
    ensures var r := StepStartRun(Execute(s, cfg, es), cfg, testID, runID, None, None, now);
      var generated := cfg.generate(PlanParams(req.targetURL, req.virtualUsers, req.durationSeconds));
      && r.code == (if generated.Plan? then 201 else 500)
      && (r.code == 201 ==> runID in r.state.plans && r.state.plans[runID] == generated.jmx && runID in r.state.jobs)
  {
    ConfigurationLasts(s, cfg, es, testID, req);
    StartedAsConfigured(Execute(s, cfg, es), cfg, testID, req, runID, now);
  }

  /** A successful create is the beginning of that. */
  lemma {:induction false} CreateConfigures(s: State, req: TestRequest, id: Id, now: Time)
    requires Rooted(s.tests) && id !in s.tests && StepCreateTest(s, req, id, now).code == 201
    ensures LatestConfigured(StepCreateTest(s, req, id, now).state.tests, id, req)
  {
    CreateTestOutcome(s, req, id, now);
    CreatedIsLatest(s.tests, StepCreateTest(s, req, id, now).state.tests, id);
  }

  lemma {:induction false} CreatedIsLatest(m: Rows, m': Rows, id: Id)
    requires Rooted(m) && id !in m && id in m' && m' == m[id := m'[id]] && m'[id].id == id
    ensures HasFamily(m', id) && LatestID(m', id) == id
  {
    assert forall v | v in m' && m'[v].id == id :: v == id;
  }

  /** And so is a successful edit. */
  lemma {:induction false} EditConfigures(s: State, testID: Id, req: TestRequest, versionID: Id, now: Time)
    requires Keyed(s.tests) && versionID !in s.tests && versionID != ""
    requires StepUpdateTest(s, testID, req, versionID, now).code == 200
    ensures LatestConfigured(StepUpdateTest(s, testID, req, versionID, now).state.tests, testID, req)
  {
    UpdateTestOutcome(s, testID, req, versionID, now);
  }

  // ---------- lists ----------

  /** The runs of a test, newest first. */
  lemma {:induction false} RunListIsNewestFirst(s: State, c: Id, out: seq<Run>)
    requires O.Enumerates(out, RunsOfTest(s.runs, c)) && O.Sorted(out, NewerRun)
    requires forall r | r in s.runs :: s.runs[r].id == r
    ensures forall i, j | 0 <= i < j < |out| :: out[i].createdAt >= out[j].createdAt && out[i].id != out[j].id
    ensures forall run :: run in out <==> run.id in s.runs && s.runs[run.id] == run && run.testCatalogID == c
  {
    O.EnumerationFacts(out, RunsOfTest(s.runs, c));
    forall i, j | 0 <= i < j < |out| ensures out[i].createdAt >= out[j].createdAt && out[i].id != out[j].id {
      assert !NewerRun(out[j], out[i]);
      assert out[i] in RunsOfTest(s.runs, c) && out[j] in RunsOfTest(s.runs, c);
    }
    forall run ensures run in RunsOfTest(s.runs, c) <==> run.id in s.runs && s.runs[run.id] == run && run.testCatalogID == c {
      if run.id in s.runs && s.runs[run.id] == run && run.testCatalogID == c {
        assert run.id in RunIDsOfTest(s.runs, c);
      }
    }
  }
}
