/** The whole backend as a state machine: the API handlers, the watcher and the cluster, each one
    atomic step over the stores, the Jobs and the plans handed to them. */
module System {
  import opened Model
  import opened Catalog
  import opened CatalogLists
  import opened Runs
  import opened Watcher
  import P = Projects

  datatype State = State(
    projects: P.Registry,
    tests: Rows,
    runs: RunTable,
    jobs: map<Id, Job>,      // by the run id each Job is named after and labelled with
    plans: map<Id, string>,  // the ConfigMaps, by run id
    clock: Time)

  /** jmx.Generate either writes a plan or reports why it cannot. */
  datatype Generated = Plan(jmx: string) | NoPlan(reason: string)

  datatype Config = Config(generate: PlanParams -> Generated, unschedulableTimeout: Time)

  datatype TestRequest = TestRequest(
    name: string, targetURL: string, virtualUsers: int, durationSeconds: int, projectID: Id)

  predicate ValidRequest(req: TestRequest) {
    req.name != "" && req.targetURL != "" && req.virtualUsers > 0 && req.durationSeconds > 0
  }

  function RequestedTest(id: Id, req: TestRequest, projectID: Id): Test {
    Test(id, "", 0, projectID, req.name, req.targetURL, req.virtualUsers, req.durationSeconds, ZERO_TIME, ZERO_TIME)
  }

  /** Fresh ids and the failures of the cluster's API arrive with the request. */
  datatype ProjectOp =
    | CreateProject(rawName: string, newID: Id)
    | RenameProject(id: Id, rawName: string)
    | DeleteProject(id: Id)

  datatype TestOp =
    | CreateTest(req: TestRequest, newID: Id)
    | UpdateTest(testID: Id, req: TestRequest, newID: Id)
    | MoveTest(testID: Id, projectID: Id)

  datatype RunOp =
    | StartRun(testID: Id, runID: Id, configMapError: Option<string>, jobError: Option<string>)
    | CancelRun(runID: Id, deleteFails: bool)
    | PollJobs
    | JobReport(runID: Id, active: nat, succeeded: nat, failed: nat)

  datatype Op = OnProjects(p: ProjectOp) | OnTests(t: TestOp) | OnRuns(r: RunOp)

  datatype Event = Event(op: Op, now: Time)

  /** The state after a request, and the HTTP status it is answered with (0 for a non-request). */
  datatype Reply = Reply(state: State, code: int)

  ghost function StepCreateProject(s: State, rawName: string, id: Id, now: Time): Reply {
    match P.ValidProjectName(rawName)
    case None => Reply(s, 400)
    case Some(name) =>
      var (ps, r) := P.CreateProject(s.projects, Project("", name, ZERO_TIME, false), id, now);
      Reply(s.(projects := ps), if r.Ok? then 201 else 409)
  }

  ghost function StepRenameProject(s: State, id: Id, rawName: string): Reply {
    match P.ValidProjectName(rawName)
    case None => Reply(s, 400)
    case Some(name) =>
      var (ps, r) := P.RenameProject(s.projects, id, name);
      Reply(s.(projects := ps), if r.Ok? then 200 else if r.error == NotFound then 404 else 409)
  }

  /** Only latest versions are counted before the project goes. */
  ghost function StepDeleteProject(s: State, id: Id): Reply {
    if id !in s.projects then Reply(s, 404)
    else if s.projects[id].isDefault || CollapseThenFilter(s.tests, id) != {} then Reply(s, 409)
    else Reply(s.(projects := P.DeleteProject(s.projects, id).0), 204)
  }

  function StepCreateTest(s: State, req: TestRequest, id: Id, now: Time): Reply {
    if !ValidRequest(req) then Reply(s, 400)
    else
      var (m, r) := Catalog.CreateTest(
        s.tests, s.projects.Keys, P.DEFAULT_PROJECT_ID, RequestedTest("", req, req.projectID), id, now);
      Reply(s.(tests := m), if r.Ok? then 201 else 400)
  }

  ghost function StepUpdateTest(s: State, testID: Id, req: TestRequest, versionID: Id, now: Time): Reply {
    if !ValidRequest(req) then Reply(s, 400)
    else
      var (m, r) := Catalog.UpdateTest(s.tests, RequestedTest(testID, req, ""), versionID, now);
      Reply(s.(tests := m), if r.Ok? then 200 else 404)
  }

  ghost function StepMoveTest(s: State, testID: Id, projectID: Id): Reply {
    if projectID == "" then Reply(s, 400)
    else
      var (m, e) := Catalog.MoveTest(s.tests, s.projects.Keys, testID, projectID);
      Reply(s.(tests := m), if e.None? then 200 else if e.value == NotFound then 404 else 400)
  }

  /** What became of a run: its row, the plan handed over, and whether a Job was created for it. */
  datatype Submission = Submission(run: Run, plan: Option<string>, submitted: bool)

  /** The run is created pending, pinned to the version just read; whatever then goes wrong marks it failed. */
  function Submit(cfg: Config, test: Test, runID: Id, configMapError: Option<string>, jobError: Option<string>,
                  now: Time): Submission {
    var run := NewRun(Run("", test.versionID, test.id, Pending, ZERO_TIME, None, None, ""), runID, now);
    match cfg.generate(PlanParams(test.targetURL, test.virtualUsers, test.durationSeconds))
    case NoPlan(reason) =>
      Submission(WithStatus(run, Failed, "failed to generate test plan: " + reason, now), None, false)
    case Plan(jmx) =>
      if configMapError.Some? then
        Submission(WithStatus(run, Failed, "failed to create configmap: " + configMapError.value, now), None, false)
      else if jobError.Some? then
        Submission(WithStatus(run, Failed, "failed to create job: " + jobError.value, now), Some(jmx), false)
      else
        Submission(run, Some(jmx), true)
  }

  function AfterSubmission(s: State, runID: Id, sub: Submission, now: Time): State {
    s.(runs := s.runs[runID := sub.run],
       plans := if sub.plan.Some? then s.plans[runID := sub.plan.value] else s.plans,
       jobs := if sub.submitted then s.jobs[runID := Job(runID, 0, 0, 0, now)] else s.jobs)
  }

  ghost function StepStartRun(s: State, cfg: Config, testID: Id, runID: Id, configMapError: Option<string>,
                              jobError: Option<string>, now: Time): Reply {
    if !HasFamily(s.tests, testID) then Reply(s, 404)
    else
      var sub := Submit(cfg, Get(s.tests, testID), runID, configMapError, jobError, now);
      Reply(AfterSubmission(s, runID, sub, now), if sub.submitted then 201 else 500)
  }

  function StepCancelRun(s: State, runID: Id, deleteFails: bool, now: Time): Reply {
    if runID !in s.runs then Reply(s, 404)
    else if deleteFails then Reply(s, 500)
    else Reply(s.(jobs := s.jobs - {runID}, runs := s.runs[runID := WithStatus(s.runs[runID], Stopped, "", now)]), 204)
  }

  /** PollOnce over all the Jobs there are; by PollIsPointwise their order is immaterial. */
  function StepPoll(s: State, cfg: Config, now: Time): State {
    s.(runs := Polled(s.runs, s.jobs, now, cfg.unschedulableTimeout))
  }

  function Polled(runs: RunTable, jobs: map<Id, Job>, now: Time, timeout: Time): RunTable {
    map id | id in runs :: if id in jobs then Reconcile(runs[id], jobs[id], now, timeout) else runs[id]
  }

  function StepJobReport(s: State, runID: Id, active: nat, succeeded: nat, failed: nat): State {
    if runID !in s.jobs then s
    else s.(jobs := s.jobs[runID := s.jobs[runID].(active := active, succeeded := succeeded, failed := failed)])
  }

  ghost function ServeProjects(s: State, op: ProjectOp, now: Time): Reply {
    match op
    case CreateProject(rawName, id) => StepCreateProject(s, rawName, id, now)
    case RenameProject(id, rawName) => StepRenameProject(s, id, rawName)
    case DeleteProject(id) => StepDeleteProject(s, id)
  }

  ghost function ServeTests(s: State, op: TestOp, now: Time): Reply {
    match op
    case CreateTest(req, id) => StepCreateTest(s, req, id, now)
    case UpdateTest(testID, req, versionID) => StepUpdateTest(s, testID, req, versionID, now)
    case MoveTest(testID, projectID) => StepMoveTest(s, testID, projectID)
  }

  ghost function ServeRuns(s: State, cfg: Config, op: RunOp, now: Time): Reply {
    match op
    case StartRun(testID, runID, cmError, jobError) => StepStartRun(s, cfg, testID, runID, cmError, jobError, now)
    case CancelRun(runID, deleteFails) => StepCancelRun(s, runID, deleteFails, now)
    case PollJobs => Reply(StepPoll(s, cfg, now), 0)
    case JobReport(runID, active, succeeded, failed) => Reply(StepJobReport(s, runID, active, succeeded, failed), 0)
  }

  ghost function Serve(s: State, cfg: Config, op: Op, now: Time): Reply {
    match op
    case OnProjects(p) => ServeProjects(s, p, now)
    case OnTests(t) => ServeTests(s, t, now)
    case OnRuns(r) => ServeRuns(s, cfg, r, now)
  }

  ghost function Step(s: State, cfg: Config, e: Event): State {
    Serve(s, cfg, e.op, e.now).state.(clock := e.now)
  }

  /** Generated ids are new. */
  predicate FreshIDs(s: State, op: Op) {
    match op
    case OnProjects(CreateProject(_, id)) => id !in s.projects
    case OnTests(CreateTest(_, id)) => id !in s.tests && id != ""
    case OnTests(UpdateTest(_, _, id)) => id !in s.tests && id != ""
    case OnRuns(StartRun(_, id, _, _)) => id !in s.runs
    case _ => true
  }

  /** The clock does not run backwards. */
  predicate Legal(s: State, e: Event) {
    s.clock <= e.now && FreshIDs(s, e.op)
  }

  function Start(now: Time): State {
    State(P.Seeded(now), map[], map[], map[], map[], now)
  }

  ghost predicate LegalRun(s: State, cfg: Config, es: seq<Event>)
    decreases |es|
  {
    |es| > 0 ==> Legal(s, es[0]) && LegalRun(Step(s, cfg, es[0]), cfg, es[1..])
  }

  ghost function Execute(s: State, cfg: Config, es: seq<Event>): State
    decreases |es|
  {
    if |es| == 0 then s else Execute(Step(s, cfg, es[0]), cfg, es[1..])
  }

  // ---------- what holds in every reachable state ----------

  ghost predicate PinnedRun(r: Id, run: Run, plans: map<Id, string>, m: Rows, cfg: Config) {
    && run.id == r
    && run.testID in m
    && m[run.testID].id == run.testCatalogID
    && var row := m[run.testID];
       r in plans ==> cfg.generate(PlanParams(row.targetURL, row.virtualUsers, row.durationSeconds)) == Plan(plans[r])
  }

  /** Every run names an existing version row of its catalogue family, and its plan, if one was
      handed to the cluster, was generated from that row. */
  ghost predicate Pinned(runs: RunTable, plans: map<Id, string>, m: Rows, cfg: Config) {
    && plans.Keys <= runs.Keys
    && forall r | r in runs :: PinnedRun(r, runs[r], plans, m, cfg)
  }

  predicate LifecycleOk(run: Run, hasJob: bool) {
    && TimesFitStatus(run)
    && (run.status.Pending? || run.status.Running? || run.status.Completed? ==> hasJob)
    && (run.status.Stopped? ==> !hasJob)
  }

  /** No run is stuck: one that is pending or running has a Job for the watcher to find. */
  ghost predicate NothingStuck(runs: RunTable, jobs: map<Id, Job>) {
    && jobs.Keys <= runs.Keys
    && (forall r | r in jobs :: jobs[r].runID == r)
    && forall r | r in runs :: LifecycleOk(runs[r], r in jobs)
  }

  ghost predicate Invariant(s: State, cfg: Config) {
    && ZERO_TIME < s.clock
    && Consistent(s.tests, s.clock) && Uniform(s.tests)
    && P.WellKept(s.projects)
    && Filed(s.tests, s.projects.Keys)
    && Pinned(s.runs, s.plans, s.tests, cfg)
    && NothingStuck(s.runs, s.jobs)
  }

  // ---------- what one step keeps ----------

  lemma {:induction false} ProjectsStayWellKept(s: State, op: ProjectOp, now: Time)
    requires P.WellKept(s.projects) && FreshIDs(s, OnProjects(op))
    ensures P.WellKept(ServeProjects(s, op, now).state.projects)
    ensures ServeProjects(s, op, now).state == s.(projects := ServeProjects(s, op, now).state.projects)
  {
    match op
    case CreateProject(rawName, id) =>
      if P.ValidProjectName(rawName).Some? {
        P.CreateKeepsRegistry(s.projects, rawName, id, now);
      }
    case RenameProject(id, rawName) =>
      if P.ValidProjectName(rawName).Some? {
        P.RenameKeepsRegistry(s.projects, id, rawName);
      }
    case DeleteProject(id) => P.DeleteKeepsRegistry(s.projects, id);
  }

  lemma {:induction false} CreateIsAnExtension(m: Rows, registered: set<Id>, d: Id, t: Test, id: Id, now: Time)
    requires Rooted(m) && id !in m && id != "" && (t.projectID != "" ==> t.projectID in registered)
    ensures Catalog.CreateTest(m, registered, d, t, id, now).1.Ok?
    ensures var row := Catalog.CreateTest(m, registered, d, t, id, now).1.value;
      && Catalog.CreateTest(m, registered, d, t, id, now).0 == With(m, row)
      && !HasFamily(m, row.id) && Extends(m, row, now)
      && row.projectID == if t.projectID == "" then d else t.projectID
  {
    CreateExtends(m, t.(projectID := if t.projectID == "" then d else t.projectID), id, now);
  }

  lemma {:induction false} EditIsAnExtension(m: Rows, t: Test, versionID: Id, now: Time)
    requires HasFamily(m, t.id) && versionID !in m && versionID != ""
    ensures var row := Edited(m, t, versionID, now);
      && Catalog.UpdateTest(m, t, versionID, now) == (With(m, row), Ok(row))
      && Extends(m, row, now) && row.id == t.id && row.projectID == Latest(m, t.id).projectID
  {
    EditExtends(m, t, versionID, now);
  }

  /** A change of the catalogue that files rows as the API does: an edit follows its test. */
  ghost predicate ChangedBy(m: Rows, m': Rows, change: Change, registered: set<Id>, now: Time) {
    && Changed(m, m', change, now)
    && match change
       case Untouched => true
       case Refiled(c, p) => p in registered
       case Added(row) =>
         if HasFamily(m, row.id) then row.projectID == Latest(m, row.id).projectID else row.projectID in registered
  }

  lemma {:induction false} CreateTestChange(s: State, req: TestRequest, id: Id, now: Time) returns (change: Change)
    requires Rooted(s.tests) && P.DEFAULT_PROJECT_ID in s.projects && id !in s.tests && id != ""
    ensures ChangedBy(s.tests, StepCreateTest(s, req, id, now).state.tests, change, s.projects.Keys, now)
    ensures change.Added? ==> change.row.id == id && !HasFamily(s.tests, id)
  {
    change := Untouched;
    if ValidRequest(req) && (req.projectID == "" || req.projectID in s.projects) {
      var t := RequestedTest("", req, req.projectID);
      CreateIsAnExtension(s.tests, s.projects.Keys, P.DEFAULT_PROJECT_ID, t, id, now);
      change := Added(Catalog.CreateTest(s.tests, s.projects.Keys, P.DEFAULT_PROJECT_ID, t, id, now).1.value);
    }
  }

  lemma {:induction false} UpdateTestChange(s: State, testID: Id, req: TestRequest, versionID: Id, now: Time)
    returns (change: Change)
    requires versionID !in s.tests && versionID != ""
    ensures ChangedBy(s.tests, StepUpdateTest(s, testID, req, versionID, now).state.tests, change, s.projects.Keys, now)
    ensures change.Added? ==> change.row.id == testID
  {
    change := Untouched;
    if ValidRequest(req) && HasFamily(s.tests, testID) {
      var t := RequestedTest(testID, req, "");
      EditIsAnExtension(s.tests, t, versionID, now);
      change := Added(Edited(s.tests, t, versionID, now));
    }
  }

  lemma {:induction false} MoveTestChange(s: State, testID: Id, projectID: Id, now: Time) returns (change: Change)
    ensures ChangedBy(s.tests, StepMoveTest(s, testID, projectID).state.tests, change, s.projects.Keys, now)
    ensures !change.Added?
  {
    change := if projectID != "" && projectID in s.projects && HasFamily(s.tests, testID)
      then Refiled(testID, projectID) else Untouched;
  }

  lemma {:induction false} CatalogChange(s: State, op: TestOp, now: Time) returns (change: Change)
    requires Rooted(s.tests) && P.DEFAULT_PROJECT_ID in s.projects && FreshIDs(s, OnTests(op))
    ensures ChangedBy(s.tests, ServeTests(s, op, now).state.tests, change, s.projects.Keys, now)
    ensures ServeTests(s, op, now).state == s.(tests := ServeTests(s, op, now).state.tests)
    ensures change.Added? ==> match op
      case CreateTest(_, id) => change.row.id == id && !HasFamily(s.tests, id)
      case UpdateTest(testID, _, _) => change.row.id == testID
      case MoveTest(_, _) => false
  {
    match op
    case CreateTest(req, id) => change := CreateTestChange(s, req, id, now);
    case UpdateTest(testID, req, versionID) => change := UpdateTestChange(s, testID, req, versionID, now);
    case MoveTest(testID, projectID) => change := MoveTestChange(s, testID, projectID, now);
  }

  lemma {:induction false} CatalogStaysConsistent(m: Rows, m': Rows, change: Change, registered: set<Id>, clock: Time, now: Time)
    requires Consistent(m, clock) && Uniform(m) && clock <= now && ZERO_TIME < now
    requires ChangedBy(m, m', change, registered, now)
    ensures Consistent(m', now) && Uniform(m')
  {
    ChangeKeepsConsistent(m, m', change, clock, now);
    match change
    case Untouched =>
    case Added(row) => ExtendKeepsUniform(m, row, now);
    case Refiled(c, p) => MoveChangesOnlyTheProject(m, c, p);
  }

  // ---------- filing ----------

  /** Counting latest versions is enough: when no latest version is filed under a project, no
      version at all is. */
  lemma {:induction false} NoLatestMeansNoRow(m: Rows, p: Id)
    requires Uniform(m) && CollapseThenFilter(m, p) == {}
    ensures forall v | v in m :: m[v].projectID != p
  {
    forall v | v in m ensures m[v].projectID != p {
      var t := Get(m, m[v].id);
      CatalogueHasGet(m, m[v].id);
      assert t.projectID == m[v].projectID;
      assert t !in CollapseThenFilter(m, p);
    }
  }

  /** A successful project delete leaves no version row, old or latest, that names the project; the
      default project is never deleted, and a refused delete changes nothing. */
  lemma {:induction false} DeleteLeavesNoOrphan(s: State, id: Id)
    requires Uniform(s.tests) && P.WellKept(s.projects)
    ensures var r := StepDeleteProject(s, id);
      && (r.code == 204 ==> r.state == s.(projects := s.projects - {id}) && id in s.projects && id != P.DEFAULT_PROJECT_ID
                            && forall v | v in s.tests :: s.tests[v].projectID != id)
      && (r.code != 204 ==> r.state == s)
      && (r.code == 204 <==> id in s.projects && id != P.DEFAULT_PROJECT_ID && CollapseThenFilter(s.tests, id) == {})
  {
    if CollapseThenFilter(s.tests, id) == {} {
      NoLatestMeansNoRow(s.tests, id);
    }
  }

  lemma {:induction false} ProjectStepsKeepFiled(s: State, op: ProjectOp, now: Time)
    requires Filed(s.tests, s.projects.Keys) && Uniform(s.tests) && P.WellKept(s.projects)
    ensures Filed(s.tests, ServeProjects(s, op, now).state.projects.Keys)
  {
    match op
    case CreateProject(rawName, id) =>
    case RenameProject(id, rawName) =>
    case DeleteProject(id) => DeleteLeavesNoOrphan(s, id);
  }

  lemma {:induction false} TestStepsKeepFiled(m: Rows, m': Rows, registered: set<Id>, change: Change, now: Time)
    requires Filed(m, registered) && ChangedBy(m, m', change, registered, now)
    ensures Filed(m', registered)
  {
    match change
    case Untouched =>
    case Added(row) =>
      if HasFamily(m, row.id) {
        var l := LatestID(m, row.id);
        assert m[l].projectID in registered;
      }
    case Refiled(c, p) => MoveChangesOnlyTheProject(m, c, p);
  }

  // ---------- runs ----------

  lemma {:induction false} FamiliesAreNamed(m: Rows, c: Id)
    requires Keyed(m) && Rooted(m) && HasFamily(m, c)
    ensures c != ""
  {
    var v :| v in m && m[v].id == c;
    assert c in m;
  }

  /** Edits and moves leave every run pinned to the row it started with. */
  lemma {:induction false} RowsPersistKeepsPins(runs: RunTable, plans: map<Id, string>, m: Rows, m': Rows, cfg: Config)
    requires Pinned(runs, plans, m, cfg) && RowsPersist(m, m')
    ensures Pinned(runs, plans, m', cfg)
  {
    forall r | r in runs ensures PinnedRun(r, runs[r], plans, m', cfg) {
      assert PinnedRun(r, runs[r], plans, m, cfg);
      var v := runs[r].testID;
      assert m'[v] == m[v].(projectID := m'[v].projectID);
    }
  }

  predicate SamePin(run: Run, run': Run) {
    run'.id == run.id && run'.testID == run.testID && run'.testCatalogID == run.testCatalogID && run'.createdAt == run.createdAt
  }

  /** Only the status, the message and the timestamps of a run ever change. */
  ghost predicate SamePins(runs: RunTable, runs': RunTable) {
    && runs.Keys <= runs'.Keys
    && forall r | r in runs :: SamePin(runs[r], runs'[r])
  }

  lemma {:induction false} StatusesDoNotUnpin(runs: RunTable, runs': RunTable, plans: map<Id, string>, m: Rows, cfg: Config)
    requires Pinned(runs, plans, m, cfg) && SamePins(runs, runs') && runs'.Keys == runs.Keys
    ensures Pinned(runs', plans, m, cfg)
  {
    forall r | r in runs' ensures PinnedRun(r, runs'[r], plans, m, cfg) {
      assert PinnedRun(r, runs[r], plans, m, cfg);
    }
  }

  /** A new run starts with the version row its plan is generated from, and has a Job if and only if
      it is pending. */
  ghost predicate GoodSubmission(m: Rows, cfg: Config, testID: Id, runID: Id, sub: Submission)
    requires HasFamily(m, testID)
  {
    && sub.run.id == runID
    && sub.run.testID == LatestID(m, testID) && sub.run.testCatalogID == testID
    && (sub.plan.Some? ==>
         var row := Latest(m, testID);
         cfg.generate(PlanParams(row.targetURL, row.virtualUsers, row.durationSeconds)) == Plan(sub.plan.value))
    && (sub.submitted ==> sub.plan.Some? && sub.run.status.Pending?)
    && (!sub.submitted ==> sub.run.status.Failed?)
    && LifecycleOk(sub.run, sub.submitted)
  }

  lemma {:induction false} SubmissionsAreGood(m: Rows, cfg: Config, testID: Id, runID: Id, cmError: Option<string>,
                                              jobError: Option<string>, now: Time)
    requires Keyed(m) && Rooted(m) && HasFamily(m, testID)
    ensures GoodSubmission(m, cfg, testID, runID, Submit(cfg, Get(m, testID), runID, cmError, jobError, now))
  {
    FamiliesAreNamed(m, testID);
  }

  lemma {:induction false} SubmissionIsPinned(runs: RunTable, plans: map<Id, string>, plans': map<Id, string>, m: Rows,
                                              cfg: Config, testID: Id, runID: Id, sub: Submission)
    requires HasFamily(m, testID) && GoodSubmission(m, cfg, testID, runID, sub)
    requires Pinned(runs, plans, m, cfg) && runID !in runs
    requires plans' == if sub.plan.Some? then plans[runID := sub.plan.value] else plans
    ensures Pinned(runs[runID := sub.run], plans', m, cfg)
  {
    var runs' := runs[runID := sub.run];
    assert runID !in plans;
    forall r | r in runs' ensures PinnedRun(r, runs'[r], plans', m, cfg) {
      assert r != runID ==> PinnedRun(r, runs[r], plans, m, cfg);
    }
  }

  lemma {:induction false} SubmissionIsNotStuck(runs: RunTable, jobs: map<Id, Job>, jobs': map<Id, Job>, runID: Id,
                                                sub: Submission, now: Time)
    requires LifecycleOk(sub.run, sub.submitted)
    requires NothingStuck(runs, jobs) && runID !in runs
    requires jobs' == if sub.submitted then jobs[runID := Job(runID, 0, 0, 0, now)] else jobs
    ensures NothingStuck(runs[runID := sub.run], jobs')
  {
    var runs' := runs[runID := sub.run];
    assert runID !in jobs;
    forall r | r in runs' ensures LifecycleOk(runs'[r], r in jobs') {
      assert r != runID ==> LifecycleOk(runs[r], r in jobs);
    }
  }

  /** Runs and plans already there are kept. */
  ghost predicate RunsPersist(s: State, s': State) {
    && SamePins(s.runs, s'.runs)
    && forall r | r in s.plans :: r in s'.plans && s'.plans[r] == s.plans[r]
  }

  ghost predicate GoodRunStep(s: State, s': State, cfg: Config) {
    && s' == s.(runs := s'.runs, jobs := s'.jobs, plans := s'.plans)
    && Pinned(s'.runs, s'.plans, s.tests, cfg) && NothingStuck(s'.runs, s'.jobs)
    && RunsPersist(s, s')
  }

  lemma {:induction false} StartStep(s: State, cfg: Config, testID: Id, runID: Id, cmError: Option<string>,
                                     jobError: Option<string>, now: Time)
    requires Keyed(s.tests) && Rooted(s.tests) && runID !in s.runs
    requires Pinned(s.runs, s.plans, s.tests, cfg) && NothingStuck(s.runs, s.jobs)
    ensures GoodRunStep(s, StepStartRun(s, cfg, testID, runID, cmError, jobError, now).state, cfg)
  {
    if HasFamily(s.tests, testID) {
      var sub := Submit(cfg, Get(s.tests, testID), runID, cmError, jobError, now);
      SubmissionsAreGood(s.tests, cfg, testID, runID, cmError, jobError, now);
      SubmissionStep(s, cfg, testID, runID, sub, now);
    }
  }

  lemma {:induction false} SubmissionStep(s: State, cfg: Config, testID: Id, runID: Id, sub: Submission, now: Time)
    requires HasFamily(s.tests, testID) && GoodSubmission(s.tests, cfg, testID, runID, sub) && runID !in s.runs
    requires Pinned(s.runs, s.plans, s.tests, cfg) && NothingStuck(s.runs, s.jobs)
    ensures GoodRunStep(s, AfterSubmission(s, runID, sub, now), cfg)
  {
    var s' := AfterSubmission(s, runID, sub, now);
    SubmissionIsPinned(s.runs, s.plans, s'.plans, s.tests, cfg, testID, runID, sub);
    SubmissionIsNotStuck(s.runs, s.jobs, s'.jobs, runID, sub, now);
    assert runID !in s.plans;
  }

  lemma {:induction false} CancelledIsNotStuck(runs: RunTable, jobs: map<Id, Job>, id: Id, now: Time)
    requires NothingStuck(runs, jobs) && id in runs
    ensures NothingStuck(runs[id := WithStatus(runs[id], Stopped, "", now)], jobs - {id})
    ensures SamePins(runs, runs[id := WithStatus(runs[id], Stopped, "", now)])
  {
    var runs', jobs' := runs[id := WithStatus(runs[id], Stopped, "", now)], jobs - {id};
    forall r | r in runs' ensures LifecycleOk(runs'[r], r in jobs') {
      assert LifecycleOk(runs[r], r in jobs);
    }
  }

  lemma {:induction false} CancelStep(s: State, cfg: Config, runID: Id, deleteFails: bool, now: Time)
    requires Pinned(s.runs, s.plans, s.tests, cfg) && NothingStuck(s.runs, s.jobs)
    ensures GoodRunStep(s, StepCancelRun(s, runID, deleteFails, now).state, cfg)
  {
    if runID in s.runs && !deleteFails {
      CancelledIsNotStuck(s.runs, s.jobs, runID, now);
      StatusesDoNotUnpin(s.runs, StepCancelRun(s, runID, deleteFails, now).state.runs, s.plans, s.tests, cfg);
    }
  }

  lemma {:induction false} PolledIsNotStuck(runs: RunTable, jobs: map<Id, Job>, now: Time, timeout: Time)
    requires NothingStuck(runs, jobs)
    ensures NothingStuck(Polled(runs, jobs, now, timeout), jobs)
    ensures SamePins(runs, Polled(runs, jobs, now, timeout)) && Polled(runs, jobs, now, timeout).Keys == runs.Keys
  {
    var runs' := Polled(runs, jobs, now, timeout);
    forall r | r in runs' ensures LifecycleOk(runs'[r], r in jobs) && SamePin(runs[r], runs'[r]) {
      if r in jobs {
        ReconcileKeepsLifecycle(runs[r], jobs[r], now, timeout);
      }
    }
  }

  lemma {:induction false} ReconcileKeepsLifecycle(run: Run, job: Job, now: Time, timeout: Time)
    requires LifecycleOk(run, true)
    ensures LifecycleOk(Reconcile(run, job, now, timeout), true) && SamePin(run, Reconcile(run, job, now, timeout))
  {
  }

  lemma {:induction false} PollStep(s: State, cfg: Config, now: Time)
    requires Pinned(s.runs, s.plans, s.tests, cfg) && NothingStuck(s.runs, s.jobs)
    ensures GoodRunStep(s, StepPoll(s, cfg, now), cfg)
  {
    PolledIsNotStuck(s.runs, s.jobs, now, cfg.unschedulableTimeout);
    StatusesDoNotUnpin(s.runs, StepPoll(s, cfg, now).runs, s.plans, s.tests, cfg);
  }

  lemma {:induction false} ReportStep(s: State, cfg: Config, runID: Id, active: nat, succeeded: nat, failed: nat)
    requires Pinned(s.runs, s.plans, s.tests, cfg) && NothingStuck(s.runs, s.jobs)
    ensures GoodRunStep(s, StepJobReport(s, runID, active, succeeded, failed), cfg)
  {
    if runID in s.jobs {
      ReportIsNotStuck(s.runs, s.jobs, s.jobs[runID].(active := active, succeeded := succeeded, failed := failed));
    }
  }

  lemma {:induction false} ReportIsNotStuck(runs: RunTable, jobs: map<Id, Job>, job: Job)
    requires NothingStuck(runs, jobs) && job.runID in jobs
    ensures NothingStuck(runs, jobs[job.runID := job])
  {
  }

  lemma {:induction false} RunStep(s: State, cfg: Config, op: RunOp, now: Time)
    requires Keyed(s.tests) && Rooted(s.tests) && FreshIDs(s, OnRuns(op))
    requires Pinned(s.runs, s.plans, s.tests, cfg) && NothingStuck(s.runs, s.jobs)
    ensures GoodRunStep(s, ServeRuns(s, cfg, op, now).state, cfg)
  {
    match op
    case StartRun(testID, runID, cmError, jobError) => StartStep(s, cfg, testID, runID, cmError, jobError, now);
    case CancelRun(runID, deleteFails) => CancelStep(s, cfg, runID, deleteFails, now);
    case PollJobs => PollStep(s, cfg, now);
    case JobReport(runID, active, succeeded, failed) => ReportStep(s, cfg, runID, active, succeeded, failed);
  }

  // ---------- every reachable state ----------

  /** s' is a good successor of s: the invariant holds, and history is kept. */
  ghost predicate Follows(s: State, s': State, cfg: Config) {
    Invariant(s', cfg) && s.clock <= s'.clock && RowsPersist(s.tests, s'.tests) && RunsPersist(s, s')
  }

  lemma {:induction false} AfterProjectOp(s: State, cfg: Config, op: ProjectOp, now: Time)
    requires Invariant(s, cfg) && Legal(s, Event(OnProjects(op), now))
    ensures Follows(s, ServeProjects(s, op, now).state.(clock := now), cfg)
  {
    TimePasses(s.tests, s.clock, now);
    ProjectsStayWellKept(s, op, now);
    ProjectStepsKeepFiled(s, op, now);
  }

  ghost predicate GoodCatalogue(m: Rows, m': Rows, registered: set<Id>, now: Time) {
    Consistent(m', now) && Uniform(m') && Filed(m', registered) && RowsPersist(m, m')
  }

  lemma {:induction false} CatalogueStep(m: Rows, m': Rows, change: Change, registered: set<Id>, clock: Time, now: Time)
    requires Consistent(m, clock) && Uniform(m) && Filed(m, registered) && clock <= now && ZERO_TIME < now
    requires ChangedBy(m, m', change, registered, now)
    ensures GoodCatalogue(m, m', registered, now)
  {
    CatalogStaysConsistent(m, m', change, registered, clock, now);
    ChangeKeepsRows(m, m', change, clock, now);
    TestStepsKeepFiled(m, m', registered, change, now);
  }

  lemma {:induction false} AfterTestOp(s: State, cfg: Config, op: TestOp, now: Time)
    requires Invariant(s, cfg) && Legal(s, Event(OnTests(op), now))
    ensures Follows(s, ServeTests(s, op, now).state.(clock := now), cfg)
  {
    var m' := ServeTests(s, op, now).state.tests;
    var change := CatalogChange(s, op, now);
    CatalogueStep(s.tests, m', change, s.projects.Keys, s.clock, now);
    AfterCatalogChange(s, cfg, m', now);
  }

  lemma {:induction false} AfterCatalogChange(s: State, cfg: Config, m': Rows, now: Time)
    requires Invariant(s, cfg) && s.clock <= now
    requires GoodCatalogue(s.tests, m', s.projects.Keys, now)
    ensures Follows(s, s.(tests := m', clock := now), cfg)
  {
    RowsPersistKeepsPins(s.runs, s.plans, s.tests, m', cfg);
  }

  lemma {:induction false} AfterRunOp(s: State, cfg: Config, op: RunOp, now: Time)
    requires Invariant(s, cfg) && Legal(s, Event(OnRuns(op), now))
    ensures Follows(s, ServeRuns(s, cfg, op, now).state.(clock := now), cfg)
  {
    TimePasses(s.tests, s.clock, now);
    RunStep(s, cfg, op, now);
  }

  /** Every legal step keeps the invariant and the history. */
  lemma {:induction false} StepFollows(s: State, cfg: Config, e: Event)
    requires Invariant(s, cfg) && Legal(s, e)
    ensures Follows(s, Step(s, cfg, e), cfg)
  {
    match e.op
    case OnProjects(op) => AfterProjectOp(s, cfg, op, e.now);
    case OnTests(op) => AfterTestOp(s, cfg, op, e.now);
    case OnRuns(op) => AfterRunOp(s, cfg, op, e.now);
  }

  lemma {:induction false} RunsPersistTwice(a: State, b: State, c: State)
    requires RunsPersist(a, b) && RunsPersist(b, c)
    ensures RunsPersist(a, c)
  {
  }

  /** Over any run of the system from a good state, the invariant holds at the end, no version row
      has changed but for its project, no family's creation time has moved, and every run still names
      the row and keeps the plan it started with. */
  lemma {:induction false} RunsFollow(s: State, cfg: Config, es: seq<Event>)
    requires Invariant(s, cfg) && LegalRun(s, cfg, es)
    ensures Follows(s, Execute(s, cfg, es), cfg)
    decreases |es|
  {
    if |es| > 0 {
      var next, last := Step(s, cfg, es[0]), Execute(s, cfg, es);
      StepFollows(s, cfg, es[0]);
      RunsFollow(next, cfg, es[1..]);
      RowsPersistTwice(s.tests, next.tests, last.tests);
      RunsPersistTwice(s, next, last);
    }
  }

  /** Every state the system can reach from its start satisfies the invariant. */
  lemma {:induction false} ReachableStatesAreGood(cfg: Config, now: Time, es: seq<Event>)
    requires ZERO_TIME < now && LegalRun(Start(now), cfg, es)
    ensures Invariant(Execute(Start(now), cfg, es), cfg)
  {
    P.SeededIsWellKept(now);
    assert Stamped(map[]);
    RunsFollow(Start(now), cfg, es);
  }

  // ---------- the watcher sees what the system sees ----------

  /** Polling any listing of the system's Jobs is the system's poll step. */
  lemma {:induction false} ListingMatchesStep(runs: RunTable, jobs: map<Id, Job>, listing: seq<Job>, now: Time, timeout: Time)
    requires forall r | r in jobs :: jobs[r].runID == r
    requires DistinctRuns(listing) && forall j :: j in listing <==> j in jobs.Values
    ensures Poll(runs, listing, now, timeout) == Polled(runs, jobs, now, timeout)
  {
    PollIsPointwise(runs, listing, now, timeout);
    forall r | r in runs ensures Poll(runs, listing, now, timeout)[r] == Polled(runs, jobs, now, timeout)[r] {
      if r in jobs {
        assert jobs[r] in listing;
      } else {
        assert !Lists(listing, r);
      }
    }
  }

  /** Families created at different times are listed in the same order for ever after. */
  lemma {:induction false} ListOrderNeverChanges(s: State, cfg: Config, es: seq<Event>, before: seq<Test>, after: seq<Test>,
                                                 i: nat, j: nat, i': nat, j': nat)
    requires Invariant(s, cfg) && LegalRun(s, cfg, es)
    requires Listing(before, Catalogue(s.tests), Newer) && Listing(after, Catalogue(Execute(s, cfg, es).tests), Newer)
    requires i < |before| && j < |before| && i' < |after| && j' < |after|
    requires after[i'].id == before[i].id && after[j'].id == before[j].id
    requires before[i].createdAt != before[j].createdAt
    ensures i < j <==> i' < j'
  {
    RunsFollow(s, cfg, es);
    ListShowsEachFamilyOnce(s.tests, before);
    OrderIsStable(s.tests, before, Execute(s, cfg, es).tests, after, i, j, i', j');
  }

  // ---------- consequences for runs ----------

  /** ListByTest of a catalogue id returns exactly the runs pinned to a version of that family. */
  lemma {:induction false} RunsOfTestAreTheFamilys(s: State, cfg: Config, c: Id)
    requires Pinned(s.runs, s.plans, s.tests, cfg)
    ensures forall run ::
      (run in RunsOfTest(s.runs, c) <==> run.id in s.runs && s.runs[run.id] == run && run.testID in Family(s.tests, c))
  {
    forall run
      ensures run in RunsOfTest(s.runs, c) <==> run.id in s.runs && s.runs[run.id] == run && run.testID in Family(s.tests, c)
    {
      if run in RunsOfTest(s.runs, c) {
        var r :| r in RunIDsOfTest(s.runs, c) && s.runs[r] == run;
        assert PinnedRun(r, run, s.plans, s.tests, cfg);
      }
      if run.id in s.runs && s.runs[run.id] == run && run.testID in Family(s.tests, c) {
        assert PinnedRun(run.id, run, s.plans, s.tests, cfg);
        assert run.id in RunIDsOfTest(s.runs, c);
      }
    }
  }

  /** After a poll no run at all is pending beyond the timeout: a run still pending has a Job that
      shows no pod and is young enough. */
  lemma {:induction false} NoRunPendsPastTheTimeout(s: State, cfg: Config, now: Time)
    requires Invariant(s, cfg)
    ensures var s' := StepPoll(s, cfg, now);
      forall r | r in s'.runs && s'.runs[r].status.Pending? ::
        r in s.jobs && !Ended(s.jobs[r]) && s.jobs[r].active == 0
        && now - s.jobs[r].created <= cfg.unschedulableTimeout
  {
    var s' := StepPoll(s, cfg, now);
    forall r | r in s'.runs && s'.runs[r].status.Pending?
      ensures r in s.jobs && !Ended(s.jobs[r]) && s.jobs[r].active == 0
        && now - s.jobs[r].created <= cfg.unschedulableTimeout
    {
      assert LifecycleOk(s.runs[r], r in s.jobs);
      if r in s.jobs {
        PendingAfterPoll(s.runs[r], s.jobs[r], now, cfg.unschedulableTimeout);
      }
    }
  }

  /** After a poll every run whose Job has ended one way has that outcome, unless it was cancelled
      and has no Job. */
  lemma {:induction false} EndedRunsAreSettled(s: State, cfg: Config, now: Time)
    requires NothingStuck(s.runs, s.jobs)
    ensures var s' := StepPoll(s, cfg, now);
      forall r | r in s.jobs && Ended(s.jobs[r]) && !Contradictory(s.jobs[r]) ::
        r in s'.runs && s'.runs[r].status == FinalStatus(s.jobs[r])
  {
    forall r | r in s.jobs && Ended(s.jobs[r]) && !Contradictory(s.jobs[r])
      ensures r in s.runs && StepPoll(s, cfg, now).runs[r].status == FinalStatus(s.jobs[r])
    {
      EndIsFinal(s.runs[r], s.jobs[r], now, s.jobs[r], now, cfg.unschedulableTimeout);
    }
  }

  // ---------- how often the watcher writes a run ----------

  /** The step does not cancel the run, and a report about its Job only grows and is never both
      succeeded and failed. */
  predicate CalmStep(s: State, e: Event, id: Id) {
    match e.op
    case OnRuns(CancelRun(r, _)) => r != id
    case OnRuns(JobReport(r, _, succeeded, failed)) =>
      r == id && id in s.jobs ==>
        s.jobs[id].succeeded <= succeeded && s.jobs[id].failed <= failed && !(succeeded > 0 && failed > 0)
    case _ => true
  }

  ghost predicate Calm(s: State, cfg: Config, es: seq<Event>, id: Id)
    decreases |es|
  {
    |es| > 0 ==> CalmStep(s, es[0], id) && Calm(Step(s, cfg, es[0]), cfg, es[1..], id)
  }

  predicate IsPoll(e: Event) { e.op == OnRuns(PollJobs) }

  /** The number of status updates that polls make of the run. */
  ghost function Writes(s: State, cfg: Config, es: seq<Event>, id: Id): nat
    decreases |es|
  {
    if |es| == 0 then 0
    else StepWrites(s, cfg, es[0], id) + Writes(Step(s, cfg, es[0]), cfg, es[1..], id)
  }

  /** How many more times the watcher may write the run. */
  function Budget(runs: RunTable, jobs: map<Id, Job>, id: Id): nat {
    if id !in runs then 2
    else if id !in jobs then 0
    else match runs[id].status
      case Pending => 2
      case Running => 1
      case Failed => if jobs[id].failed > 0 then 0 else 1
      case _ => 0
  }

  predicate Tracked(runs: RunTable, jobs: map<Id, Job>, id: Id) {
    id in runs && id in jobs ==>
      !Contradictory(jobs[id]) && !runs[id].status.Stopped? && (runs[id].status.Completed? ==> jobs[id].succeeded > 0)
  }

  lemma {:induction false} ReconcileSpendsBudget(runs: RunTable, jobs: map<Id, Job>, id: Id, now: Time, timeout: Time)
    requires Tracked(runs, jobs, id)
    ensures var runs' := Polled(runs, jobs, now, timeout);
      && Tracked(runs', jobs, id)
      && Budget(runs', jobs, id) + PollWrites(runs, jobs, id, now, timeout) <= Budget(runs, jobs, id)
  {
  }

  /** Whether a poll updates the run. */
  function PollWrites(runs: RunTable, jobs: map<Id, Job>, id: Id, now: Time, timeout: Time): nat {
    if id in runs && id in jobs && Decide(runs[id], jobs[id], now, timeout).Set? then 1 else 0
  }

  lemma {:induction false} RunOpSpendsBudget(s: State, cfg: Config, op: RunOp, now: Time, id: Id)
    requires NothingStuck(s.runs, s.jobs) && Tracked(s.runs, s.jobs, id)
    requires FreshIDs(s, OnRuns(op)) && CalmStep(s, Event(OnRuns(op), now), id)
    ensures var s' := ServeRuns(s, cfg, op, now).state;
      && Tracked(s'.runs, s'.jobs, id)
      && Budget(s'.runs, s'.jobs, id)
         + (if op.PollJobs? then PollWrites(s.runs, s.jobs, id, now, cfg.unschedulableTimeout) else 0)
         <= Budget(s.runs, s.jobs, id)
  {
    match op
    case StartRun(testID, runID, cmError, jobError) => StartSpendsBudget(s, cfg, testID, runID, cmError, jobError, now, id);
    case CancelRun(runID, deleteFails) =>
    case PollJobs => ReconcileSpendsBudget(s.runs, s.jobs, id, now, cfg.unschedulableTimeout);
    case JobReport(runID, active, succeeded, failed) =>
  }

  lemma {:induction false} StartSpendsBudget(s: State, cfg: Config, testID: Id, runID: Id, cmError: Option<string>,
                                             jobError: Option<string>, now: Time, id: Id)
    requires NothingStuck(s.runs, s.jobs) && Tracked(s.runs, s.jobs, id) && runID !in s.runs
    ensures var s' := StepStartRun(s, cfg, testID, runID, cmError, jobError, now).state;
      Tracked(s'.runs, s'.jobs, id) && Budget(s'.runs, s'.jobs, id) <= Budget(s.runs, s.jobs, id)
  {
    assert runID !in s.jobs;
  }

  /** Requests about projects and tests touch neither runs nor Jobs. */
  lemma {:induction false} OtherOpsLeaveRuns(s: State, cfg: Config, e: Event)
    requires Invariant(s, cfg) && Legal(s, e) && !e.op.OnRuns?
    ensures Step(s, cfg, e).runs == s.runs && Step(s, cfg, e).jobs == s.jobs
  {
    match e.op
    case OnProjects(op) => ProjectsStayWellKept(s, op, e.now);
    case OnTests(op) => var _ := CatalogChange(s, op, e.now);
  }

  ghost function StepWrites(s: State, cfg: Config, e: Event, id: Id): nat {
    if IsPoll(e) then PollWrites(s.runs, s.jobs, id, e.now, cfg.unschedulableTimeout) else 0
  }

  /** The number of polls after which the run's status is another than before. */
  ghost function StatusChanges(s: State, cfg: Config, es: seq<Event>, id: Id): nat
    decreases |es|
  {
    if |es| == 0 then 0
    else
      var next := Step(s, cfg, es[0]);
      (if IsPoll(es[0]) && id in s.runs && id in next.runs && next.runs[id].status != s.runs[id].status then 1 else 0)
      + StatusChanges(next, cfg, es[1..], id)
  }

  /** Every update by a poll is a change of status, and the other way round. */
  lemma {:induction false} WritesAreStatusChanges(s: State, cfg: Config, es: seq<Event>, id: Id)
    ensures Writes(s, cfg, es, id) == StatusChanges(s, cfg, es, id)
    decreases |es|
  {
    if |es| > 0 {
      if IsPoll(es[0]) && id in s.runs && id in s.jobs {
        WritesChangeTheStatus(s.runs[id], s.jobs[id], es[0].now, cfg.unschedulableTimeout);
      }
      WritesAreStatusChanges(Step(s, cfg, es[0]), cfg, es[1..], id);
    }
  }

  lemma {:induction false} StepSpendsBudget(s: State, cfg: Config, e: Event, id: Id)
    requires Invariant(s, cfg) && Legal(s, e) && CalmStep(s, e, id) && Tracked(s.runs, s.jobs, id)
    ensures var next := Step(s, cfg, e);
      && Tracked(next.runs, next.jobs, id)
      && Budget(next.runs, next.jobs, id) + StepWrites(s, cfg, e, id) <= Budget(s.runs, s.jobs, id)
  {
    if e.op.OnRuns? {
      RunOpSpendsBudget(s, cfg, e.op.r, e.now, id);
    } else {
      OtherOpsLeaveRuns(s, cfg, e);
    }
  }

  lemma {:induction false} StepKeepsInvariant(s: State, cfg: Config, e: Event)
    requires Invariant(s, cfg) && Legal(s, e)
    ensures Invariant(Step(s, cfg, e), cfg)
  {
    StepFollows(s, cfg, e);
  }

  lemma {:induction false} WritesWithinBudget(s: State, cfg: Config, es: seq<Event>, id: Id)
    requires Invariant(s, cfg) && LegalRun(s, cfg, es) && Calm(s, cfg, es, id)
    requires Tracked(s.runs, s.jobs, id)
    ensures Writes(s, cfg, es, id) <= Budget(s.runs, s.jobs, id)
    decreases |es|
  {
    if |es| > 0 {
      StepKeepsInvariant(s, cfg, es[0]);
      StepSpendsBudget(s, cfg, es[0], id);
      WritesWithinBudget(Step(s, cfg, es[0]), cfg, es[1..], id);
    }
  }

  /** Without a cancel, and while its Job's counters only grow, the watcher writes a run's status at
      most twice, however long the system runs. */
  lemma {:induction false} AtMostTwoWrites(s: State, cfg: Config, es: seq<Event>, id: Id)
    requires Invariant(s, cfg) && LegalRun(s, cfg, es) && Calm(s, cfg, es, id)
    requires id !in s.runs
    ensures Writes(s, cfg, es, id) == StatusChanges(s, cfg, es, id) <= 2
  {
    WritesAreStatusChanges(s, cfg, es, id);
    WritesWithinBudget(s, cfg, es, id);
  }

  /** The run's Job has ended one way, and the run says so. */
  predicate Settled(runs: RunTable, jobs: map<Id, Job>, id: Id) {
    && id in runs && id in jobs
    && Ended(jobs[id]) && !Contradictory(jobs[id])
    && runs[id].status == FinalStatus(jobs[id])
  }

  lemma {:induction false} RunOpKeepsSettled(s: State, cfg: Config, op: RunOp, now: Time, id: Id)
    requires NothingStuck(s.runs, s.jobs) && Settled(s.runs, s.jobs, id)
    requires FreshIDs(s, OnRuns(op)) && CalmStep(s, Event(OnRuns(op), now), id)
    ensures var s' := ServeRuns(s, cfg, op, now).state;
      Settled(s'.runs, s'.jobs, id) && s'.runs[id] == s.runs[id]
  {
    match op
    case StartRun(testID, runID, cmError, jobError) =>
    case CancelRun(runID, deleteFails) =>
    case PollJobs => EndIsFinal(s.runs[id], s.jobs[id], now, s.jobs[id], now, cfg.unschedulableTimeout);
    case JobReport(runID, active, succeeded, failed) =>
  }

  ghost predicate SettledAs(s: State, id: Id, run: Run) {
    Settled(s.runs, s.jobs, id) && s.runs[id] == run
  }

  lemma {:induction false} StepKeepsSettled(s: State, cfg: Config, e: Event, id: Id, run: Run)
    requires Invariant(s, cfg) && Legal(s, e) && CalmStep(s, e, id) && SettledAs(s, id, run)
    ensures SettledAs(Step(s, cfg, e), id, run)
  {
    if e.op.OnRuns? {
      RunOpKeepsSettled(s, cfg, e.op.r, e.now, id);
    } else {
      OtherOpsLeaveRuns(s, cfg, e);
    }
  }

  /** Once a poll has settled a run, nothing but a cancel writes it again: the whole record stays. */
  lemma {:induction false} SettledForGood(s: State, cfg: Config, es: seq<Event>, id: Id, run: Run)
    requires Invariant(s, cfg) && LegalRun(s, cfg, es) && Calm(s, cfg, es, id)
    requires SettledAs(s, id, run)
    ensures SettledAs(Execute(s, cfg, es), id, run)
    decreases |es|
  {
    if |es| > 0 {
      var next := Step(s, cfg, es[0]);
      StepKeepsInvariant(s, cfg, es[0]);
      StepKeepsSettled(s, cfg, es[0], id, run);
      SettledForGood(next, cfg, es[1..], id, run);
    }
  }
}
