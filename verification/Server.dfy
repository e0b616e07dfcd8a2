/** The API handlers (backend/internal/api), as methods over the in-memory stores and the cluster.
    Each answers with the HTTP status of the source and takes the state exactly where the system's
    step function says. */
module Server {
  import opened Model
  import opened Ordering
  import opened CatalogLists
  import opened Runs
  import opened System
  import M = MemStore

  /** The Jobs and ConfigMaps of one namespace, by the run id in their names. */
  class Cluster {
    var jobs: map<Id, Job>
    var configMaps: map<Id, string>

    constructor ()
      ensures jobs == map[] && configMaps == map[]
    {
      jobs, configMaps := map[], map[];
    }

    method CreateConfigMap(runID: Id, jmx: string, fault: Option<string>) returns (err: Option<string>)
      modifies this`configMaps
      ensures err == fault
      ensures configMaps == if fault.None? then old(configMaps)[runID := jmx] else old(configMaps)
    {
      if fault.None? {
        configMaps := configMaps[runID := jmx];
      }
      err := fault;
    }

    method CreateJob(runID: Id, fault: Option<string>, now: Time) returns (err: Option<string>)
      modifies this`jobs
      ensures err == fault
      ensures jobs == if fault.None? then old(jobs)[runID := Job(runID, 0, 0, 0, now)] else old(jobs)
    {
      if fault.None? {
        jobs := jobs[runID := Job(runID, 0, 0, 0, now)];
      }
      err := fault;
    }

    /** Deleting a Job that is not there is not a failure. */
    method DeleteJob(runID: Id, fails: bool) returns (ok: bool)
      modifies this`jobs
      ensures ok == !fails
      ensures jobs == if fails then old(jobs) else old(jobs) - {runID}
    {
      if !fails {
        jobs := jobs - {runID};
      }
      ok := !fails;
    }
  }

  class Server {
    const testStore: M.TestStore
    const projectStore: M.ProjectStore
    const runStore: M.RunStore
    const cluster: Cluster
    const cfg: Config

    ghost predicate Valid()
      reads this, testStore, projectStore, runStore, cluster
    {
      && testStore.projects == projectStore
      && testStore.Valid()
      && forall k | k in projectStore.projects :: projectStore.projects[k].id == k
    }

    ghost function Abs(clock: Time): State
      reads this, testStore, projectStore, runStore, cluster
    {
      State(projectStore.projects, testStore.tests, runStore.runs, cluster.jobs, cluster.configMaps, clock)
    }

    constructor (cfg: Config, now: Time)
      ensures Valid() && this.cfg == cfg
      ensures Abs(now) == Start(now)
    {
      var ps := new M.ProjectStore(now);
      var ts := new M.TestStore(ps);
      var rs := new M.RunStore();
      var c := new Cluster();
      this.cfg, projectStore, testStore, runStore, cluster := cfg, ps, ts, rs, c;
    }

    method HandleCreateProject(rawName: string, id: Id, now: Time) returns (code: int)
      requires Valid() && id !in projectStore.projects
      modifies projectStore
      ensures Valid()
      ensures Reply(Abs(now), code) == StepCreateProject(old(Abs(now)), rawName, id, now)
    {
      var name := P.ValidProjectName(rawName);
      if name.None? {
        return 400;
      }
      var r := projectStore.CreateProject(Project("", name.value, ZERO_TIME, false), id, now);
      code := if r.Ok? then 201 else 409;
    }

    method HandleRenameProject(id: Id, rawName: string) returns (code: int)
      requires Valid()
      modifies projectStore
      ensures Valid()
      ensures forall now :: Reply(Abs(now), code) == StepRenameProject(old(Abs(now)), id, rawName)
    {
      var name := P.ValidProjectName(rawName);
      if name.None? {
        return 400;
      }
      var r := projectStore.RenameProject(id, name.value);
      code := if r.Ok? then 200 else if r.error == NotFound then 404 else 409;
    }

    method HandleDeleteProject(id: Id) returns (code: int)
      requires Valid()
      modifies projectStore
      ensures Valid()
      ensures forall now :: Reply(Abs(now), code) == StepDeleteProject(old(Abs(now)), id)
    {
      var target := FindProject(id);
      if target.None? {
        return 404;
      }
      if target.value.isDefault {
        return 409;
      }
      var tests := testStore.ListTestsForProject(id);
      EnumerationFacts(tests, CollapseThenFilter(testStore.tests, id));
      if |tests| > 0 {
        return 409;
      }
      var r := projectStore.DeleteProject(id);
      code := 204;
    }

    /** The search of handleDeleteProject through the listed projects. */
    method FindProject(id: Id) returns (target: Option<Project>)
      requires Valid()
      ensures target == if id in projectStore.projects then Some(projectStore.projects[id]) else None
    {
      var projects := projectStore.ListProjects();
      EnumerationFacts(projects, projectStore.projects.Values);
      assert id in projectStore.projects ==> projectStore.projects[id] in projects;
      for i := 0 to |projects|
        invariant forall j | 0 <= j < i :: projects[j].id != id
      {
        if projects[i].id == id {
          assert projects[i] in projectStore.projects.Values;
          return Some(projects[i]);
        }
      }
      target := None;
    }

    method HandleCreateTest(req: TestRequest, id: Id, now: Time) returns (code: int)
      requires Valid() && id !in testStore.tests && id != "" && now != ZERO_TIME
      modifies testStore
      ensures Valid()
      ensures Reply(Abs(now), code) == StepCreateTest(old(Abs(now)), req, id, now)
    {
      if !ValidRequest(req) {
        return 400;
      }
      var r := testStore.CreateTest(RequestedTest("", req, req.projectID), id, now);
      code := if r.Ok? then 201 else 400;
    }

    method HandleUpdateTest(testID: Id, req: TestRequest, versionID: Id, now: Time) returns (code: int)
      requires Valid() && versionID !in testStore.tests && versionID != "" && now != ZERO_TIME
      modifies testStore
      ensures Valid()
      ensures Reply(Abs(now), code) == StepUpdateTest(old(Abs(now)), testID, req, versionID, now)
    {
      if !ValidRequest(req) {
        return 400;
      }
      var r := testStore.UpdateTest(RequestedTest(testID, req, ""), versionID, now);
      code := if r.Ok? then 200 else 404;
    }

    method HandleMoveTest(testID: Id, projectID: Id) returns (code: int)
      requires Valid()
      modifies testStore
      ensures Valid()
      ensures forall now :: Reply(Abs(now), code) == StepMoveTest(old(Abs(now)), testID, projectID)
    {
      if projectID == "" {
        return 400;
      }
      var r := testStore.MoveTest(testID, projectID);
      code := if r.None? then 200 else if r.value == NotFound then 404 else 400;
    }

    method HandleStartRun(testID: Id, runID: Id, configMapError: Option<string>, jobError: Option<string>, now: Time)
      returns (code: int)
      requires Valid() && runID !in runStore.runs
      modifies runStore, cluster
      ensures Valid()
      ensures Reply(Abs(now), code) == StepStartRun(old(Abs(now)), cfg, testID, runID, configMapError, jobError, now)
    {
      var found := testStore.GetTest(testID);
      if found.Err? {
        return 404;
      }
      var test := found.value;
      ghost var before := Abs(now);
      ghost var sub := Submit(cfg, test, runID, configMapError, jobError, now);
      var run := runStore.CreateRun(Run("", test.versionID, test.id, Pending, ZERO_TIME, None, None, ""), runID, now);
      var submitted := SubmitRun(run, test, configMapError, jobError, now);
      assert before.runs[runID := run][runID := sub.run] == before.runs[runID := sub.run];
      assert Abs(now) == AfterSubmission(before, runID, sub, now);
      code := if submitted then 201 else 500;
    }

    /** handleStartRun from the generation of the plan on. */
    method SubmitRun(run: Run, test: Test, configMapError: Option<string>, jobError: Option<string>, now: Time)
      returns (submitted: bool)
      requires run.id in runStore.runs && runStore.runs[run.id] == run
      requires run == NewRun(Run("", test.versionID, test.id, Pending, ZERO_TIME, None, None, ""), run.id, now)
      modifies runStore`runs, cluster
      ensures var sub := Submit(cfg, test, run.id, configMapError, jobError, now);
        && submitted == sub.submitted
        && runStore.runs == old(runStore.runs)[run.id := sub.run]
        && cluster.configMaps == (if sub.plan.Some? then old(cluster.configMaps)[run.id := sub.plan.value] else old(cluster.configMaps))
        && cluster.jobs == (if sub.submitted then old(cluster.jobs)[run.id := Job(run.id, 0, 0, 0, now)] else old(cluster.jobs))
    {
      var err;
      submitted := false;
      match cfg.generate(PlanParams(test.targetURL, test.virtualUsers, test.durationSeconds))
      case NoPlan(reason) =>
        err := runStore.UpdateRunStatus(run.id, Failed, "failed to generate test plan: " + reason, now);
      case Plan(jmx) =>
        var cmErr := cluster.CreateConfigMap(run.id, jmx, configMapError);
        if cmErr.Some? {
          err := runStore.UpdateRunStatus(run.id, Failed, "failed to create configmap: " + cmErr.value, now);
          return;
        }
        var jobErr := cluster.CreateJob(run.id, jobError, now);
        if jobErr.Some? {
          err := runStore.UpdateRunStatus(run.id, Failed, "failed to create job: " + jobErr.value, now);
          return;
        }
        submitted := true;
    }

    method HandleCancelRun(runID: Id, deleteFails: bool, now: Time) returns (code: int)
      requires Valid()
      modifies runStore, cluster
      ensures Valid()
      ensures Reply(Abs(now), code) == StepCancelRun(old(Abs(now)), runID, deleteFails, now)
    {
      var found := runStore.GetRun(runID);
      if found.Err? {
        return 404;
      }
      var deleted := cluster.DeleteJob(runID, deleteFails);
      if !deleted {
        return 500;
      }
      var r := runStore.UpdateRunStatus(runID, Stopped, "", now);
      code := 204;
    }

    /** handlePostMetrics: one snapshot more for a known run, and for no other. */
    method HandlePostMetrics(snap: Snapshot, id: Id, now: Time) returns (code: int)
      modifies runStore`snapshots
      ensures runStore.snapshots == Append(runStore.runs, old(runStore.snapshots), snap.(id := id, ts := now)).0
      ensures code == if snap.runID in runStore.runs then 202 else 404
    {
      var err := runStore.AppendMetricSnapshot(snap, id, now);
      code := if err.Some? then 404 else 202;
    }

    /** handleGetRun: the run, all its snapshots, and the last of them again if there is one. */
    method HandleGetRun(runID: Id) returns (code: int, run: Option<Run>, latest: Option<Snapshot>, history: seq<Snapshot>)
      ensures code == 404 <==> runID !in runStore.runs
      ensures code == 404 ==> run.None? && latest.None? && history == []
      ensures code != 404 ==> code == 200 && run == Some(runStore.runs[runID]) && history == HistoryOf(runStore.snapshots, runID)
      ensures code != 404 ==> latest == if history == [] then None else Some(history[|history| - 1])
    {
      var found := runStore.GetRun(runID);
      if found.Err? {
        return 404, None, None, [];
      }
      history := runStore.ListSnapshots(runID);
      var last := runStore.LatestSnapshot(runID);
      latest := if last.Ok? then Some(last.value) else None;
      code, run := 200, Some(found.value);
    }
  }
}
