/** The records the stores hold and the errors they report
    (backend/internal/model/model.go, backend/internal/store/store.go). */
module Model {

  type Id = string

  /** A point in time. ZERO_TIME is the value for which the source's IsZero holds. */
  type Time = int

  const ZERO_TIME: Time := 0

  datatype Option<+T> = None | Some(value: T)

  datatype Error =
    | NotFound
    | Conflict
    | InvalidReference
    | Protected
    | NotEmpty
    | Internal // any error the stores pass on without classifying it

  datatype Result<+T> = Ok(value: T) | Err(error: Error)

  datatype Test = Test(
    id: Id,             // catalog id, stable across versions
    versionID: Id,      // primary key of this version row
    version: int,
    projectID: Id,
    name: string,
    targetURL: string,
    virtualUsers: int,
    durationSeconds: int,
    createdAt: Time,    // when the test was first created
    updatedAt: Time)    // when this version was cut

  datatype Project = Project(id: Id, name: string, createdAt: Time, isDefault: bool)

  datatype RunStatus = Pending | Running | Completed | Failed | Stopped

  datatype Run = Run(
    id: Id,
    testID: Id,         // the version row the run executed
    testCatalogID: Id,
    status: RunStatus,
    createdAt: Time,
    startedAt: Option<Time>,
    completedAt: Option<Time>,
    errorMessage: string)

  /** The part of a Job the watcher and the handlers look at. */
  datatype Job = Job(runID: Id, active: nat, succeeded: nat, failed: nat, created: Time)

  /** Everything jmx.Generate reads from a version row. */
  datatype PlanParams = PlanParams(targetURL: string, virtualUsers: int, durationSeconds: int)
}
