# BoltRunner backend: a verified model

BoltRunner's Go backend keeps a catalogue of load tests, runs them as Kubernetes Jobs and collects
their metrics. This project models its four stateful cores in Dafny and proves what they keep over
whole runs and under interleaving:

- **The versioned test catalogue**, in both implementations. `Catalog` is the catalogue as a value,
  `CatalogLists` what its lists return, `MemStore` the lock-protected in-memory stores with their
  loops, `Sql` the statements of the Postgres store, `Postgres` that store as a class, and `Editors`
  any number of database sessions interleaved between their statements.
- **The run lifecycle.** `Watcher` reconciles Jobs with runs, `System` is the whole backend as a state
  machine (project, test and run requests, polls, Job reports), and `Server` is the imperative handlers,
  each proved to be one step of that machine. `Outcomes` says from the outside what each step answers and
  stores, and follows a request's configuration to the plan of its run. `Races` takes starts, cancels and polls apart into the steps
  the source takes, and interleaves them; `Orphans` does the same for project deletes, creates and moves over
  the in-memory stores.
- **The sidecar.** `Sidecar` tails a growing file by byte offset, `Jtl` parses its lines and averages
  them, `Text` is the part of Go's `strings` and `strconv` they use.
- **The migration runner.** `MigrationFiles` orders and parses file names, `Migrations` is one run,
  `Migrators` any number of them, interleaved and interrupted.

`Model` holds the records and errors, `Ordering` a stand-in for `sort.Slice`, `Projects` the project
registry and its names, `Runs` a run's status and timestamps.

Code that updates state in the source is imperative here: classes whose methods are proved against
specification functions, which the lemmas are then about. Fresh ids, the clock, the failures of
Kubernetes calls, `uuid.Parse`, the database's reading of an id and `jmx.Generate` are parameters.

## What the model shows that the code does not say

- **Edits that race with a move** (`Editors.MoveIsUndone`): the edit writes the project it read, so a test
  moved in between goes back to its old project, and is listed under both, although both requests
  succeeded. A successful edit is the memory store's atomic one exactly when its test is in the project it
  was read in (`Sql.SuccessIsAtomicExactlyWhenNotMoved`); versions, configuration and dates are right in
  every interleaving (`Editors.EveryRunIsAMemoryStoreRun`).
- **The two project lists** agree for one project exactly when every family with a row filed under it has its
  latest and one of its first rows there, and the id is read alike (`Sql.ProjectListsAgreeExactly`); for all
  projects exactly when every family is filed under one (`Sql.AllProjectListsAgreeExactlyWhenUniform`), which
  that race breaks.
- **The two stores answer differently**, operation by operation, exactly when the condition of
  `Sql.GetsAgreeExactly`, `UpdatesAgreeExactly`, `VersionListsAgreeExactly`, `CreatesAgreeExactly`,
  `MovesAgreeExactly`, `RenamesAgreeExactly` or `DeletesAgreeExactly` fails. An upper-case UUID of a known
  test is found in Postgres and not in memory; a malformed one is an internal error in Postgres where the
  id is not parsed first, and not found in memory; a move of an unknown test to an unknown project misses
  the test in Postgres and the project in memory; a project with tests is deleted by the memory store alone.
- **README.md:43-46 of the repository promises that a run cannot get stuck when metrics POSTs fail**, since
  its status comes from its Job alone. With start, cancel and poll as single steps every pending or running
  run does have its Job (`System.ReachableStatesAreGood`). Taken apart, every such run has its Job, or a start
  or cancel under way that will give it one or end it, if only a poll's read of a run and its write are not
  separated (`Races.WholeIterationsNeverStick`): stale listings, split starts and cancels and any number of
  polls do no harm. The code separates them (watcher.go:35-48): a cancel in between is lost exactly when the
  poll had decided to write, and leaves the run running without a Job exactly when the run was read pending
  and its Job was active and had not ended (`Races.CancelBeforeTheWrite`). If no other session is about the
  run, it then stays that way unless it is cancelled again (`Races.LostCancelIsStuck`). `Races.ARunCanStick` is
  one such run of the system, from nothing.
- **What a cancel is worth is decided where it is made** (`Races.StoppedForGoodExactlyWhenSafe`): a stopped run
  stays stopped, whatever happens next, exactly when its Job is gone and no poll under way has listed that Job
  as ended or decided to write the run, and no start of it is under way. Between a poll's listing and its read
  a cancel is overwritten exactly when the listed Job had ended (`Races.CancelBeforeTheRead`); between a run's
  creation and its Job's it leaves the Job working (`Races.CancelDuringStart`), which an atomic start alone
  would prevent (`Races.WholeStartsLeaveNoJobBehind`).
- **Nothing but the handler's count keeps the memory store's rows filed.** A step orphans a row exactly when it
  deletes a project that rows have come to name since the count, or writes a row for a project deleted since
  it was looked up (`Orphans.OrphanedExactly`); if every write directly follows its look, none ever does
  (`Orphans.WholeRequestsOrphanNothing`). Postgres's foreign key needs no such condition
  (`Editors.EveryInterleavingIsSafe`).
- **A Job that reports both success and failure** makes its run change status at every poll; this is the
  only way a second poll of the same Jobs at the same time can change anything (`Watcher.PollTwice`).
- **Tailing is exact precisely for text whose lines all end in a bare newline**
  (`Sidecar.ResumableExactlyWhenClean`), and a line over the scanner's limit stops the tail for good
  (`Sidecar.OverlongLineStopsTheTail`).
- **Averages wrap around with int64**: the posted batches recombine to the aggregate of the whole exactly
  when the sums they were averaged from add up within an int64 (`Jtl.BatchesRecombine`). A total that fits
  is not enough if a single batch wraps (`Jtl.AFittingTotalMayNotRecombine`).
- **Migration files that share a version number**: the second one is silently skipped
  (`Migrations.AllAreAppliedExactlyWhenDistinct`). File order is version order exactly when the names up to
  the underscore sort by version (`MigrationFiles.SortedByVersionExactly`); prefixes of one width do
  (`MigrationFiles.PaddedNamesSortByVersion`), others may and may not
  (`MigrationFiles.UnpaddedNamesMayNotSortByVersion`).

## Model

| member | source | states |
|---|---|---|
| Editors.EveryInterleavingIsSafe | backend/internal/store/postgres/postgres.go:299-331 | in every interleaving of any number of edits, creates, moves and project deletes: versions stay 1..n without gap or duplicate, every row names a registered project, there is one default project, and no row ever changes but in its project |
| Editors.ConflictExactlyWhenOvertaken | backend/internal/store/postgres/postgres.go:307-324 | whatever the other sessions do between its read and its write, an edit is refused as a conflict if and only if another edit of the same test was committed, else fails if and only if the project it read is gone, else succeeds; a refused edit changes nothing |
| Editors.SecondWriterLoses | backend/internal/store/postgres/postgres.go:307-324 | in any good state, of two editors that read the same version the first writer gets the next one and the second is refused, changing nothing |
| Editors.VersionsCountCommits | backend/internal/store/postgres/postgres.go:314-331 | over any interleaved run a family grows by exactly the number of edits that were told they succeeded |
| Editors.EveryRunIsAMemoryStoreRun | backend/internal/store/postgres/postgres.go:299-357 | every interleaved run is a run of the memory store's atomic operations, one at each commit: the same rows up to their projects, and the very same rows if no successful edit was overtaken by a move |
| Editors.StepRefines | backend/internal/store/postgres/postgres.go:181-357 | one statement against the memory store's operation at the same instant |
| Editors.WriteRefines | backend/internal/store/memstore/memstore.go:98-119 | a successful insert returns memstore's row, but for the project it was read with |
| Editors.FreshRunsKeepFamiliesWhole | backend/internal/store/postgres/postgres.go:299-357 | if no successful edit was overtaken by a move, every family is filed under one project in every reachable state |
| Editors.StepKeepsUniform | backend/internal/store/postgres/postgres.go:299-357 | a statement keeps families filed whole exactly when it is not a write that a move has overtaken |
| Editors.MoveIsUndone | backend/internal/store/postgres/postgres.go:304-320 | in any good state, read, move, write: all succeed, the latest version is back in the old project and the test is listed in both |
| Editors.DropIsSafe | backend/internal/store/postgres/postgres.go:429-440 | the foreign key lets a project go only when no row, old or latest, names it; the default project stays |
| Editors.ProjectsStep | backend/internal/store/postgres/postgres.go:376-442 | two-statement deletes interleaved with anything leave no orphaned row, one default project and distinct names |
| Editors.NewDatabaseIsGood | backend/internal/store/postgres/migrations/0003_projects.sql:1-12 | a database with its default project and no tests satisfies the invariant |
| Sql.InsertOutcome | backend/internal/store/postgres/postgres.go:314-331 | the write conflicts exactly when the version it was numbered with is taken; an internal error means the project is gone; success adds exactly memstore's next version, filed as read; any error changes nothing |
| Sql.SuccessIsAtomicExactlyWhenNotMoved | backend/internal/store/postgres/postgres.go:299-331 | a successful edit equals the memory store's atomic UpdateTest if and only if the family is still in the project it was read in |
| Sql.UpdatesAgreeExactly | backend/internal/store/postgres/postgres.go:299-305 | undisturbed, both stores' UpdateTest agree if and only if the id is a known test's as stored, or the database reads it as an unknown one's |
| Sql.GetsAgreeExactly | backend/internal/store/postgres/postgres.go:270-279 | both stores' GetTest agree under the same condition |
| Sql.VersionListsAgreeExactly | backend/internal/store/postgres/postgres.go:281-297 | and so do their version lists |
| Sql.RenamesAgreeExactly | backend/internal/store/postgres/postgres.go:387-409 | both stores' RenameProject agree if and only if the id is known as stored, does not parse, or is read as an unknown one's |
| Sql.DeletesAgreeExactly | backend/internal/store/postgres/postgres.go:411-442 | both stores' DeleteProject agree if and only if a known project is the default or has no rows, and an unknown id is read alike |
| Editors.EditAloneIsUpdateTest | backend/internal/store/postgres/postgres.go:299-305 | with no other session in between, the machine's read and write are the undisturbed UpdateTest |
| Editors.DeleteAloneIsDeleteProject | backend/internal/store/postgres/postgres.go:411-442 | with no other session in between, the machine's check and drop are the undisturbed DeleteProject |
| Editors.ProjectStatementsOutcome | backend/internal/store/postgres/postgres.go:376-409 | a project is added exactly when its name is free, and renamed exactly when it is known and no other has the name; then only that name changes |
| Sql.MovesAgreeExactly | backend/internal/store/postgres/postgres.go:337-357 | both stores' MoveTest agree if and only if, for a known project, the test's id is read alike, and for an unknown one, its id does not parse or Postgres finds the test and no project either |
| Sql.CreatesAgreeExactly | backend/internal/store/postgres/postgres.go:181-211 | both stores' CreateTest agree if and only if no project is named, or its id is known as stored, does not parse, or is read as an unknown one's |
| Sql.SelectLatestIsCatalogue | backend/internal/store/postgres/postgres.go:213-236 | the window query returns each family once, as GetTest does |
| Sql.ProjectListsAgreeExactly | backend/internal/store/postgres/postgres.go:238-268 | for one requested id, both stores' project lists agree if and only if the id is read alike and every family with a row filed under it has its latest and one of its first rows filed there |
| Sql.AllProjectListsAgreeExactlyWhenUniform | backend/internal/store/postgres/postgres.go:245-254 | they agree for every registered project if and only if each family is filed under one project |
| Sql.EmptyListMeansNoRow | backend/internal/store/postgres/postgres.go:245-254 | the filtered query is empty if and only if no row, old or latest, names the project |
| Postgres.DB.GetTest | backend/internal/store/postgres/postgres.go:270-279 | the highest version, dated by the family's earliest row; not found, or an encode error for a malformed id |
| Postgres.DB.CreateTest | backend/internal/store/postgres/postgres.go:181-211 | takes the database one step of the interleaving machine and keeps its invariant: the row is filed under a registered project as version 1 of a new family, or nothing changes |
| Postgres.DB.UpdateTest | backend/internal/store/postgres/postgres.go:299-305 | the two statements are the machine's read and write with no other session in between, keep its invariant, and answer as Sql.UpdateTest, which agrees with memory by UpdatesAgreeExactly |
| Postgres.DB.UpdateTestAtVersion | backend/internal/store/postgres/postgres.go:314-331 | inserts the given version, or reports the unique violation first and the foreign key violation second, changing nothing |
| Postgres.DB.MoveTest | backend/internal/store/postgres/postgres.go:337-357 | one step of the machine, keeping its invariant, with the order of checks of the code |
| Postgres.DB.CreateProject | backend/internal/store/postgres/postgres.go:376-385 | one step of the machine; succeeds exactly when the name is free, and the default project stays the only one |
| Postgres.DB.RenameProject | backend/internal/store/postgres/postgres.go:387-409 | one step of the machine: names stay distinct, and no other project and no test is touched |
| Postgres.DB.DeleteProject | backend/internal/store/postgres/postgres.go:411-442 | the machine's check and drop with no other session in between: no row is left without its project, and the default stays |
| Catalog.ExtendKeepsConsistent | backend/internal/store/memstore/memstore.go:98-119 | adding a version keeps keys unique, versions gap-free, dates ordered and every row dated from its family's first |
| Catalog.ExtendKeepsCreation | backend/internal/store/memstore/memstore.go:153-164 | with a clock that does not run backwards, no added version changes any family's creation time |
| Catalog.ExtendMovesOneLatest | backend/internal/store/memstore/memstore.go:138-148 | the added row becomes its family's latest and no other family's latest changes |
| Catalog.ExtendKeepsUniform | backend/internal/store/memstore/memstore.go:112-117 | an added version keeps families filed whole if and only if it carries its family's project |
| Catalog.CreateExtends | backend/internal/store/memstore/memstore.go:32-51 | a created test is version 1 of a new family named after its first row |
| Catalog.EditExtends | backend/internal/store/memstore/memstore.go:98-119 | an edit is the next version of its family under a new key |
| Catalog.MoveChangesOnlyTheProject | backend/internal/store/memstore/memstore.go:166-185 | a move refiles every version of the family and only those, and changes no other field |
| Catalog.ProjectsDoNotMatterToConsistency | backend/internal/store/postgres/postgres.go:333-336 | no part of the catalogue's consistency depends on where tests are filed |
| Catalog.ChangeKeepsRows | backend/internal/store/memstore/memstore.go:32-51 | no operation changes a stored row but in its project, nor a family's creation time |
| Catalog.VersionsAreOneToN | backend/internal/store/memstore/memstore.go:121-148 | a family of n rows holds each of the versions 1..n exactly once, the latest being n |
| CatalogLists.ListShowsEachFamilyOnce | backend/internal/store/memstore/memstore.go:53-69 | the list holds each family exactly once, as GetTest returns it, by descending creation time |
| CatalogLists.VersionListIsExact | backend/internal/store/memstore/memstore.go:121-134 | the version list is exactly n, n-1, ..., 1 and starts with what GetTest returns; empty for an unknown id |
| CatalogLists.ProjectListAgreesExactly | backend/internal/store/postgres/postgres.go:245-254 | for one project, filtering before collapsing and collapsing before filtering agree if and only if every family with a row filed under it has its latest and one of its first rows filed there |
| CatalogLists.ProjectListsAgreeExactlyWhenUniform | backend/internal/store/memstore/memstore.go:71-85 | both orders of filtering and collapsing agree for all projects if and only if families are filed whole |
| CatalogLists.ProjectListsPartition | backend/internal/store/memstore/memstore.go:73-85 | the project lists partition the catalogue |
| CatalogLists.CatalogueAfterMove | backend/internal/store/memstore/memstore.go:166-185 | a move replaces exactly one entry of the catalogue, changing its project only |
| CatalogLists.MoveMovesOneTest | backend/internal/store/memstore/memstore.go:166-185 | a move between projects takes exactly one test from the one list, adds it to the other, and leaves every other list alone |
| CatalogLists.OrderIsStable | backend/internal/store/memstore/memstore.go:53-69 | two families whose distinct creation times have not changed keep their relative order |
| CatalogLists.SelectKeepsListing | backend/internal/store/memstore/memstore.go:73-85 | filtering a listing lists the project's tests in the same order |
| MemStore.TestStore.constructor | backend/internal/store/memstore/memstore.go:28-30 | an empty store over the given projects |
| MemStore.TestStore.CreateTest | backend/internal/store/memstore/memstore.go:32-51 | the new state and reply are the catalogue function's; an unknown project is refused, an absent one is the default |
| MemStore.TestStore.ListTests | backend/internal/store/memstore/memstore.go:53-69 | the two passes list the catalogue, newest first |
| MemStore.TestStore.LatestPerFamily | backend/internal/store/memstore/memstore.go:56-61 | the first pass finds the latest row of every family, in any map order |
| MemStore.TestStore.DatedLatest | backend/internal/store/memstore/memstore.go:62-66 | the second pass dates each of them from its family |
| MemStore.TestStore.ListTestsForProject | backend/internal/store/memstore/memstore.go:73-85 | lists the tests whose latest version is in the project, newest first |
| MemStore.TestStore.GetTest | backend/internal/store/memstore/memstore.go:87-96 | the latest version with the family's creation time, or not found |
| MemStore.TestStore.UpdateTest | backend/internal/store/memstore/memstore.go:98-119 | adds the next version under a new key and changes no stored row; not found for an unknown id |
| MemStore.TestStore.ListTestVersions | backend/internal/store/memstore/memstore.go:121-134 | lists all rows of the family, highest version first |
| MemStore.TestStore.LatestLocked | backend/internal/store/memstore/memstore.go:138-148 | finds the highest version of the family, or nothing if there is none |
| MemStore.TestStore.FamilyCreatedAt | backend/internal/store/memstore/memstore.go:153-164 | finds the earliest time a row of the family was cut |
| MemStore.TestStore.MoveTest | backend/internal/store/memstore/memstore.go:166-185 | refiles the family, or reports the unknown project before the unknown test |
| MemStore.TestStore.Refile | backend/internal/store/memstore/memstore.go:172-180 | the loop rewrites the family's rows and only those, and reports whether there were any |
| MemStore.ProjectStore.ListProjects | backend/internal/store/memstore/projectstore.go:36-45 | lists every project once, by name |
| MemStore.ProjectStore.CreateProject | backend/internal/store/memstore/projectstore.go:47-62 | conflict exactly when the name is taken, else the project is added |
| MemStore.ProjectStore.RenameProject | backend/internal/store/memstore/projectstore.go:64-81 | not found, conflict exactly when another project has the name, else only the name changes |
| MemStore.ProjectStore.Exists | backend/internal/store/memstore/projectstore.go:87-92 | whether the id is registered |
| MemStore.ProjectStore.DeleteProject | backend/internal/store/memstore/projectstore.go:94-106 | not found, protected, or gone |
| MemStore.RunStore.CreateRun | backend/internal/store/memstore/runstore.go:25-37 | stores the run under its id; an unversioned caller's test id becomes the catalogue id |
| MemStore.RunStore.GetRun | backend/internal/store/memstore/runstore.go:39-47 | the stored run, or not found |
| MemStore.RunStore.ListByTest | backend/internal/store/memstore/runstore.go:49-60 | lists exactly the runs of the catalogue id, newest first |
| MemStore.RunStore.UpdateRunStatus | backend/internal/store/memstore/runstore.go:62-82 | one run's status, message and timestamps change: the first start is kept, an end is stamped |
| Runs.NewRunOutcome | backend/internal/store/memstore/runstore.go:25-37 | a new run has its own id, is dated now, and names a catalogue id; all else is the caller's |
| Runs.StatusUpdateOutcome | backend/internal/store/memstore/runstore.go:62-82 | status and message are the given ones, the first start is kept, the last end is stamped, nothing else changes |
| Outcomes.RunListIsNewestFirst | backend/internal/store/memstore/runstore.go:49-60 | a test's run list holds each run of its catalogue id once, by creation time that never increases |
| MemStore.RunStore.AppendMetricSnapshot | backend/internal/store/memstore/runstore.go:84-94 | takes the snapshots where Runs.Append does, of which HistoryIsWhatWasPosted speaks |
| Runs.HistoryIsWhatWasPosted | backend/internal/store/memstore/runstore.go:84-113 | however the posts of all runs are mixed, a known run's history grows by exactly its own, in order, its latest snapshot is the last of them, and an unknown run's posts leave no trace |
| Server.Server.HandlePostMetrics | backend/internal/api/runs.go:67-86 | accepted exactly for a known run, whose history then has one snapshot more; no other run's history changes |
| Server.Server.HandleGetRun | backend/internal/api/runs.go:94-115 | not found exactly for an unknown run; else the run, everything posted for it, and the last of that |
| Projects.TrimSpaceSplits | backend/internal/api/projects.go:39-50 | trimming removes exactly the surrounding white space |
| Projects.ValidNamesAreAcceptable | backend/internal/api/projects.go:39-50 | an accepted name is trimmed, nonempty and at most 100 characters; such names are accepted unchanged; nothing else is refused than blanks and too long names |
| Projects.SeededIsWellKept | backend/internal/store/memstore/projectstore.go:30-34 | the seeded registry has its one default project |
| Projects.CreateKeepsRegistry | backend/internal/api/projects.go:52-75 | creating keeps one default project and distinct acceptable names |
| Projects.RenameKeepsRegistry | backend/internal/api/projects.go:77-101 | renaming keeps one default project and distinct acceptable names |
| Projects.DeleteKeepsRegistry | backend/internal/store/memstore/projectstore.go:94-106 | a delete succeeds exactly for a known project that is not the default |
| Projects.ProjectListIsStrict | backend/internal/store/memstore/projectstore.go:36-45 | the project list is strictly increasing by name and complete |
| Watcher.Watcher.PollOnce | backend/internal/watcher/watcher.go:28-53 | a poll applies the reconciliation of each listed Job in listing order, and nothing if the listing failed |
| Watcher.PollIsPointwise | backend/internal/watcher/watcher.go:33-51 | a poll is one reconciliation per listed run and touches no other run |
| Watcher.PollIgnoresListingOrder | backend/internal/watcher/watcher.go:29-35 | the order in which the Jobs are listed does not matter |
| Watcher.PollTwice | backend/internal/watcher/watcher.go:39-50 | a second poll changes nothing if and only if no Job of a stored run reports both success and failure |
| Watcher.EndIsFinal | backend/internal/watcher/watcher.go:39-43 | the first poll after a Job ends sets the final status, and no later poll writes the run |
| Watcher.PendingAfterPoll | backend/internal/watcher/watcher.go:44-50 | a run is pending after a poll if and only if it was, its Job shows no pod, and the timeout has not passed |
| Watcher.StoppedSurvivesOnlyAnUnendedJob | backend/internal/watcher/watcher.go:40-43 | a stopped run met by a stale Job stays stopped if and only if that Job had not ended |
| System.ReachableStatesAreGood | backend/internal/api/runs.go:18-136 | in every reachable state: every pending or running run has a Job of its id, every stopped run has none, timestamps fit statuses, every run names an existing version row of its family and its plan was generated for that row's URL, users and duration, every row names a registered project, versions are gap-free and families filed whole |
| System.RunsFollow | backend/internal/api/runs.go:29-35 | over any run of the system no version row changes but in its project, creation times stay, and every run keeps the row and the plan it started with |
| System.StepFollows | backend/internal/api/runs.go:18-136 | one request, poll or Job report keeps the invariant and the history |
| System.SubmissionsAreGood | backend/internal/api/runs.go:29-52 | however starting goes, the run is pinned to the version just read, its plan is the one for that version's URL, users and duration, and it is failed unless a Job was created |
| System.RowsPersistKeepsPins | backend/internal/api/runs.go:29-35 | edits and moves leave every run pinned to the configuration it executed |
| System.NoLatestMeansNoRow | backend/internal/api/projects.go:133-141 | when no latest version is in the project, no version at all is |
| System.DeleteLeavesNoOrphan | backend/internal/api/projects.go:107-161 | a project delete succeeds exactly for a known project other than the default without tests; then no row, old or latest, names it; a refusal changes nothing |
| Orphans.OrphanedExactly | backend/internal/api/projects.go:133-143 | with the handler's count and delete, and a create's or move's lookup and write, interleaved at will, a step leaves a row without its project if and only if it deletes a project rows have come to name, or writes one deleted since it was looked up |
| Orphans.WholeRequestsOrphanNothing | backend/internal/api/projects.go:107-161 | if every write directly follows its look, every row always names a registered project, although only latest versions are counted |
| Orphans.CreateBeforeTheDrop | backend/internal/api/projects.go:133-143 | in any state in which the count lets the delete go on, a test created before it does is left without its project |
| Orphans.DropBeforeTheInsert | backend/internal/store/memstore/memstore.go:37-49 | so is one whose project is deleted between the lookup and the write |
| Orphans.UndisturbedCreate | backend/internal/store/memstore/memstore.go:32-51 | with nothing in between, the lookup and the write are the atomic create |
| Orphans.UndisturbedMove | backend/internal/store/memstore/memstore.go:166-185 | and those of a move the atomic move |
| Orphans.UndisturbedDelete | backend/internal/api/projects.go:107-161 | and the count and the delete the handler's one step |
| System.ListingMatchesStep | backend/internal/watcher/watcher.go:28-53 | polling any listing of the system's Jobs is the system's poll step |
| Races.StuckExactlyWhenStranded | backend/internal/watcher/watcher.go:35-48 | in any interleaving of the steps of starts, cancels and polls, a step leaves a run stuck if and only if it is a poll marking running a run whose Job is gone and that no start or cancel attends to |
| Races.WholeIterationsNeverStick | backend/internal/watcher/watcher.go:33-51 | if every iteration's read and write are adjacent, no run is ever stuck, whatever is stale or split otherwise |
| Races.NoRunSticksIfIterationsAreWhole | backend/internal/watcher/watcher.go:33-51 | the same from an empty system |
| Races.CancelBeforeTheRead | backend/internal/watcher/watcher.go:29-41 | a cancel between a poll's listing and its read survives if and only if the listed Job had not ended |
| Races.CancelBeforeTheWrite | backend/internal/watcher/watcher.go:35-48 | a cancel between a poll's read and its write survives if and only if the poll had decided to write nothing; the run is left running without a Job if and only if it was read pending and its Job was active and had not ended |
| Races.LostCancelIsStuck | backend/internal/watcher/watcher.go:35-48 | in that last case, if no other session is about the run, it stays running without a Job over every continuation without another cancel |
| Races.ARunCanStick | backend/internal/watcher/watcher.go:35-48 | one list of eight events that leads from an empty system to a run running without a Job |
| Races.ForgottenForGood | backend/internal/watcher/watcher.go:29-38 | a run without a Job that no session under way is about keeps its record until it is cancelled |
| Races.StoppedForGoodExactlyWhenSafe | backend/internal/watcher/watcher.go:29-50 | a stopped run stays stopped over every possible continuation if and only if it has no Job now, and no poll under way has listed its Job as ended or decided to write it, and no start of it is under way |
| Races.SafeForGood | backend/internal/watcher/watcher.go:39-50 | in such a state no continuation, further cancels included, un-stops the run |
| Races.ThreatMeansOverwritten | backend/internal/watcher/watcher.go:33-50 | any such session can go on to overwrite the run |
| Races.JobMeansOverwritten | backend/internal/api/runs.go:124-131 | so can a later poll, if the run still has a Job |
| Races.CancelLastsExactly | backend/internal/watcher/watcher.go:39-50 | along one continuation without another cancel, the run ends stopped if and only if no event of it was such an overwrite: a poll's verdict or a failed start |
| Races.CancelDuringStart | backend/internal/api/runs.go:30-52 | a cancel between the run's creation and its Job's leaves a stopped run with a working Job, which a later poll overwrites if and only if that Job has ended |
| Races.WorkingExactlyWhenOverlapping | backend/internal/api/runs.go:48-52 | a step leaves a Job working for a stopped run if and only if it creates that Job, or is the mark of a cancel that the Job's creation overtook |
| Races.WholeStartsLeaveNoJobBehind | backend/internal/api/runs.go:29-52 | if every Job is created directly after its run, no Job works for a stopped run |
| Races.CancelSteps | backend/internal/api/runs.go:117-136 | an undisturbed cancel removes the Job and marks the run |
| Races.StartSteps | backend/internal/api/runs.go:29-52 | an undisturbed start leaves the run pending with its Job, or failed without one |
| Outcomes.CancelIsTheSplitCancel | backend/internal/api/runs.go:117-136 | the machine's cancel is the undisturbed one of Races |
| Outcomes.StartIsTheSplitStart | backend/internal/api/runs.go:18-57 | the machine's start is the undisturbed one of Races: run created, then its Job, or else marked failed with the reason given |
| Races.UndisturbedPollIsAtomic | backend/internal/watcher/watcher.go:28-53 | an undisturbed poll, read and write Job by Job, is the atomic poll of its listing |
| Watcher.KeepsExactly | backend/internal/watcher/watcher.go:39-50 | an iteration writes nothing if and only if the run has every outcome the Job reports and, if pending, the Job shows no pod and may still get one |
| Watcher.WritesChangeTheStatus | backend/internal/watcher/watcher.go:39-50 | an iteration writes if and only if it changes the status |
| Watcher.VerdictsExactly | backend/internal/watcher/watcher.go:39-50 | when exactly each of the four updates is decided on: success before failure, and either before a first pod or a lost patience |
| System.ListOrderNeverChanges | backend/internal/store/memstore/memstore.go:53-69 | over any run of the system, families with distinct creation times keep their order in the list |
| System.RunsOfTestAreTheFamilys | backend/internal/store/memstore/runstore.go:49-60 | the runs listed for a catalogue id are exactly those whose pinned version row belongs to that family |
| System.NoRunPendsPastTheTimeout | backend/internal/watcher/watcher.go:44-50 | after a poll a run that is still pending has a Job without pods that is younger than the timeout |
| System.EndedRunsAreSettled | backend/internal/watcher/watcher.go:39-43 | after a poll every run whose Job has ended one way has that outcome |
| System.AtMostTwoWrites | backend/internal/watcher/watcher.go:33-51 | without a cancel, with Job counters that grow and never show both outcomes, the watcher updates a run at most twice in any run of the system, each time to a new status |
| System.SettledForGood | backend/internal/watcher/watcher.go:33-51 | once settled, a run's whole record stays as it is |
| Outcomes.WhatWasAskedForIsRun | backend/internal/api/runs.go:29-35 | from the form to the cluster: a test whose latest version is as requested, then anything but an edit of it, then started on a cluster that takes it: the start succeeds exactly when there is a plan for the request's URL, users and duration, and then the run has that plan and its Job |
| Outcomes.CreateConfigures | backend/internal/api/tests.go:43-50 | a create that succeeds makes the latest version as requested |
| Outcomes.EditConfigures | backend/internal/api/tests.go:97-104 | and so does an edit that succeeds |
| Outcomes.ConfigurationLasts | backend/internal/store/memstore/memstore.go:138-148 | over any run of the system without an edit of it, a test's latest version stays as configured |
| Outcomes.CancelRunOutcome | backend/internal/api/runs.go:117-136 | 404 for an unknown run; if the Job cannot be deleted, 500 and nothing changes; else 204, the run is stopped now and has no Job, and no other run, Job, plan or row changes |
| Outcomes.StartRunOutcome | backend/internal/api/runs.go:18-57 | 404 for an unknown test; else one new run pinned to the latest version: 201, pending, with a Job and the plan for that version's URL, users and duration, or 500, failed with the reason and without a Job |
| Outcomes.CreateTestOutcome | backend/internal/api/tests.go:33-62 | 400 for a bad request or an unknown project, changing nothing; else 201 and version 1 of a new test with the request's name, URL, users and duration, in the project named or the default |
| Outcomes.UpdateTestOutcome | backend/internal/api/tests.go:87-120 | 400 or 404, changing nothing; else 200 and the family's latest is its next version, with the request's name, URL, users and duration and the family's project and date |
| Outcomes.MoveTestOutcome | backend/internal/api/tests.go:147-177 | 400 or 404, changing nothing; else 200 and the family's rows, and only they, are in the project |
| Outcomes.CreateProjectOutcome | backend/internal/api/projects.go:52-75 | 400 for a blank or overlong name, 409 for a taken one, changing nothing; else 201 and the project is stored under the trimmed name, not as the default |
| Outcomes.RenameProjectOutcome | backend/internal/api/projects.go:77-101 | 400, 404 or 409, each in exactly its case and changing nothing; else 200 and only that project's name changes |
| Outcomes.PollOutcome | backend/internal/watcher/watcher.go:28-53 | a poll writes nothing but the status, message and timestamps of runs with a Job, and those only with a new status |
| Outcomes.RunsAreTheirEvents | backend/internal/api/runs.go:18-136 | a run of the machine is its events one by one, each the request, poll or report it says |
| Outcomes.AnythingCanHappen | backend/internal/api/runs.go:18-136 | any request, poll or report can come next, if only new ids are new and the clock does not run backwards |
| Server.Server.HandleCreateProject | backend/internal/api/projects.go:52-75 | new state and status code are the machine's step, of which Outcomes.CreateProjectOutcome speaks |
| Server.Server.HandleRenameProject | backend/internal/api/projects.go:77-101 | new state and status code are the machine's step, of which Outcomes.RenameProjectOutcome speaks |
| Server.Server.HandleDeleteProject | backend/internal/api/projects.go:107-161 | find, count, delete: together one step of the machine |
| Server.Server.FindProject | backend/internal/api/projects.go:117-123 | the search finds the project with the id, if there is one |
| Server.Server.HandleCreateTest | backend/internal/api/tests.go:33-62 | new state and status code are the machine's step, of which Outcomes.CreateTestOutcome speaks |
| Server.Server.HandleUpdateTest | backend/internal/api/tests.go:87-120 | new state and status code are the machine's step, of which Outcomes.UpdateTestOutcome speaks |
| Server.Server.HandleMoveTest | backend/internal/api/tests.go:147-177 | new state and status code are the machine's step, of which Outcomes.MoveTestOutcome speaks |
| Server.Server.HandleStartRun | backend/internal/api/runs.go:18-57 | new state and status code are the machine's step, of which Outcomes.StartRunOutcome speaks |
| Server.Server.SubmitRun | backend/internal/api/runs.go:35-52 | each failure marks the run failed with its reason; otherwise there are a Job and the plan generated for the version's URL, users and duration |
| Server.Server.HandleCancelRun | backend/internal/api/runs.go:117-136 | new state and status code are the machine's step, of which Outcomes.CancelRunOutcome speaks |
| Server.Cluster.CreateJob | backend/internal/k8sjob/builder.go:36-39 | a created Job carries the run's id and no finished pods |
| Server.Cluster.DeleteJob | backend/internal/api/runs.go:124-129 | deleting a Job that is not there is no error |
| Sidecar.ReadNewLines | backend/cmd/sidecar/main.go:16-29 | returns the lines from the offset up to the first overlong one, and an offset advanced by their lengths plus one each |
| Sidecar.OffsetAccounting | backend/cmd/sidecar/main.go:16-29 | every read returns the lines before the first overlong one and advances by their bytes, plus one for a newline not yet there, minus the carriage returns dropped; it fails exactly when it has left an overlong line |
| Sidecar.ReadFailsExactlyOnOverlongLines | backend/cmd/sidecar/main.go:21-28 | a read reports an error if and only if some line exceeds the scanner's limit |
| Sidecar.OverlongLineStopsTheTail | backend/cmd/sidecar/main.go:69-84 | once the offset is at an overlong line, no later read returns a line or moves the offset |
| Sidecar.ResumableExactlyWhenClean | backend/cmd/sidecar/main.go:16-29 | resuming after a read gives the whole file's lines, whatever is appended, if and only if the text read ends at a line end and has no carriage return before a newline |
| Sidecar.PollsReadExactlyOnce | backend/cmd/sidecar/main.go:69-84 | over any number of polls of a cleanly growing file, the returned lines are the file's, each once and in order, and joined again they are the file |
| Sidecar.Run | backend/cmd/sidecar/main.go:69-96 | the main loop posts one aggregate for each poll, of which PostIsOfItsLines speaks |
| Sidecar.Poll | backend/cmd/sidecar/main.go:72-87 | one turn of the loop: read, parse to the samples of SamplesAreExact, aggregate |
| Sidecar.PostsCarryEverySample | backend/cmd/sidecar/main.go:78-87 | the posted batches hold every sample of SamplesAreExact once and in order, numbered 1, 2, ... |
| Sidecar.SamplesAreExact | backend/cmd/sidecar/main.go:78-84 | the loop's samples are exactly one for each line that parses, in line order |
| Sidecar.PrintedSamplesAreReadBack | backend/cmd/sidecar/main.go:78-84 | samples printed as lines, successes and failures, among any lines that do not parse, are all read back and in order |
| Sidecar.PostIsOfItsLines | backend/cmd/sidecar/main.go:78-87 | each post is the aggregate, over one second, of the samples of the lines its poll has read, numbered by poll |
| Sidecar.PostedMetricsDescribeTheFile | backend/cmd/sidecar/main.go:69-90 | the posts of a whole run recombine to the aggregate of the samples of the final file, one for each of its lines that parses, if and only if the sums they were averaged from add up within an int64 |
| Jtl.PrintedLineParsesBack | backend/internal/jtl/parse.go:17-32 | any printed sample line parses back to its sample, with any line ending; integers outside 64 bits are skipped |
| Jtl.Aggregate | backend/internal/jtl/parse.go:42-64 | the loop computes count, mean of the wrapped sum, failure percentage and throughput |
| Jtl.AverageIsSound | backend/internal/jtl/parse.go:46-59 | the mean lies between the smallest and largest elapsed time when the sum fits an int64 |
| Jtl.ErrorRateIsAPercentage | backend/internal/jtl/parse.go:58-58 | the error rate stays in 0..100 |
| Jtl.FailedAreTheUnsuccessful | backend/internal/jtl/parse.go:46-53 | a sample adds its elapsed time to the sum, and one to the failures exactly when it is no success, wherever it stands |
| Jtl.ThroughputIsPerSecond | backend/internal/jtl/parse.go:54-62 | throughput times a positive window is the number of samples; a window that is not positive has none |
| Jtl.RecombinedTotals | backend/internal/jtl/parse.go:42-64 | for any batches, count-weighted sums are those of the whole stream, but for each batch's wrapping |
| Jtl.BatchesRecombine | backend/internal/jtl/parse.go:42-64 | for any batches, recombining their aggregates gives the aggregate of the whole if and only if the batches' wrapped sums add up within an int64 |
| Jtl.FittingBatchesSum | backend/internal/jtl/parse.go:48-49 | when no single batch wraps, that is when the elapsed time of the whole stream fits |
| Jtl.AFittingTotalMayNotRecombine | backend/internal/jtl/parse.go:48-49 | a stream whose total fits and whose batches do not recombine |
| Text.SplitJoin | backend/internal/jtl/parse.go:18-18 | splitting a joined line gives the fields back |
| Text.ParseFormatInt | backend/internal/jtl/parse.go:22-29 | parsing a printed integer gives it back exactly when it fits 64 bits |
| Text.ParsesExactlyIntegers | backend/internal/jtl/parse.go:22-29 | an integer is exactly an optional sign and digits of a value within 64 bits |
| Text.LessIsLexicographic | backend/internal/store/memstore/projectstore.go:43-43 | names are ordered by the first character in which they differ, a prefix coming first |
| Migrators.EveryRunAppliesAPrefixInOrder | backend/internal/store/postgres/postgres.go:54-83 | with any number of migrators, interleaved and interrupted anywhere: the committed state is a prefix of the migrations applied once each in order, the record is exactly that prefix, the commits are the next migrations one by one, and success means all of them |
| Migrators.CommitIsInOrder | backend/internal/store/postgres/postgres.go:126-139 | a commit is the next migration applied to the schema it replaces: nobody else committed since its body ran |
| Migrators.OtherStepsKeepThePrefix | backend/internal/store/postgres/postgres.go:54-139 | no other statement, failure or crash changes what is committed |
| Migrators.ClaimFailsExactlyWhenBeaten | backend/internal/store/postgres/postgres.go:135-137 | recording a version fails if and only if another migrator committed it in the meantime |
| Migrators.UndisturbedRunIsMigrate | backend/internal/store/postgres/postgres.go:54-83 | a migrator that nobody is in the way of, run on until it ends, has done what one run of Migrate does, and succeeds exactly when every migration can be applied: then the schema is theirs and every version is recorded; otherwise it stops at the first one whose body fails |
| Migrators.UndisturbedRunEnds | backend/internal/store/postgres/postgres.go:54-83 | and it can always go on until it ends |
| Migrators.CrashForgets | backend/internal/store/postgres/postgres.go:124-139 | a migrator cut off anywhere leaves what is committed, gives up what is not, and may be started again |
| Migrators.TrackedDatabaseIsGood | backend/internal/store/postgres/postgres.go:25-33 | a new or correctly tracked database satisfies the invariant |
| Migrations.Database.ApplyMigration | backend/internal/store/postgres/postgres.go:124-139 | body and record appear together or not at all |
| Migrations.Database.Migrate | backend/internal/store/postgres/postgres.go:54-83 | from any state, with failures anywhere: exactly the unrecorded files of the part dealt with are applied in order and recorded, success means all files, and a stop has one of the code's reasons |
| Migrations.MigrateExtendsThePrefix | backend/internal/store/postgres/postgres.go:54-83 | a run resumed after one prefix and stopped after another leaves the longer of the two |
| Migrations.UnrecordedIsTheRest | backend/internal/store/postgres/postgres.go:67-73 | after a recorded prefix, what is left to apply is exactly the rest |
| Migrations.AllAreAppliedExactlyWhenDistinct | backend/internal/store/postgres/postgres.go:62-82 | a complete run applies every file if and only if no version number is used twice |
| Migrations.LegacyDatabasesCatchUp | backend/internal/store/postgres/postgres.go:25-28 | a database whose first migrations were applied but not recorded ends like a fresh one if each of them does nothing to it |
| MigrationFiles.MigrationFilenames | backend/internal/store/postgres/postgres.go:85-100 | the .sql files and no directories, each once, in name order |
| MigrationFiles.VersionOfName | backend/internal/store/postgres/postgres.go:102-114 | digits before the first underscore are the version, whatever follows, up to 64 bits |
| MigrationFiles.VersionsExactly | backend/internal/store/postgres/postgres.go:102-114 | a name has a version exactly when a 64-bit integer stands before its first underscore |
| MigrationFiles.SqlNamesExactly | backend/internal/store/postgres/postgres.go:87-100 | the migrations are exactly the entries that are no directory and end in .sql |
| MigrationFiles.PaddedOrder | backend/internal/store/postgres/postgres.go:85-100 | with equally wide prefixes a smaller version is an earlier name |
| MigrationFiles.SortedByVersionExactly | backend/internal/store/postgres/postgres.go:85-100 | a sorted list of names is in version order if and only if the names up to the underscore sort by version |
| MigrationFiles.StemsDecide | backend/internal/store/postgres/postgres.go:85-100 | names that differ before the underscore compare as if nothing followed it |
| MigrationFiles.PaddedNamesSortByVersion | backend/internal/store/postgres/postgres.go:85-100 | a sorted list of names with equally wide prefixes is in version order |
| MigrationFiles.UnpaddedNamesMayNotSortByVersion | backend/internal/store/postgres/postgres.go:85-86 | without padding version 10 comes before version 9, and yet 1 before 20 |

## Left out

- The frontend, HTTP and JSON decoding, status texts, CORS, the router and the list handlers: they only pass on what the stores return.
- Kubernetes beyond a Job's run id, creation time and pod counters, and the ConfigMap's plan; the counters are unbounded naturals.
- `jmx.Generate` is an unknown function of target URL, users and duration; it may fail.
- UUID generation, clocks and mutexes: ids are fresh, the clock is nonzero and does not run backwards, and a locked method is one step.
- `uuid.Parse` and the database's reading of an id are unknown functions; all that is assumed is that both read a stored id as itself, and that the empty id does not parse.
- Postgres isolation within a statement, and `now()` being its transaction's start: each statement is one step at one time, and a row that waits on another transaction is not modelled outside the migrations.
- The SQL text, pgx and connection failures of the Postgres store; a failed statement of an unclassified kind is `Internal`.
- The Postgres run store and snapshots: they repeat the memory store's methods without the interleavings that make the test catalogue hard.
- The 32-bit width of the columns holding versions and counts: versions are unbounded in tables, and 64-bit where a file name is parsed.
- Bodies of the migrations, and a legacy database's harmlessness, which is an assumption of `LegacyDatabasesCatchUp`.
- Failures between the store writes of one request, such as a status update that fails after the Job was deleted, and sessions that die half-way.
- In System each request and poll is one step; Races interleaves the steps of starts, cancels and polls, and Editors those of Postgres's edits and deletes, Orphans those of deletes, creates and moves over the in-memory stores, where the existence check and the count of a delete are one look.
- The watcher's endless ticker: a run of the system polls whenever it does.
- The sidecar's wait for its file, failed POSTs and seek errors; offsets are unbounded, bytes are characters. The done marker is seen after a last read, so nothing is claimed about lines written after it.
- IEEE rounding: float64 is modelled as real.
- The order of ties in sorted lists: `SortSlice` promises none, as `sort.Slice` does.
- ApplyMigration: a commit whose acknowledgement is lost is covered by a crash after the commit in Migrators, not by this method.
