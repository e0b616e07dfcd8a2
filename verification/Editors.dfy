/** Any number of sessions on one Postgres database, interleaved between their statements
    (backend/internal/store/postgres/postgres.go). An edit reads and then writes; a project delete
    checks and then drops; every other operation is a single statement. */
module Editors {
  import opened Model
  import opened Catalog
  import opened CatalogLists
  import P = Projects
  import Sql

  datatype Config = Config(ids: Sql.Ids, defaultID: Id)

  /** What a session remembers between its two statements. */
  datatype Session = Editing(edit: Sql.Edit) | Deleting(projectID: Id)

  datatype Database = Database(projects: P.Registry, tests: Rows, clock: Time, sessions: map<Id, Session>)

  datatype Statement =
    | Read(s: Id, t: Test)
    | Write(s: Id, versionID: Id)
    | Check(s: Id, p: Id)
    | Drop(s: Id)
    | Create(t: Test, id: Id)
    | Move(c: Id, p: Id)
    | AddProject(name: string, id: Id)
    | Rename(p: Id, name: string)

  datatype Event = Event(stmt: Statement, now: Time)

  /** Fresh ids, a clock that does not run backwards, and sessions that finish what they started. */
  ghost predicate Legal(db: Database, cfg: Config, e: Event) {
    && db.clock <= e.now && ZERO_TIME < e.now
    && match e.stmt
       case Read(s, _) => s !in db.sessions
       case Write(s, v) => s in db.sessions && db.sessions[s].Editing? && v !in db.tests && v != ""
       case Check(s, _) => s !in db.sessions
       case Drop(s) => s in db.sessions && db.sessions[s].Deleting?
       case Create(_, id) => id !in db.tests && id != "" && Sql.Stored(cfg.ids, id)
       case Move(_, _) => true
       case AddProject(_, id) => id !in db.projects && id != "" && Sql.Stored(cfg.ids, id)
       case Rename(_, _) => true
  }

  // ---------- one statement ----------

  /** The answer to the second statement of an edit. */
  ghost function WriteReply(db: Database, s: Id, versionID: Id, now: Time): (Rows, Result<Test>)
    requires s in db.sessions && db.sessions[s].Editing?
  {
    Sql.InsertVersion(db.tests, db.projects.Keys, db.sessions[s].edit, versionID, now)
  }

  ghost function CreateReply(db: Database, cfg: Config, t: Test, id: Id, now: Time): (Rows, Result<Test>) {
    Sql.CreateTest(cfg.ids, db.tests, db.projects.Keys, cfg.defaultID, t, id, now)
  }

  ghost function TestsAfter(db: Database, cfg: Config, e: Event): Rows
    requires Legal(db, cfg, e)
  {
    match e.stmt
    case Write(s, v) => WriteReply(db, s, v, e.now).0
    case Create(t, id) => CreateReply(db, cfg, t, id, e.now).0
    case Move(c, p) => Sql.MoveTest(cfg.ids, db.tests, db.projects.Keys, c, p).0
    case _ => db.tests
  }

  ghost function ProjectsAfter(db: Database, cfg: Config, e: Event): P.Registry
    requires Legal(db, cfg, e)
  {
    match e.stmt
    case Drop(s) => Sql.DropProject(db.tests, db.projects, db.sessions[s].projectID).0
    case AddProject(name, id) => P.CreateProject(db.projects, Project("", name, ZERO_TIME, false), id, e.now).0
    case Rename(p, name) => Sql.RenameProject(cfg.ids, db.projects, p, name).0
    case _ => db.projects
  }

  /** The database reads a known test out of the id. */
  predicate Finds(m: Rows, cfg: Config, id: Id) {
    cfg.ids.canon(id).Some? && HasFamily(m, cfg.ids.canon(id).value)
  }

  ghost function SessionsAfter(db: Database, cfg: Config, e: Event): map<Id, Session>
    requires Legal(db, cfg, e)
  {
    match e.stmt
    case Read(s, t) =>
      if Finds(db.tests, cfg, t.id) then db.sessions[s := Editing(Sql.ReadLatest(db.tests, t, cfg.ids.canon(t.id).value))]
      else db.sessions
    case Check(s, p) =>
      var checked := Sql.CheckProject(cfg.ids, db.projects, p);
      if checked.Ok? then db.sessions[s := Deleting(checked.value)] else db.sessions
    case Write(s, _) => db.sessions - {s}
    case Drop(s) => db.sessions - {s}
    case _ => db.sessions
  }

  ghost function Step(db: Database, cfg: Config, e: Event): Database
    requires Legal(db, cfg, e)
  {
    Database(ProjectsAfter(db, cfg, e), TestsAfter(db, cfg, e), e.now, SessionsAfter(db, cfg, e))
  }

  ghost predicate LegalRun(db: Database, cfg: Config, es: seq<Event>)
    decreases |es|
  {
    |es| == 0 || (Legal(db, cfg, es[0]) && LegalRun(Step(db, cfg, es[0]), cfg, es[1..]))
  }

  ghost function Exec(db: Database, cfg: Config, es: seq<Event>): Database
    requires LegalRun(db, cfg, es)
    decreases |es|
  {
    if |es| == 0 then db else Exec(Step(db, cfg, es[0]), cfg, es[1..])
  }

  lemma {:induction false} RunsAreTheirEvents(db: Database, cfg: Config, e: Event, es: seq<Event>)
    ensures LegalRun(db, cfg, []) && Exec(db, cfg, []) == db
    ensures LegalRun(db, cfg, [e] + es) <==> Legal(db, cfg, e) && LegalRun(Step(db, cfg, e), cfg, es)
    ensures LegalRun(db, cfg, [e] + es) ==> Exec(db, cfg, [e] + es) == Exec(Step(db, cfg, e), cfg, es)
  {
    assert ([e] + es)[0] == e && ([e] + es)[1..] == es;
  }

  /** What can keep a statement from happening: its session is busy or not there yet, or an id is not new. */
  lemma {:induction false} AnythingCanHappen(db: Database, cfg: Config, stmt: Statement, now: Time)
    requires db.clock <= now && ZERO_TIME < now
    ensures !Legal(db, cfg, Event(stmt, now)) ==> match stmt
      case Read(s, _) => s in db.sessions
      case Check(s, _) => s in db.sessions
      case Write(s, v) => s !in db.sessions || !db.sessions[s].Editing? || v in db.tests || v == ""
      case Drop(s) => s !in db.sessions || !db.sessions[s].Deleting?
      case Create(_, id) => id in db.tests || id == "" || !Sql.Stored(cfg.ids, id)
      case AddProject(_, id) => id in db.projects || id == "" || !Sql.Stored(cfg.ids, id)
      case _ => false
  {
  }

  /** A project is added under a free name, and only its name is changed, to one no other has. */
  lemma {:induction false} ProjectStatementsOutcome(db: Database, cfg: Config, p: Id, name: string, now: Time)
    requires db.clock <= now && ZERO_TIME < now && p != "" && Sql.Stored(cfg.ids, p)
    requires forall k | k in db.projects :: db.projects[k].id == k
    ensures p !in db.projects ==>
      var ps := Step(db, cfg, Event(AddProject(name, p), now)).projects;
      ps == if exists k :: k in db.projects && db.projects[k].name == name then db.projects
            else db.projects[p := Project(p, name, now, false)]
    ensures var ps := Step(db, cfg, Event(Rename(p, name), now)).projects;
      ps == if p !in db.projects || exists k :: k in db.projects && k != p && db.projects[k].name == name then db.projects
            else db.projects[p := Project(p, name, db.projects[p].createdAt, db.projects[p].isDefault)]
  {
  }

  // ---------- what every interleaving keeps ----------

  /** One default project, and no two projects of one name. */
  ghost predicate Registered(ps: P.Registry, defaultID: Id) {
    && defaultID in ps && "" !in ps
    && (forall k | k in ps :: ps[k].id == k && (ps[k].isDefault <==> k == defaultID))
    && (forall j, k | j in ps && k in ps && ps[j].name == ps[k].name :: j == k)
  }

  ghost predicate SessionOk(m: Rows, defaultID: Id, session: Session) {
    match session
    case Editing(e) => Sql.ReadEarlier(m, e)
    case Deleting(p) => p != defaultID
  }

  ghost predicate SessionsOk(m: Rows, defaultID: Id, sessions: map<Id, Session>) {
    forall s | s in sessions :: SessionOk(m, defaultID, sessions[s])
  }

  /** No mention of families filed whole: interleaved edits and moves do not keep that. */
  ghost predicate Good(db: Database, cfg: Config) {
    && Consistent(db.tests, db.clock)
    && Filed(db.tests, db.projects.Keys)
    && Sql.StoredIds(cfg.ids, db.tests, db.projects.Keys)
    && Registered(db.projects, cfg.defaultID)
    && SessionsOk(db.tests, cfg.defaultID, db.sessions)
  }

  lemma {:induction false} NewDatabaseIsGood(cfg: Config, name: string, now: Time)
    requires Sql.Stored(cfg.ids, cfg.defaultID) && cfg.defaultID != ""
    ensures Good(Database(map[cfg.defaultID := Project(cfg.defaultID, name, now, true)], map[], now, map[]), cfg)
  {
  }

  lemma {:induction false} LatestGrows(m: Rows, m': Rows, c: Id)
    requires RowsPersist(m, m') && HasFamily(m, c)
    ensures HasFamily(m', c) && Latest(m, c).version <= Latest(m', c).version
  {
    var l := LatestID(m, c);
    assert m'[l].version == m[l].version && m'[l].id == c;
  }

  /** A read stays one of an earlier state, and an overtaken edit stays overtaken. */
  lemma {:induction false} SessionsStayOk(m: Rows, m': Rows, defaultID: Id, sessions: map<Id, Session>)
    requires RowsPersist(m, m') && SessionsOk(m, defaultID, sessions)
    ensures SessionsOk(m', defaultID, sessions)
  {
    forall s | s in sessions ensures SessionOk(m', defaultID, sessions[s]) {
      assert SessionOk(m, defaultID, sessions[s]);
      if sessions[s].Editing? {
        LatestGrows(m, m', sessions[s].edit.c);
      }
    }
  }

  lemma {:induction false} ReadIsOk(m: Rows, defaultID: Id, t: Test, c: Id)
    requires GapFree(m) && HasFamily(m, c)
    ensures SessionOk(m, defaultID, Editing(Sql.ReadLatest(m, t, c)))
  {
    var l := LatestID(m, c);
    assert 1 <= m[l].version;
  }

  /** A successful write adds the next version of its family. */
  lemma {:induction false} WriteChange(m: Rows, registered: set<Id>, e: Sql.Edit, versionID: Id, now: Time)
    returns (change: Change)
    requires Keyed(m) && GapFree(m) && Sql.ReadEarlier(m, e) && versionID !in m && versionID != ""
    ensures var (m', r) := Sql.InsertVersion(m, registered, e, versionID, now);
      && Changed(m, m', change, now)
      && (r.Ok? ==> change == Added(Sql.NewRow(e, versionID, now)) && e.projectID in registered)
      && (r.Err? ==> change == Untouched)
  {
    Sql.InsertOutcome(m, registered, e, versionID, now);
    var (m', r) := Sql.InsertVersion(m, registered, e, versionID, now);
    change := if r.Ok? then Added(Sql.NewRow(e, versionID, now)) else Untouched;
  }

  lemma {:induction false} CreateChange(ids: Sql.Ids, m: Rows, registered: set<Id>, d: Id, t: Test, id: Id, now: Time)
    returns (change: Change)
    requires Rooted(m) && id !in m && id != ""
    ensures var (m', r) := Sql.CreateTest(ids, m, registered, d, t, id, now);
      && Changed(m, m', change, now)
      && (r.Ok? ==> change == Added(r.value) && r.value.id == id && r.value.projectID in registered && !HasFamily(m, id))
      && (r.Err? ==> change == Untouched)
  {
    var (m', r) := Sql.CreateTest(ids, m, registered, d, t, id, now);
    var p := Sql.ProjectFor(ids, registered, d, t.projectID);
    if p.Ok? {
      CreateExtends(m, t.(projectID := p.value), id, now);
    }
    change := if r.Ok? then Added(r.value) else Untouched;
  }

  /** What a change must respect for the foreign key and the id columns. */
  ghost predicate Fits(m: Rows, change: Change, ids: Sql.Ids, registered: set<Id>) {
    match change
    case Untouched => true
    case Added(row) => row.projectID in registered && Sql.Stored(ids, row.id)
    case Refiled(c, p) => p in registered
  }

  lemma {:induction false} MoveChange(ids: Sql.Ids, m: Rows, registered: set<Id>, c: Id, p: Id, now: Time)
    returns (change: Change)
    ensures Changed(m, Sql.MoveTest(ids, m, registered, c, p).0, change, now)
    ensures Fits(m, change, ids, registered)
  {
    change := if Sql.MoveTest(ids, m, registered, c, p).1.None?
      then Refiled(ids.canon(c).value, ids.canon(p).value) else Untouched;
  }

  lemma {:induction false} FamilyIsStored(m: Rows, ids: Sql.Ids, registered: set<Id>, c: Id)
    requires Sql.StoredIds(ids, m, registered) && HasFamily(m, c)
    ensures Sql.Stored(ids, c)
  {
  }

  lemma {:induction false} StepChange(db: Database, cfg: Config, e: Event) returns (change: Change)
    requires Keyed(db.tests) && GapFree(db.tests) && Rooted(db.tests)
    requires SessionsOk(db.tests, cfg.defaultID, db.sessions) && Legal(db, cfg, e)
    requires Sql.StoredIds(cfg.ids, db.tests, db.projects.Keys)
    ensures Changed(db.tests, TestsAfter(db, cfg, e), change, e.now)
    ensures Fits(db.tests, change, cfg.ids, db.projects.Keys)
  {
    var m, registered := db.tests, db.projects.Keys;
    match e.stmt
    case Write(s, v) =>
      assert SessionOk(m, cfg.defaultID, db.sessions[s]);
      change := WriteChange(m, registered, db.sessions[s].edit, v, e.now);
      FamilyIsStored(m, cfg.ids, registered, db.sessions[s].edit.c);
    case Create(t, id) => change := CreateChange(cfg.ids, m, registered, cfg.defaultID, t, id, e.now);
    case Move(c, p) => change := MoveChange(cfg.ids, m, registered, c, p, e.now);
    case _ => change := Untouched;
  }

  lemma {:induction false} ChangeKeepsReferences(m: Rows, m': Rows, change: Change, ids: Sql.Ids, registered: set<Id>, now: Time)
    requires Changed(m, m', change, now) && Fits(m, change, ids, registered)
    requires Filed(m, registered) && Sql.StoredIds(ids, m, registered)
    ensures Filed(m', registered) && Sql.StoredIds(ids, m', registered)
  {
  }

  /** The foreign key, seen from the other table: a drop goes through only when it orphans no row. */
  lemma {:induction false} DropIsSafe(m: Rows, ps: P.Registry, d: Id, p: Id)
    requires Filed(m, ps.Keys) && Registered(ps, d) && p != d
    ensures Filed(m, Sql.DropProject(m, ps, p).0.Keys) && Registered(Sql.DropProject(m, ps, p).0, d)
  {
  }

  lemma {:induction false} ProjectsStayGood(ps: P.Registry, d: Id, name: string, id: Id, now: Time)
    requires Registered(ps, d)
    ensures id !in ps && id != "" ==> Registered(P.CreateProject(ps, Project("", name, ZERO_TIME, false), id, now).0, d)
    ensures Registered(P.RenameProject(ps, id, name).0, d)
  {
  }

  lemma {:induction false} ProjectsStep(db: Database, cfg: Config, e: Event)
    requires Legal(db, cfg, e) && SessionsOk(db.tests, cfg.defaultID, db.sessions)
    requires Filed(db.tests, db.projects.Keys) && Registered(db.projects, cfg.defaultID)
    requires forall p | p in db.projects.Keys :: Sql.Stored(cfg.ids, p)
    ensures Registered(ProjectsAfter(db, cfg, e), cfg.defaultID)
    ensures Filed(db.tests, ProjectsAfter(db, cfg, e).Keys)
    ensures !e.stmt.Drop? ==> db.projects.Keys <= ProjectsAfter(db, cfg, e).Keys
    ensures forall p | p in ProjectsAfter(db, cfg, e).Keys :: Sql.Stored(cfg.ids, p)
  {
    match e.stmt
    case Drop(s) =>
      assert SessionOk(db.tests, cfg.defaultID, db.sessions[s]);
      DropIsSafe(db.tests, db.projects, cfg.defaultID, db.sessions[s].projectID);
    case AddProject(name, id) => ProjectsStayGood(db.projects, cfg.defaultID, name, id, e.now);
    case Rename(p, name) =>
      if Sql.ProjectID(cfg.ids, db.projects, p).Ok? {
        ProjectsStayGood(db.projects, cfg.defaultID, name, Sql.ProjectID(cfg.ids, db.projects, p).value, e.now);
      }
    case _ =>
  }

  lemma {:induction false} OneMoreSession(m: Rows, d: Id, sessions: map<Id, Session>, s: Id, session: Session)
    requires SessionsOk(m, d, sessions) && SessionOk(m, d, session)
    ensures SessionsOk(m, d, sessions[s := session])
  {
  }

  lemma {:induction false} SessionsStep(db: Database, cfg: Config, e: Event)
    requires Legal(db, cfg, e) && SessionsOk(db.tests, cfg.defaultID, db.sessions) && GapFree(db.tests)
    requires Registered(db.projects, cfg.defaultID)
    ensures SessionsOk(db.tests, cfg.defaultID, SessionsAfter(db, cfg, e))
  {
    match e.stmt
    case Read(s, t) =>
      if Finds(db.tests, cfg, t.id) {
        var c := cfg.ids.canon(t.id).value;
        ReadIsOk(db.tests, cfg.defaultID, t, c);
        OneMoreSession(db.tests, cfg.defaultID, db.sessions, s, Editing(Sql.ReadLatest(db.tests, t, c)));
      }
    case Check(s, p) =>
      var checked := Sql.CheckProject(cfg.ids, db.projects, p);
      if checked.Ok? {
        OneMoreSession(db.tests, cfg.defaultID, db.sessions, s, Deleting(checked.value));
      }
    case _ =>
  }

  lemma {:induction false} StepIsSafe(db: Database, cfg: Config, e: Event)
    requires Good(db, cfg) && Legal(db, cfg, e)
    ensures Good(Step(db, cfg, e), cfg) && RowsPersist(db.tests, TestsAfter(db, cfg, e))
  {
    var change := StepChange(db, cfg, e);
    var m' := TestsAfter(db, cfg, e);
    ChangeKeepsConsistent(db.tests, m', change, db.clock, e.now);
    ChangeKeepsRows(db.tests, m', change, db.clock, e.now);
    ChangeKeepsReferences(db.tests, m', change, cfg.ids, db.projects.Keys, e.now);
    ProjectsStep(db, cfg, e);
    SessionsStep(db, cfg, e);
    SessionsStayOk(db.tests, m', cfg.defaultID, SessionsAfter(db, cfg, e));
  }

  /** Over every interleaving of any number of sessions: versions stay 1..n, every row names a
      registered project, there is one default project, and no row ever changes but in its project. */
  lemma {:induction false} EveryInterleavingIsSafe(db: Database, cfg: Config, es: seq<Event>)
    requires Good(db, cfg) && LegalRun(db, cfg, es)
    ensures Good(Exec(db, cfg, es), cfg) && RowsPersist(db.tests, Exec(db, cfg, es).tests)
    decreases |es|
  {
    if |es| > 0 {
      var next := Step(db, cfg, es[0]);
      StepIsSafe(db, cfg, es[0]);
      EveryInterleavingIsSafe(next, cfg, es[1..]);
      RowsPersistTwice(db.tests, next.tests, Exec(next, cfg, es[1..]).tests);
    }
  }

  // ---------- one session alone ----------

  /** UpdateTest with no other session between its statements. */
  ghost function EditAlone(db: Database, cfg: Config, s: Id, t: Test, versionID: Id, now: Time): Database
    requires Legal(db, cfg, Event(Read(s, t), now)) && versionID !in db.tests && versionID != ""
  {
    var read := Step(db, cfg, Event(Read(s, t), now));
    if s in read.sessions then Step(read, cfg, Event(Write(s, versionID), now)) else read
  }

  /** DeleteProject with no other session between its statements. */
  ghost function DeleteAlone(db: Database, cfg: Config, s: Id, p: Id, now: Time): Database
    requires Legal(db, cfg, Event(Check(s, p), now))
  {
    var checked := Step(db, cfg, Event(Check(s, p), now));
    if s in checked.sessions then Step(checked, cfg, Event(Drop(s), now)) else checked
  }

  lemma {:induction false} EditAloneIsGood(db: Database, cfg: Config, s: Id, t: Test, versionID: Id, now: Time)
    requires Good(db, cfg) && Legal(db, cfg, Event(Read(s, t), now)) && versionID !in db.tests && versionID != ""
    ensures Good(EditAlone(db, cfg, s, t, versionID, now), cfg)
  {
    var read := Step(db, cfg, Event(Read(s, t), now));
    StepIsSafe(db, cfg, Event(Read(s, t), now));
    if s in read.sessions {
      StepIsSafe(read, cfg, Event(Write(s, versionID), now));
    }
  }

  lemma {:induction false} EditAloneIsUpdateTest(db: Database, cfg: Config, s: Id, t: Test, versionID: Id, now: Time)
    requires Legal(db, cfg, Event(Read(s, t), now)) && versionID !in db.tests && versionID != ""
    ensures EditAlone(db, cfg, s, t, versionID, now) ==
      Database(db.projects, Sql.UpdateTest(cfg.ids, db.tests, db.projects.Keys, t, versionID, now).0, now, db.sessions)
  {
    if Finds(db.tests, cfg, t.id) {
      var edit := Sql.ReadLatest(db.tests, t, cfg.ids.canon(t.id).value);
      var read := Database(db.projects, db.tests, now, db.sessions[s := Editing(edit)]);
      assert Step(db, cfg, Event(Read(s, t), now)) == read;
      assert read.sessions - {s} == db.sessions;
    } else {
      assert Step(db, cfg, Event(Read(s, t), now)) == Database(db.projects, db.tests, now, db.sessions);
    }
  }

  lemma {:induction false} DeleteAloneIsGood(db: Database, cfg: Config, s: Id, p: Id, now: Time)
    requires Good(db, cfg) && Legal(db, cfg, Event(Check(s, p), now))
    ensures Good(DeleteAlone(db, cfg, s, p, now), cfg)
  {
    var checked := Step(db, cfg, Event(Check(s, p), now));
    StepIsSafe(db, cfg, Event(Check(s, p), now));
    CheckedMayDrop(db, cfg, s, p, now);
    if s in checked.sessions {
      StepIsSafe(checked, cfg, Event(Drop(s), now));
    }
  }

  lemma {:induction false} CheckedMayDrop(db: Database, cfg: Config, s: Id, p: Id, now: Time)
    requires Legal(db, cfg, Event(Check(s, p), now))
    ensures var checked := Step(db, cfg, Event(Check(s, p), now));
      s in checked.sessions ==> Legal(checked, cfg, Event(Drop(s), now))
  {
  }

  lemma {:induction false} DeleteAloneIsDeleteProject(db: Database, cfg: Config, s: Id, p: Id, now: Time)
    requires Legal(db, cfg, Event(Check(s, p), now))
    ensures DeleteAlone(db, cfg, s, p, now) ==
      Database(Sql.DeleteProject(cfg.ids, db.tests, db.projects, p).0, db.tests, now, db.sessions)
  {
    var key := Sql.CheckProject(cfg.ids, db.projects, p);
    if key.Ok? {
      var checked := Database(db.projects, db.tests, now, db.sessions[s := Deleting(key.value)]);
      assert Step(db, cfg, Event(Check(s, p), now)) == checked;
      assert checked.sessions - {s} == db.sessions;
    } else {
      assert Step(db, cfg, Event(Check(s, p), now)) == Database(db.projects, db.tests, now, db.sessions);
    }
  }

  lemma {:induction false} GoodIsKeyed(db: Database, cfg: Config)
    requires Good(db, cfg)
    ensures Keyed(db.tests)
  {
  }

  // ---------- who wins ----------

  ghost function VersionOf(m: Rows, c: Id): int {
    if HasFamily(m, c) then Latest(m, c).version else 0
  }

  /** Whether this statement commits a version of c. */
  ghost predicate Commits(db: Database, cfg: Config, e: Event, c: Id)
    requires Legal(db, cfg, e)
  {
    match e.stmt
    case Write(s, v) => db.sessions[s].edit.c == c && WriteReply(db, s, v, e.now).1.Ok?
    case Create(t, id) => id == c && CreateReply(db, cfg, t, id, e.now).1.Ok?
    case _ => false
  }

  ghost function CommitCount(db: Database, cfg: Config, es: seq<Event>, c: Id): nat
    requires LegalRun(db, cfg, es)
    decreases |es|
  {
    if |es| == 0 then 0
    else (if Commits(db, cfg, es[0], c) then 1 else 0) + CommitCount(Step(db, cfg, es[0]), cfg, es[1..], c)
  }

  lemma {:induction false} ExtendAddsOne(m: Rows, row: Test, now: Time, c: Id)
    requires Keyed(m) && Extends(m, row, now)
    ensures VersionOf(With(m, row), c) == VersionOf(m, c) + if c == row.id then 1 else 0
  {
    var m' := With(m, row);
    ExtendMovesOneLatest(m, row, now);
    if c != row.id {
      if HasFamily(m, c) {
        var l := LatestID(m, c);
        assert m'[l] == m[l];
      } else {
        assert !HasFamily(m', c);
      }
    }
  }

  lemma {:induction false} WriteAddsOne(m: Rows, registered: set<Id>, e: Sql.Edit, versionID: Id, now: Time, c: Id)
    requires Keyed(m) && GapFree(m) && Sql.ReadEarlier(m, e) && versionID !in m && versionID != ""
    ensures var (m', r) := Sql.InsertVersion(m, registered, e, versionID, now);
      VersionOf(m', c) == VersionOf(m, c) + if e.c == c && r.Ok? then 1 else 0
  {
    var change := WriteChange(m, registered, e, versionID, now);
    if change.Added? {
      ExtendAddsOne(m, change.row, now, c);
    }
  }

  lemma {:induction false} CreateAddsOne(ids: Sql.Ids, m: Rows, registered: set<Id>, d: Id, t: Test, id: Id, now: Time, c: Id)
    requires Keyed(m) && Rooted(m) && id !in m && id != ""
    ensures var (m', r) := Sql.CreateTest(ids, m, registered, d, t, id, now);
      VersionOf(m', c) == VersionOf(m, c) + if id == c && r.Ok? then 1 else 0
  {
    var change := CreateChange(ids, m, registered, d, t, id, now);
    if change.Added? {
      ExtendAddsOne(m, change.row, now, c);
    }
  }

  lemma {:induction false} MoveAddsNone(ids: Sql.Ids, m: Rows, registered: set<Id>, c: Id, p: Id, d: Id)
    requires Keyed(m)
    ensures VersionOf(Sql.MoveTest(ids, m, registered, c, p).0, d) == VersionOf(m, d)
  {
    var m' := Sql.MoveTest(ids, m, registered, c, p).0;
    if m' != m {
      MoveChangesOnlyTheProject(m, ids.canon(c).value, ids.canon(p).value);
      SameFamilies(m, m', d);
      if HasFamily(m, d) {
        SameLatest(m, m', d);
      }
    }
  }

  lemma {:induction false} StepCounts(db: Database, cfg: Config, e: Event, c: Id)
    requires Keyed(db.tests) && GapFree(db.tests) && Rooted(db.tests)
    requires SessionsOk(db.tests, cfg.defaultID, db.sessions) && Legal(db, cfg, e)
    ensures VersionOf(TestsAfter(db, cfg, e), c) == VersionOf(db.tests, c) + if Commits(db, cfg, e, c) then 1 else 0
  {
    var m, registered := db.tests, db.projects.Keys;
    match e.stmt
    case Write(s, v) =>
      assert SessionOk(m, cfg.defaultID, db.sessions[s]);
      WriteAddsOne(m, registered, db.sessions[s].edit, v, e.now, c);
    case Create(t, id) => CreateAddsOne(cfg.ids, m, registered, cfg.defaultID, t, id, e.now, c);
    case Move(d, p) => MoveAddsNone(cfg.ids, m, registered, d, p, c);
    case _ =>
  }

  /** No edit is lost and none is forked: a family has grown by exactly the edits that were told they
      succeeded, and its versions are numbered by them. */
  lemma {:induction false} VersionsCountCommits(db: Database, cfg: Config, es: seq<Event>, c: Id)
    requires Good(db, cfg) && LegalRun(db, cfg, es)
    ensures var m' := Exec(db, cfg, es).tests;
      && VersionOf(m', c) == VersionOf(db.tests, c) + CommitCount(db, cfg, es, c)
      && |Family(m', c)| == |Family(db.tests, c)| + CommitCount(db, cfg, es, c)
  {
    LatestCountsCommits(db, cfg, es, c);
    EveryInterleavingIsSafe(db, cfg, es);
    FamilySize(db.tests, c);
    FamilySize(Exec(db, cfg, es).tests, c);
  }

  lemma {:induction false} FamilySize(m: Rows, c: Id)
    requires Keyed(m) && GapFree(m)
    ensures |Family(m, c)| == VersionOf(m, c)
  {
    if HasFamily(m, c) {
      VersionsAreOneToN(m, c);
    } else {
      assert Family(m, c) == {};
    }
  }

  lemma {:induction false} LatestCountsCommits(db: Database, cfg: Config, es: seq<Event>, c: Id)
    requires Good(db, cfg) && LegalRun(db, cfg, es)
    ensures VersionOf(Exec(db, cfg, es).tests, c) == VersionOf(db.tests, c) + CommitCount(db, cfg, es, c)
    decreases |es|
  {
    if |es| > 0 {
      StepIsSafe(db, cfg, es[0]);
      StepCounts(db, cfg, es[0], c);
      LatestCountsCommits(Step(db, cfg, es[0]), cfg, es[1..], c);
    }
  }

  predicate Owns(stmt: Statement, s: Id) {
    match stmt
    case Read(u, _) => u == s
    case Write(u, _) => u == s
    case Check(u, _) => u == s
    case Drop(u) => u == s
    case _ => false
  }

  /** The events of the other sessions. */
  predicate Spares(es: seq<Event>, s: Id) {
    forall i | 0 <= i < |es| :: !Owns(es[i].stmt, s)
  }

  lemma {:induction false} SessionWaits(db: Database, cfg: Config, es: seq<Event>, s: Id)
    requires LegalRun(db, cfg, es) && Spares(es, s) && s in db.sessions
    ensures var db' := Exec(db, cfg, es); s in db'.sessions && db'.sessions[s] == db.sessions[s]
    decreases |es|
  {
    if |es| > 0 {
      assert !Owns(es[0].stmt, s);
      var next := Step(db, cfg, es[0]);
      assert s in next.sessions && next.sessions[s] == db.sessions[s];
      forall i | 0 <= i < |es| - 1 ensures !Owns(es[1..][i].stmt, s) {
        assert es[1..][i] == es[i + 1];
      }
      SessionWaits(next, cfg, es[1..], s);
    }
  }

  /** An editor that has read, waited while the others did es, and now writes. */
  ghost predicate IsEdit(db: Database, cfg: Config, s: Id, t: Test, c: Id, es: seq<Event>,
                         versionID: Id, readAt: Time, now: Time) {
    && Legal(db, cfg, Event(Read(s, t), readAt))
    && cfg.ids.canon(t.id) == Some(c) && HasFamily(db.tests, c)
    && Spares(es, s)
    && var db0 := Step(db, cfg, Event(Read(s, t), readAt));
      && LegalRun(db0, cfg, es)
      && Legal(Exec(db0, cfg, es), cfg, Event(Write(s, versionID), now))
  }

  /** An edit is refused as a conflict exactly when, between its two statements, some other edit of the
      same test was committed; whoever is refused has changed nothing. */
  lemma {:induction false} ConflictExactlyWhenOvertaken(db: Database, cfg: Config, s: Id, t: Test, c: Id, es: seq<Event>,
                                                        versionID: Id, readAt: Time, now: Time)
    requires Good(db, cfg) && IsEdit(db, cfg, s, t, c, es, versionID, readAt, now)
    ensures var db0 := Step(db, cfg, Event(Read(s, t), readAt));
      var db1 := Exec(db0, cfg, es);
      var (m', r) := WriteReply(db1, s, versionID, now);
      var overtaken, gone := CommitCount(db0, cfg, es, c) > 0, Latest(db.tests, c).projectID !in db1.projects;
      && (r == Err(Conflict) <==> overtaken)
      && (r == Err(Internal) <==> !overtaken && gone)
      && (r.Ok? <==> !overtaken && !gone)
      && (r.Err? ==> m' == db1.tests)
  {
    var read := Event(Read(s, t), readAt);
    var db0 := Step(db, cfg, read);
    StepIsSafe(db, cfg, read);
    var db1 := Exec(db0, cfg, es);
    EveryInterleavingIsSafe(db0, cfg, es);
    SessionWaits(db0, cfg, es, s);
    LatestCountsCommits(db0, cfg, es, c);
    EditIsSettled(db1.tests, db1.projects.Keys, Sql.ReadLatest(db.tests, t, c), versionID, now);
    assert SessionOk(db1.tests, cfg.defaultID, db1.sessions[s]);
  }

  lemma {:induction false} EditIsSettled(m: Rows, registered: set<Id>, e: Sql.Edit, versionID: Id, now: Time)
    requires Keyed(m) && GapFree(m)
    ensures Sql.ReadEarlier(m, e) ==>
      var (m', r) := Sql.InsertVersion(m, registered, e, versionID, now);
      var overtaken, gone := e.version <= VersionOf(m, e.c), e.projectID !in registered;
      && (r == Err(Conflict) <==> overtaken)
      && (r == Err(Internal) <==> !overtaken && gone)
      && (r.Ok? <==> !overtaken && !gone)
      && (r.Err? ==> m' == m)
  {
    if Sql.ReadEarlier(m, e) {
      Sql.InsertOutcome(m, registered, e, versionID, now);
    }
  }

  /** The shortest such race: of two editors that have read the same version, the first to write gets
      the next one and the second is refused. */
  lemma {:induction false} SecondWriterLoses(db: Database, cfg: Config, a: Id, ta: Test, b: Id, tb: Test, c: Id,
                                             va: Id, vb: Id, now: Time)
    requires Good(db, cfg) && Legal(db, cfg, Event(Read(a, ta), now))
    requires cfg.ids.canon(ta.id) == cfg.ids.canon(tb.id) == Some(c) && HasFamily(db.tests, c)
    requires b !in db.sessions && b != a
    requires va !in db.tests && vb !in db.tests && va != vb && va != "" && vb != ""
    ensures var es := [Event(Read(b, tb), now), Event(Write(b, vb), now)];
      && IsEdit(db, cfg, a, ta, c, es, va, now, now)
      && var db1 := Exec(Step(db, cfg, Event(Read(a, ta), now)), cfg, es);
      && vb in db1.tests && WriteReply(db1, a, va, now) == (db1.tests, Err(Conflict))
  {
    FirstWriterWins(db.tests, db.projects.Keys, tb, c, vb, now);
    ReadReadWrite(db, cfg, a, ta, b, tb, c, va, vb, now);
  }

  lemma {:induction false} TwoEvents(db: Database, cfg: Config, e: Event, f: Event)
    requires Legal(db, cfg, e) && Legal(Step(db, cfg, e), cfg, f)
    ensures LegalRun(db, cfg, [e, f]) && Exec(db, cfg, [e, f]) == Step(Step(db, cfg, e), cfg, f)
  {
    assert [e, f][1..] == [f] && [f][1..] == [];
    var next := Step(db, cfg, e);
    assert LegalRun(next, cfg, [f]) && Exec(next, cfg, [f]) == Step(next, cfg, f);
  }

  lemma {:induction false} ReadReadWrite(db: Database, cfg: Config, a: Id, ta: Test, b: Id, tb: Test, c: Id,
                                         va: Id, vb: Id, now: Time)
    requires Legal(db, cfg, Event(Read(a, ta), now))
    requires cfg.ids.canon(ta.id) == cfg.ids.canon(tb.id) == Some(c) && HasFamily(db.tests, c)
    requires b !in db.sessions && b != a
    requires va !in db.tests && vb !in db.tests && va != vb && va != "" && vb != ""
    requires var e := Sql.ReadLatest(db.tests, tb, c);
      Sql.InsertVersion(db.tests, db.projects.Keys, e, vb, now).0 == With(db.tests, Sql.NewRow(e, vb, now))
    ensures var es := [Event(Read(b, tb), now), Event(Write(b, vb), now)];
      && IsEdit(db, cfg, a, ta, c, es, va, now, now)
      && var db1 := Exec(Step(db, cfg, Event(Read(a, ta), now)), cfg, es);
      && db1.tests == With(db.tests, Sql.NewRow(Sql.ReadLatest(db.tests, tb, c), vb, now))
      && db1.sessions[a] == Editing(Sql.ReadLatest(db.tests, ta, c))
  {
    var readB, writeB := Event(Read(b, tb), now), Event(Write(b, vb), now);
    var ea, eb := Editing(Sql.ReadLatest(db.tests, ta, c)), Editing(Sql.ReadLatest(db.tests, tb, c));
    var db0 := Database(db.projects, db.tests, now, db.sessions[a := ea]);
    var db2 := Database(db.projects, db.tests, now, db.sessions[a := ea][b := eb]);
    var db3 := Database(db.projects, With(db.tests, Sql.NewRow(eb.edit, vb, now)), now, db.sessions[a := ea][b := eb] - {b});
    assert Step(db, cfg, Event(Read(a, ta), now)) == db0;
    assert Step(db0, cfg, readB) == db2;
    assert Step(db2, cfg, writeB) == db3;
    TwoEvents(db0, cfg, readB, writeB);
  }

  lemma {:induction false} FirstWriterWins(m: Rows, registered: set<Id>, t: Test, c: Id, versionID: Id, now: Time)
    requires Keyed(m) && GapFree(m) && Filed(m, registered) && HasFamily(m, c) && versionID !in m && versionID != ""
    ensures var e := Sql.ReadLatest(m, t, c);
      && Sql.InsertVersion(m, registered, e, versionID, now).0 == With(m, Sql.NewRow(e, versionID, now))
      && HasVersion(With(m, Sql.NewRow(e, versionID, now)), c, e.version)
  {
    Sql.UndisturbedEdit(m, registered, t, c, versionID, now);
    var row := Sql.NewRow(Sql.ReadLatest(m, t, c), versionID, now);
    assert With(m, row)[versionID] == row;
  }

  // ---------- against the memory store ----------

  /** What the memory store does in one atomic step at the instant this statement commits, asked in the
      database's spelling; nothing for a read, a check or a refusal. */
  ghost function MemStep(db: Database, cfg: Config, mem: Rows, e: Event): Rows
    requires Legal(db, cfg, e)
  {
    match e.stmt
    case Write(s, v) =>
      if WriteReply(db, s, v, e.now).1.Ok? then Catalog.UpdateTest(mem, Sql.Asked(db.sessions[s].edit), v, e.now).0
      else mem
    case Create(t, id) =>
      var p := Sql.ProjectFor(cfg.ids, db.projects.Keys, cfg.defaultID, t.projectID);
      if p.Ok? then Catalog.CreateTest(mem, db.projects.Keys, cfg.defaultID, t.(projectID := p.value), id, e.now).0
      else mem
    case Move(c, p) =>
      if Sql.MoveTest(cfg.ids, db.tests, db.projects.Keys, c, p).1.None?
      then Catalog.MoveTest(mem, db.projects.Keys, cfg.ids.canon(c).value, cfg.ids.canon(p).value).0
      else mem
    case _ => mem
  }

  ghost function MemExec(db: Database, cfg: Config, mem: Rows, es: seq<Event>): Rows
    requires LegalRun(db, cfg, es)
    decreases |es|
  {
    if |es| == 0 then mem
    else MemExec(Step(db, cfg, es[0]), cfg, MemStep(db, cfg, mem, es[0]), es[1..])
  }

  /** A write that succeeds has not been overtaken by a move of its test. */
  ghost predicate Fresh(db: Database, cfg: Config, e: Event)
    requires Legal(db, cfg, e)
  {
    match e.stmt
    case Write(s, v) =>
      var edit := db.sessions[s].edit;
      (WriteReply(db, s, v, e.now).1.Ok? && HasFamily(db.tests, edit.c)) ==>
        edit.projectID == Latest(db.tests, edit.c).projectID
    case _ => true
  }

  ghost predicate AllFresh(db: Database, cfg: Config, es: seq<Event>)
    requires LegalRun(db, cfg, es)
    decreases |es|
  {
    |es| == 0 || (Fresh(db, cfg, es[0]) && AllFresh(Step(db, cfg, es[0]), cfg, es[1..]))
  }

  lemma {:induction false} SameEdited(m: Rows, mem: Rows, t: Test, versionID: Id, now: Time)
    requires SameButProject(m, mem) && Keyed(m) && HasFamily(m, t.id)
    ensures HasFamily(mem, t.id)
    ensures Edited(mem, t, versionID, now) ==
      Edited(m, t, versionID, now).(projectID := Latest(mem, t.id).projectID)
  {
    SameFamilies(m, mem, t.id);
    SameLatest(m, mem, t.id);
  }

  /** One write: the stores add the same version, and the same row if the write was fresh. */
  lemma {:induction false} WriteRefines(m: Rows, mem: Rows, registered: set<Id>, e: Sql.Edit, versionID: Id, now: Time)
    requires Keyed(m) && GapFree(m) && SameButProject(m, mem) && Sql.ReadEarlier(m, e)
    requires Sql.InsertVersion(m, registered, e, versionID, now).1.Ok?
    ensures var (m', r) := Sql.InsertVersion(m, registered, e, versionID, now);
      var (mem', r') := Catalog.UpdateTest(mem, Sql.Asked(e), versionID, now);
      && SameButProject(m', mem')
      && r'.Ok? && r.value.(id := e.c) == r'.value.(projectID := e.projectID)
      && (mem == m && e.projectID == Latest(m, e.c).projectID ==> mem' == m')
  {
    Sql.InsertOutcome(m, registered, e, versionID, now);
    SameEdited(m, mem, Sql.Asked(e), versionID, now);
  }

  lemma {:induction false} CreateRefines(m: Rows, mem: Rows, registered: set<Id>, d: Id, t: Test, p: Id, id: Id, now: Time)
    requires SameButProject(m, mem) && p in registered && d in registered
    ensures var row := Created(t.(projectID := p), id, now);
      var mem' := Catalog.CreateTest(mem, registered, d, t.(projectID := p), id, now).0;
      p != "" ==> SameButProject(m[id := row], mem') && (mem == m ==> mem' == m[id := row])
  {
  }

  lemma {:induction false} MoveRefines(m: Rows, mem: Rows, registered: set<Id>, c: Id, p: Id)
    requires SameButProject(m, mem) && HasFamily(m, c) && p in registered
    ensures var mem' := Catalog.MoveTest(mem, registered, c, p).0;
      SameButProject(Moved(m, c, p), mem') && (mem == m ==> mem' == Moved(m, c, p))
  {
    SameFamilies(m, mem, c);
  }

  lemma {:induction false} StepRefines(db: Database, cfg: Config, mem: Rows, e: Event)
    requires Keyed(db.tests) && GapFree(db.tests) && SessionsOk(db.tests, cfg.defaultID, db.sessions)
    requires cfg.defaultID in db.projects.Keys && "" !in db.projects.Keys
    requires Legal(db, cfg, e) && SameButProject(db.tests, mem)
    ensures SameButProject(TestsAfter(db, cfg, e), MemStep(db, cfg, mem, e))
    ensures mem == db.tests && Fresh(db, cfg, e) ==> MemStep(db, cfg, mem, e) == TestsAfter(db, cfg, e)
  {
    var m, registered := db.tests, db.projects.Keys;
    match e.stmt
    case Write(s, v) =>
      assert SessionOk(m, cfg.defaultID, db.sessions[s]);
      if WriteReply(db, s, v, e.now).1.Ok? {
        WriteRefines(m, mem, registered, db.sessions[s].edit, v, e.now);
      } else {
        EditIsSettled(m, registered, db.sessions[s].edit, v, e.now);
      }
    case Create(t, id) =>
      var p := Sql.ProjectFor(cfg.ids, registered, cfg.defaultID, t.projectID);
      if p.Ok? {
        CreateRefines(m, mem, registered, cfg.defaultID, t, p.value, id, e.now);
      }
    case Move(c, p) =>
      if Sql.MoveTest(cfg.ids, m, registered, c, p).1.None? {
        MoveRefines(m, mem, registered, cfg.ids.canon(c).value, cfg.ids.canon(p).value);
      }
    case _ =>
  }

  /** Every interleaved run is a run of the memory store's atomic operations, one at the instant of each
      commit: the same versions with the same configuration and dates, up to the projects; and the
      very same rows when no successful edit was overtaken by a move. */
  lemma {:induction false} EveryRunIsAMemoryStoreRun(db: Database, cfg: Config, mem: Rows, es: seq<Event>)
    requires Good(db, cfg) && LegalRun(db, cfg, es) && SameButProject(db.tests, mem)
    ensures SameButProject(Exec(db, cfg, es).tests, MemExec(db, cfg, mem, es))
    ensures mem == db.tests && AllFresh(db, cfg, es) ==> MemExec(db, cfg, mem, es) == Exec(db, cfg, es).tests
    decreases |es|
  {
    if |es| > 0 {
      StepRefines(db, cfg, mem, es[0]);
      StepIsSafe(db, cfg, es[0]);
      EveryRunIsAMemoryStoreRun(Step(db, cfg, es[0]), cfg, MemStep(db, cfg, mem, es[0]), es[1..]);
    }
  }

  // ---------- edits that race with moves ----------

  /** A successful write keeps families filed whole exactly when it is fresh. */
  lemma {:induction false} WriteKeepsUniformExactlyWhenFresh(m: Rows, registered: set<Id>, e: Sql.Edit, versionID: Id, now: Time)
    requires Keyed(m) && GapFree(m) && Uniform(m) && Sql.ReadEarlier(m, e) && versionID !in m && versionID != ""
    requires Sql.InsertVersion(m, registered, e, versionID, now).1.Ok?
    ensures Uniform(Sql.InsertVersion(m, registered, e, versionID, now).0)
      <==> e.projectID == Latest(m, e.c).projectID
  {
    var change := WriteChange(m, registered, e, versionID, now);
    ExtendKeepsUniform(m, change.row, now);
  }

  lemma {:induction false} CreateKeepsUniform(ids: Sql.Ids, m: Rows, registered: set<Id>, d: Id, t: Test, id: Id, now: Time)
    requires Rooted(m) && Uniform(m) && id !in m && id != ""
    ensures Uniform(Sql.CreateTest(ids, m, registered, d, t, id, now).0)
  {
    var change := CreateChange(ids, m, registered, d, t, id, now);
    if change.Added? {
      ExtendKeepsUniform(m, change.row, now);
    }
  }

  lemma {:induction false} MoveKeepsUniform(ids: Sql.Ids, m: Rows, registered: set<Id>, c: Id, p: Id)
    requires Uniform(m)
    ensures Uniform(Sql.MoveTest(ids, m, registered, c, p).0)
  {
    if Sql.MoveTest(ids, m, registered, c, p).1.None? {
      MoveChangesOnlyTheProject(m, ids.canon(c).value, ids.canon(p).value);
    }
  }

  lemma {:induction false} StepKeepsUniform(db: Database, cfg: Config, e: Event)
    requires Keyed(db.tests) && GapFree(db.tests) && Rooted(db.tests) && Uniform(db.tests)
    requires SessionsOk(db.tests, cfg.defaultID, db.sessions) && Legal(db, cfg, e)
    ensures Uniform(TestsAfter(db, cfg, e)) <==> Fresh(db, cfg, e)
  {
    var m, registered := db.tests, db.projects.Keys;
    match e.stmt
    case Write(s, v) =>
      assert SessionOk(m, cfg.defaultID, db.sessions[s]);
      var edit := db.sessions[s].edit;
      EditIsSettled(m, registered, edit, v, e.now);
      if WriteReply(db, s, v, e.now).1.Ok? {
        WriteKeepsUniformExactlyWhenFresh(m, registered, edit, v, e.now);
      }
    case Create(t, id) => CreateKeepsUniform(cfg.ids, m, registered, cfg.defaultID, t, id, e.now);
    case Move(c, p) => MoveKeepsUniform(cfg.ids, m, registered, c, p);
    case _ =>
  }

  /** Without such a race, every family is filed whole in every reachable state. */
  lemma {:induction false} FreshRunsKeepFamiliesWhole(db: Database, cfg: Config, es: seq<Event>)
    requires Good(db, cfg) && LegalRun(db, cfg, es) && Uniform(db.tests) && AllFresh(db, cfg, es)
    ensures Uniform(Exec(db, cfg, es).tests)
    decreases |es|
  {
    if |es| > 0 {
      StepKeepsUniform(db, cfg, es[0]);
      StepIsSafe(db, cfg, es[0]);
      FreshRunsKeepFamiliesWhole(Step(db, cfg, es[0]), cfg, es[1..]);
    }
  }

  /** The race, in any good state: an editor reads, the test is moved, the editor writes. Both are told
      they succeeded, yet the test is back in its old project, and listed in both. */
  lemma {:induction false} MoveIsUndone(db: Database, cfg: Config, s: Id, t: Test, c: Id, q: Id, versionID: Id, now: Time)
    requires Good(db, cfg) && Legal(db, cfg, Event(Read(s, t), now))
    requires cfg.ids.canon(t.id) == Some(c) && HasFamily(db.tests, c)
    requires q in db.projects && q != Latest(db.tests, c).projectID
    requires versionID !in db.tests && versionID != ""
    ensures var db1 := Step(Step(db, cfg, Event(Read(s, t), now)), cfg, Event(Move(c, q), now));
      var p := Latest(db.tests, c).projectID;
      && db1.tests == Moved(db.tests, c, q)
      && Legal(db1, cfg, Event(Write(s, versionID), now))
      && WriteReply(db1, s, versionID, now).1.Ok?
      && var m' := Step(db1, cfg, Event(Write(s, versionID), now)).tests;
      && HasFamily(m', c) && LatestID(m', c) == versionID && m'[versionID].projectID == p
      && ListedUnder(m', cfg.ids, p, c) && ListedUnder(m', cfg.ids, q, c)
  {
    FamilyIsStored(db.tests, cfg.ids, db.projects.Keys, c);
    ReadThenMove(db, cfg, s, t, c, q, now);
    MoveThenWrite(db.tests, db.projects.Keys, t, c, q, versionID, now, cfg.ids);
  }

  lemma {:induction false} ReadThenMove(db: Database, cfg: Config, s: Id, t: Test, c: Id, q: Id, now: Time)
    requires Legal(db, cfg, Event(Read(s, t), now)) && cfg.ids.canon(t.id) == Some(c) && HasFamily(db.tests, c)
    requires Sql.Stored(cfg.ids, c) && q in db.projects && Sql.Stored(cfg.ids, q)
    ensures Step(Step(db, cfg, Event(Read(s, t), now)), cfg, Event(Move(c, q), now)) ==
      Database(db.projects, Moved(db.tests, c, q), now, db.sessions[s := Editing(Sql.ReadLatest(db.tests, t, c))])
  {
  }

  ghost predicate ListedUnder(m: Rows, ids: Sql.Ids, p: Id, c: Id) {
    var list := Sql.SelectForProject(ids, m, p);
    list.Ok? && exists t :: t in list.value && t.id == c
  }

  lemma {:induction false} RowIsListed(m: Rows, ids: Sql.Ids, v: Id)
    requires Keyed(m) && v in m && Sql.Stored(ids, m[v].projectID)
    ensures ListedUnder(m, ids, m[v].projectID, m[v].id)
  {
    var f := FiledUnder(m, m[v].projectID);
    Sql.SelectLatestIsCatalogue(f);
    assert f[v] == m[v];
    CatalogueHasGet(f, m[v].id);
  }

  lemma {:induction false} MovedStaysReadable(m: Rows, c: Id, q: Id)
    requires Keyed(m) && GapFree(m) && HasFamily(m, c)
    ensures var m1 := Moved(m, c, q);
      && Keyed(m1) && GapFree(m1) && HasFamily(m1, c) && LatestID(m1, c) == LatestID(m, c)
      && m1[LatestID(m, c)] == Latest(m, c).(projectID := q)
      && FamilyCreatedAt(m1, c) == FamilyCreatedAt(m, c)
      && 1 <= Latest(m, c).version
  {
    MoveChangesOnlyTheProject(m, c, q);
    SameKeys(m, Moved(m, c, q));
    SameGaps(m, Moved(m, c, q));
    SameFamilies(m, Moved(m, c, q), c);
    SameLatest(m, Moved(m, c, q), c);
    var l := LatestID(m, c);
    assert 1 <= m[l].version;
  }

  lemma {:induction false} MoveThenWrite(m: Rows, registered: set<Id>, t: Test, c: Id, q: Id, versionID: Id, now: Time, ids: Sql.Ids)
    requires Keyed(m) && GapFree(m) && Filed(m, registered) && Sql.StoredIds(ids, m, registered)
    requires HasFamily(m, c) && q in registered && versionID !in m && versionID != ""
    ensures var p := Latest(m, c).projectID;
      var (m2, r) := Sql.InsertVersion(Moved(m, c, q), registered, Sql.ReadLatest(m, t, c), versionID, now);
      && r.Ok? && HasFamily(m2, c) && LatestID(m2, c) == versionID
      && m2[versionID].projectID == p
      && ListedUnder(m2, ids, p, c) && ListedUnder(m2, ids, q, c)
  {
    var m1, e := Moved(m, c, q), Sql.ReadLatest(m, t, c);
    MovedStaysReadable(m, c, q);
    assert Latest(m, c).projectID in registered;
    Sql.InsertOutcome(m1, registered, e, versionID, now);
    WrittenAfterMove(m1, registered, e, versionID, now, ids);
  }

  lemma {:induction false} WrittenAfterMove(m: Rows, registered: set<Id>, e: Sql.Edit, versionID: Id, now: Time, ids: Sql.Ids)
    requires Keyed(m) && GapFree(m) && Sql.ReadEarlier(m, e) && versionID !in m && versionID != ""
    requires Sql.InsertVersion(m, registered, e, versionID, now).1.Ok?
    requires Sql.Stored(ids, e.projectID) && Sql.Stored(ids, Latest(m, e.c).projectID)
    ensures var m' := Sql.InsertVersion(m, registered, e, versionID, now).0;
      && HasFamily(m', e.c) && LatestID(m', e.c) == versionID
      && m'[versionID].projectID == e.projectID
      && ListedUnder(m', ids, e.projectID, e.c)
      && ListedUnder(m', ids, Latest(m, e.c).projectID, e.c)
  {
    var change := WriteChange(m, registered, e, versionID, now);
    ExtendKeepsKeys(m, change.row, now);
    ExtendMovesOneLatest(m, change.row, now);
    var m', l := With(m, change.row), LatestID(m, e.c);
    assert m'[l] == m[l];
    RowIsListed(m', ids, l);
    RowIsListed(m', ids, versionID);
  }
}
