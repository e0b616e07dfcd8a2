/** The statements of the Postgres store as values (backend/internal/store/postgres/postgres.go). Every
    SQL statement is one atomic function of the tables; UpdateTest and DeleteProject are two of them. The
    table keeps, beside each row, the creation time its writer was told: no read uses it, every read
    computes the family's minimum. */
module Sql {
  import opened Model
  import opened Catalog
  import opened CatalogLists
  import P = Projects

  /** How ids are read. uuid.Parse accepts an id or not; the database reads it as the UUID it spells, in
      the one spelling under which rows come back, or refuses it. */
  datatype Ids = Ids(parses: Id -> bool, canon: Id -> Option<Id>)

  predicate Stored(ids: Ids, id: Id) { ids.parses(id) && ids.canon(id) == Some(id) }

  function Families(m: Rows): set<Id> { set v | v in m :: m[v].id }

  function NamedProjects(m: Rows): set<Id> { set v | v in m :: m[v].projectID }

  /** Rows and projects are named as the database spells ids. */
  ghost predicate StoredIds(ids: Ids, m: Rows, registered: set<Id>) {
    (forall v | v in m :: Stored(ids, m[v].id)) && forall p | p in registered :: Stored(ids, p)
  }

  /** What UpdateTest holds between its two statements; c is t.id as the database reads it. */
  datatype Edit = Edit(t: Test, c: Id, version: int, projectID: Id, createdAt: Time)

  // ---------- statements ----------

  ghost function GetTest(ids: Ids, m: Rows, c: Id): Result<Test> {
    match ids.canon(c)
    case None => Err(Internal)
    case Some(d) => if HasFamily(m, d) then Ok(Get(m, d)) else Err(NotFound)
  }

  ghost function ReadLatest(m: Rows, t: Test, c: Id): Edit
    requires HasFamily(m, c)
  {
    Edit(t, c, Latest(m, c).version + 1, Latest(m, c).projectID, FamilyCreatedAt(m, c))
  }

  function NewRow(e: Edit, versionID: Id, now: Time): Test {
    e.t.(id := e.c, projectID := e.projectID, versionID := versionID, version := e.version,
         createdAt := e.createdAt, updatedAt := now)
  }

  /** updateTestAtVersion. The unique index is checked before the foreign key, and only its violation is
      translated. The caller's struct keeps the id as the caller spelled it. */
  function InsertVersion(m: Rows, registered: set<Id>, e: Edit, versionID: Id, now: Time): (Rows, Result<Test>) {
    if HasVersion(m, e.c, e.version) then (m, Err(Conflict))
    else if e.projectID !in registered then (m, Err(Internal))
    else (m[versionID := NewRow(e, versionID, now)], Ok(NewRow(e, versionID, now).(id := e.t.id)))
  }

  /** UpdateTest with nothing between its statements. */
  ghost function UpdateTest(ids: Ids, m: Rows, registered: set<Id>, t: Test, versionID: Id, now: Time): (Rows, Result<Test>) {
    match ids.canon(t.id)
    case None => (m, Err(Internal))
    case Some(c) =>
      if !HasFamily(m, c) then (m, Err(NotFound))
      else InsertVersion(m, registered, ReadLatest(m, t, c), versionID, now)
  }

  /** An UPDATE that matches no row checks no foreign key. */
  ghost function MoveTest(ids: Ids, m: Rows, registered: set<Id>, c: Id, p: Id): (Rows, Option<Error>) {
    if !ids.parses(p) then (m, Some(InvalidReference))
    else if !ids.parses(c) then (m, Some(NotFound))
    else if ids.canon(c).None? || ids.canon(p).None? then (m, Some(Internal))
    else if !HasFamily(m, ids.canon(c).value) then (m, Some(NotFound))
    else if ids.canon(p).value !in registered then (m, Some(InvalidReference))
    else (Moved(m, ids.canon(c).value, ids.canon(p).value), None)
  }

  /** The project a created test is filed under: COALESCE of the one asked for and the default. */
  function ProjectFor(ids: Ids, registered: set<Id>, defaultID: Id, asked: Id): Result<Id> {
    if asked == "" then if defaultID in registered then Ok(defaultID) else Err(Internal)
    else if !ids.parses(asked) then Err(InvalidReference)
    else match ids.canon(asked)
      case None => Err(Internal)
      case Some(p) => if p in registered then Ok(p) else Err(InvalidReference)
  }

  function CreateTest(ids: Ids, m: Rows, registered: set<Id>, defaultID: Id, t: Test, id: Id, now: Time): (Rows, Result<Test>) {
    match ProjectFor(ids, registered, defaultID, t.projectID)
    case Err(e) => (m, Err(e))
    case Ok(p) =>
      var row := Created(t.(projectID := p), id, now);
      (m[id := row], Ok(row))
  }

  /** A project's id as RenameProject and DeleteProject look it up. */
  function ProjectID(ids: Ids, ps: P.Registry, id: Id): Result<Id> {
    if !ids.parses(id) then Err(NotFound)
    else match ids.canon(id)
      case None => Err(Internal)
      case Some(p) => if p in ps then Ok(p) else Err(NotFound)
  }

  ghost function RenameProject(ids: Ids, ps: P.Registry, id: Id, name: string): (P.Registry, Result<Project>) {
    match ProjectID(ids, ps, id)
    case Err(e) => (ps, Err(e))
    case Ok(p) => P.RenameProject(ps, p, name)
  }

  /** The first statement of DeleteProject: the project the second one is to delete. */
  function CheckProject(ids: Ids, ps: P.Registry, id: Id): Result<Id> {
    match ProjectID(ids, ps, id)
    case Err(e) => Err(e)
    case Ok(p) => if ps[p].isDefault then Err(Protected) else Ok(p)
  }

  /** The second statement of DeleteProject: the foreign key refuses to orphan a row. */
  function DropProject(m: Rows, ps: P.Registry, p: Id): (P.Registry, Option<Error>) {
    if p !in ps then (ps, Some(NotFound))
    else if NamesProject(m, p) then (ps, Some(NotEmpty))
    else (ps - {p}, None)
  }

  /** DeleteProject with nothing between its statements. */
  function DeleteProject(ids: Ids, m: Rows, ps: P.Registry, id: Id): (P.Registry, Option<Error>) {
    match CheckProject(ids, ps, id)
    case Err(e) => (ps, Some(e))
    case Ok(p) => DropProject(m, ps, p)
  }

  // ---------- the list queries ----------

  /** SELECT DISTINCT ON (catalog_id) ... ORDER BY catalog_id, version DESC. */
  ghost function SelectLatest(m: Rows): set<Test> {
    set v | v in m && IsLatest(m, m[v].id, v) :: m[v].(createdAt := FamilyCreatedAt(m, m[v].id))
  }

  /** ListTestsForProject: the same query behind WHERE project_id. */
  ghost function SelectForProject(ids: Ids, m: Rows, p: Id): Result<set<Test>> {
    if !ids.parses(p) then Ok({})
    else match ids.canon(p)
      case None => Err(Internal)
      case Some(q) => Ok(SelectLatest(FiledUnder(m, q)))
  }

  /** ListTestVersions. */
  ghost function SelectVersions(ids: Ids, m: Rows, c: Id): Result<set<Test>> {
    match ids.canon(c)
    case None => Err(Internal)
    case Some(d) => Ok(Versions(m, d))
  }

  /** The window query lists each family as GetTest returns it. */
  lemma {:induction false} SelectLatestIsCatalogue(m: Rows)
    requires Keyed(m)
    ensures SelectLatest(m) == Catalogue(m)
  {
    forall v | v in m && IsLatest(m, m[v].id, v) ensures v == LatestID(m, m[v].id) {
      LatestIsUnique(m, m[v].id, v);
    }
    forall t | t in Catalogue(m) ensures t in SelectLatest(m) {
      CatalogueIsGet(m, t);
      var v := LatestID(m, t.id);
      assert v in m && IsLatest(m, m[v].id, v);
    }
  }

  /** Unlike the memory store's, Postgres's project list is empty only if no row, old or latest, names
      the project. */
  lemma {:induction false} EmptyListMeansNoRow(m: Rows, p: Id)
    requires Keyed(m)
    ensures SelectLatest(FiledUnder(m, p)) == {} <==> !NamesProject(m, p)
  {
    var f := FiledUnder(m, p);
    SelectLatestIsCatalogue(f);
    if NamesProject(m, p) {
      var v :| v in m && m[v].projectID == p;
      assert f[v] == m[v];
      CatalogueHasGet(f, f[v].id);
    }
  }

  // ---------- an edit in two statements ----------

  /** An edit that was read from an earlier state of the same catalogue. */
  ghost predicate ReadEarlier(m: Rows, e: Edit) {
    && HasFamily(m, e.c)
    && 2 <= e.version <= Latest(m, e.c).version + 1
    && e.createdAt == FamilyCreatedAt(m, e.c)
  }

  /** The edit as the memory store would be asked for it. */
  function Asked(e: Edit): Test { e.t.(id := e.c) }

  /** The second statement of an edit: it conflicts exactly when another edit has been committed since
      the read; if it succeeds the row is the memory store's, but for the project it was read with. */
  lemma {:induction false} InsertOutcome(m: Rows, registered: set<Id>, e: Edit, versionID: Id, now: Time)
    requires Keyed(m) && GapFree(m) && ReadEarlier(m, e)
    ensures var (m', r) := InsertVersion(m, registered, e, versionID, now);
      && (r == Err(Conflict) <==> e.version <= Latest(m, e.c).version)
      && (r == Err(Internal) <==> e.version == Latest(m, e.c).version + 1 && e.projectID !in registered)
      && (r.Err? ==> m' == m)
      && (r.Ok? ==>
           && NewRow(e, versionID, now) == Edited(m, Asked(e), versionID, now).(projectID := e.projectID)
           && m' == With(m, NewRow(e, versionID, now))
           && r.value == NewRow(e, versionID, now).(id := e.t.id))
  {
    VersionsAreOneToN(m, e.c);
  }

  /** Said as a refinement: a successful edit is the memory store's atomic UpdateTest at the instant of
      the insert exactly when the family is in the project it was read in. */
  lemma {:induction false} SuccessIsAtomicExactlyWhenNotMoved(m: Rows, registered: set<Id>, e: Edit, versionID: Id, now: Time)
    requires Keyed(m) && GapFree(m) && ReadEarlier(m, e)
    requires InsertVersion(m, registered, e, versionID, now).1.Ok?
    ensures InsertVersion(m, registered, e, versionID, now).0 == Catalog.UpdateTest(m, Asked(e), versionID, now).0
      <==> e.projectID == Latest(m, e.c).projectID
  {
    InsertOutcome(m, registered, e, versionID, now);
    var m', row, edited := InsertVersion(m, registered, e, versionID, now).0, NewRow(e, versionID, now), Edited(m, Asked(e), versionID, now);
    assert m'[versionID] == row && m[versionID := edited][versionID] == edited;
  }

  // ---------- against the memory store, operation by operation ----------

  /** The stores read the id alike: it is a known one, or the database too reads none out of it. */
  predicate ReadAlike(ids: Ids, known: set<Id>, id: Id) {
    id in known || (ids.canon(id).Some? && ids.canon(id).value !in known)
  }

  /** The same for an id that is first put through uuid.Parse, where a refusal reads as unknown. */
  predicate CheckedAlike(ids: Ids, known: set<Id>, id: Id) {
    id in known || !ids.parses(id) || ReadAlike(ids, known, id)
  }

  lemma {:induction false} FamilyIsListed(m: Rows, c: Id)
    ensures HasFamily(m, c) <==> c in Families(m)
  {
    if HasFamily(m, c) {
      var v :| v in m && m[v].id == c;
    }
  }

  lemma {:induction false} GetsAgreeExactly(ids: Ids, m: Rows, registered: set<Id>, c: Id)
    requires StoredIds(ids, m, registered)
    ensures GetTest(ids, m, c) == (if HasFamily(m, c) then Ok(Get(m, c)) else Err(NotFound))
      <==> ReadAlike(ids, Families(m), c)
  {
    FamilyIsListed(m, c);
    if ids.canon(c).Some? {
      FamilyIsListed(m, ids.canon(c).value);
    }
  }

  lemma {:induction false} UpdatesAgreeExactly(ids: Ids, m: Rows, registered: set<Id>, t: Test, versionID: Id, now: Time)
    requires Keyed(m) && GapFree(m) && Filed(m, registered) && StoredIds(ids, m, registered)
    ensures UpdateTest(ids, m, registered, t, versionID, now) == Catalog.UpdateTest(m, t, versionID, now)
      <==> ReadAlike(ids, Families(m), t.id)
  {
    FamilyIsListed(m, t.id);
    if ids.canon(t.id).Some? {
      var c := ids.canon(t.id).value;
      FamilyIsListed(m, c);
      if HasFamily(m, c) {
        UndisturbedEdit(m, registered, t, c, versionID, now);
      }
    }
  }

  lemma {:induction false} UndisturbedEdit(m: Rows, registered: set<Id>, t: Test, c: Id, versionID: Id, now: Time)
    requires Keyed(m) && GapFree(m) && Filed(m, registered) && HasFamily(m, c)
    ensures InsertVersion(m, registered, ReadLatest(m, t, c), versionID, now).1.Ok?
    ensures t.id == c ==>
      InsertVersion(m, registered, ReadLatest(m, t, c), versionID, now) == Catalog.UpdateTest(m, t, versionID, now)
  {
    var l := LatestID(m, c);
    assert 1 <= m[l].version && m[l].projectID in registered;
    InsertOutcome(m, registered, ReadLatest(m, t, c), versionID, now);
  }

  lemma {:induction false} VersionListsAgreeExactly(ids: Ids, m: Rows, registered: set<Id>, c: Id)
    requires StoredIds(ids, m, registered)
    ensures SelectVersions(ids, m, c) == Ok(Versions(m, c)) <==> ReadAlike(ids, Families(m), c)
  {
    VersionsNameTheirFamily(m, c);
    if ids.canon(c).Some? {
      VersionsNameTheirFamily(m, ids.canon(c).value);
    }
  }

  lemma {:induction false} VersionsNameTheirFamily(m: Rows, c: Id)
    ensures Versions(m, c) == {} <==> c !in Families(m)
    ensures forall t | t in Versions(m, c) :: t.id == c
  {
    if c in Families(m) {
      var v :| v in m && m[v].id == c;
      assert m[v].(createdAt := FamilyCreatedAt(m, c)) in Versions(m, c);
    }
  }

  lemma {:induction false} CreatesAgreeExactly(ids: Ids, m: Rows, registered: set<Id>, defaultID: Id, t: Test, id: Id, now: Time)
    requires StoredIds(ids, m, registered) && defaultID in registered
    ensures CreateTest(ids, m, registered, defaultID, t, id, now) == Catalog.CreateTest(m, registered, defaultID, t, id, now)
      <==> t.projectID == "" || CheckedAlike(ids, registered, t.projectID)
  {
  }

  /** A move to a known project turns on the test alone. A move to an unknown one is refused alike only
      if the project's id does not parse, or Postgres finds the test and not the project either. */
  predicate MoveAlike(ids: Ids, m: Rows, registered: set<Id>, c: Id, p: Id) {
    if p in registered then CheckedAlike(ids, Families(m), c)
    else
      || !ids.parses(p)
      || (ids.parses(c) && ids.canon(c).Some? && ids.canon(c).value in Families(m) && ReadAlike(ids, registered, p))
  }

  lemma {:induction false} MovesAgreeExactly(ids: Ids, m: Rows, registered: set<Id>, c: Id, p: Id)
    requires StoredIds(ids, m, registered)
    ensures MoveTest(ids, m, registered, c, p) == Catalog.MoveTest(m, registered, c, p) <==> MoveAlike(ids, m, registered, c, p)
  {
    FamilyIsListed(m, c);
    if ids.canon(c).Some? {
      FamilyIsListed(m, ids.canon(c).value);
    }
  }

  lemma {:induction false} RenamesAgreeExactly(ids: Ids, m: Rows, ps: P.Registry, id: Id, name: string)
    requires StoredIds(ids, m, ps.Keys)
    ensures RenameProject(ids, ps, id, name) == P.RenameProject(ps, id, name) <==> CheckedAlike(ids, ps.Keys, id)
  {
  }

  /** The memory store deletes a project that still has tests; Postgres refuses to. */
  predicate DeleteAlike(ids: Ids, m: Rows, ps: P.Registry, id: Id) {
    if id in ps then ps[id].isDefault || !NamesProject(m, id) else CheckedAlike(ids, ps.Keys, id)
  }

  lemma {:induction false} DeletesAgreeExactly(ids: Ids, m: Rows, ps: P.Registry, id: Id)
    requires StoredIds(ids, m, ps.Keys)
    ensures DeleteProject(ids, m, ps, id) == P.DeleteProject(ps, id) <==> DeleteAlike(ids, m, ps, id)
  {
  }

  /** Postgres filters by project before it collapses, the memory store after. Asked for one id, they
      answer alike exactly when it is read alike, and every family with a row filed under it has its
      latest and one of its first rows filed there. */
  lemma {:induction false} ProjectListsAgreeExactly(ids: Ids, m: Rows, registered: set<Id>, p: Id)
    requires Keyed(m) && Filed(m, registered) && StoredIds(ids, m, registered)
    ensures SelectForProject(ids, m, p) == Ok(CollapseThenFilter(m, p)) <==>
      HoldsBothEnds(m, p) && CheckedAlike(ids, NamedProjects(m), p)
  {
    ListsOfUnnamed(m, p);
    if ids.canon(p).Some? {
      ListsOfUnnamed(m, ids.canon(p).value);
    }
    ProjectListAgreesExactly(m, p);
    assert p in NamedProjects(m) ==> p in registered;
  }

  /** For all the projects there are, exactly when every family is filed under one. */
  lemma {:induction false} AllProjectListsAgreeExactlyWhenUniform(ids: Ids, m: Rows, registered: set<Id>)
    requires Keyed(m) && Filed(m, registered) && StoredIds(ids, m, registered)
    ensures (forall p | p in registered :: SelectForProject(ids, m, p) == Ok(CollapseThenFilter(m, p))) <==> Uniform(m)
  {
    forall p ensures p in registered ==> SelectForProject(ids, m, p) == Ok(FilterThenCollapse(m, p)) {
      ListsOfUnnamed(m, p);
    }
    forall p | p !in registered ensures FilterThenCollapse(m, p) == CollapseThenFilter(m, p) {
      ListsOfUnnamed(m, p);
      assert p !in NamedProjects(m);
    }
    ProjectListsAgreeExactlyWhenUniform(m);
  }

  lemma {:induction false} ListsOfUnnamed(m: Rows, p: Id)
    requires Keyed(m)
    ensures SelectLatest(FiledUnder(m, p)) == FilterThenCollapse(m, p)
    ensures FilterThenCollapse(m, p) == {} <==> p !in NamedProjects(m)
    ensures p !in NamedProjects(m) ==> CollapseThenFilter(m, p) == {}
  {
    SelectLatestIsCatalogue(FiledUnder(m, p));
    EmptyListMeansNoRow(m, p);
    assert NamesProject(m, p) <==> p in NamedProjects(m);
    forall t | t in CollapseThenFilter(m, p) ensures p in NamedProjects(m) {
      CatalogueIsGet(m, t);
      assert m[LatestID(m, t.id)].projectID == p;
    }
  }
}
