/** The Postgres store (backend/internal/store/postgres/postgres.go), with no other session between the
    statements of one call: each method takes the database where the machine of Editors, which interleaves
    the statements, takes it when one session runs alone. */
module Postgres {
  import opened Model
  import opened Catalog
  import P = Projects
  import E = Editors
  import Sql

  predicate IsFirst(m: Rows, c: Id, v: Id) {
    v in m && m[v].id == c && forall w | w in m && m[w].id == c :: m[v].updatedAt <= m[w].updatedAt
  }

  lemma {:induction false} FirstExists(m: Rows, c: Id)
    requires HasFamily(m, c)
    ensures exists v :: v in m && IsFirst(m, c, v)
  {
    var t := FamilyCreatedAt(m, c);
    assert IsFamilyCreatedAt(m, c, t);
    var v :| v in m && m[v].id == c && m[v].updatedAt == t;
    assert IsFirst(m, c, v);
  }

  lemma {:induction false} FirstIsCreation(m: Rows, c: Id, v: Id)
    requires HasFamily(m, c) && IsFirst(m, c, v)
    ensures m[v].updatedAt == FamilyCreatedAt(m, c)
  {
    CreatedAtIsUnique(m, c, m[v].updatedAt);
  }

  class DB {
    var projects: P.Registry
    var tests: Rows
    var clock: Time // the database's own
    const cfg: E.Config

    ghost function Abs(): E.Database
      reads this
    {
      E.Database(projects, tests, clock, map[])
    }

    /** What every interleaving keeps: versions 1..n, no dangling project, one default. */
    ghost predicate Valid()
      reads this
    {
      E.Good(Abs(), cfg)
    }

    constructor (cfg: E.Config, defaultName: string, now: Time)
      requires Sql.Stored(cfg.ids, cfg.defaultID) && cfg.defaultID != ""
      ensures Valid() && this.cfg == cfg && tests == map[] && projects.Keys == {cfg.defaultID}
    {
      this.cfg := cfg;
      projects := map[cfg.defaultID := Project(cfg.defaultID, defaultName, now, true)];
      tests, clock := map[], now;
    }

    method GetTest(c: Id) returns (r: Result<Test>)
      requires Keyed(tests)
      ensures r == Sql.GetTest(cfg.ids, tests, c)
    {
      var id := cfg.ids.canon(c);
      if id.None? {
        return Err(Internal);
      }
      if !HasFamily(tests, id.value) {
        return Err(NotFound);
      }
      var v := Newest(tests, id.value);
      var created := CatalogCreatedAt(tests, id.value);
      r := Ok(tests[v].(createdAt := created));
    }

    /** ORDER BY version DESC LIMIT 1. */
    static method Newest(m: Rows, c: Id) returns (v: Id)
      requires Keyed(m) && HasFamily(m, c)
      ensures v == LatestID(m, c)
    {
      assert IsLatest(m, c, LatestID(m, c));
      v :| v in m && IsLatest(m, c, v);
      LatestIsUnique(m, c, v);
    }

    /** MIN(created_at) OVER (PARTITION BY catalog_id). */
    static method CatalogCreatedAt(m: Rows, c: Id) returns (t: Time)
      requires HasFamily(m, c)
      ensures t == FamilyCreatedAt(m, c)
    {
      FirstExists(m, c);
      var v :| v in m && IsFirst(m, c, v);
      FirstIsCreation(m, c, v);
      t := m[v].updatedAt;
    }

    method CreateTest(t: Test, id: Id, now: Time) returns (r: Result<Test>)
      requires Valid() && E.Legal(Abs(), cfg, E.Event(E.Create(t, id), now))
      modifies this
      ensures Valid()
      ensures Abs() == E.Step(old(Abs()), cfg, E.Event(E.Create(t, id), now))
      ensures r == E.CreateReply(old(Abs()), cfg, t, id, now).1
    {
      ghost var before := Abs();
      tests, r := InsertTest(cfg, tests, projects.Keys, t, id, now);
      clock := now;
      Landed(before, cfg, E.Event(E.Create(t, id), now), Abs());
    }

    static method InsertTest(cfg: E.Config, m: Rows, registered: set<Id>, t: Test, id: Id, now: Time)
      returns (m': Rows, r: Result<Test>)
      ensures (m', r) == Sql.CreateTest(cfg.ids, m, registered, cfg.defaultID, t, id, now)
    {
      m' := m;
      if t.projectID != "" {
        if !cfg.ids.parses(t.projectID) {
          return m, Err(InvalidReference);
        }
      }
      var projectID := if t.projectID == "" then Some(cfg.defaultID) else cfg.ids.canon(t.projectID);
      if projectID.None? {
        return m, Err(Internal);
      }
      if projectID.value !in registered {
        return m, Err(if t.projectID == "" then Internal else InvalidReference);
      }
      var t := t.(id := id, versionID := id, version := 1, projectID := projectID.value, createdAt := now, updatedAt := now);
      m' := m[id := t];
      r := Ok(t);
    }

    method UpdateTest(t: Test, versionID: Id, now: Time) returns (r: Result<Test>)
      requires Valid() && E.Legal(Abs(), cfg, E.Event(E.Read("", t), now)) && versionID !in tests && versionID != ""
      modifies this
      ensures Valid()
      ensures Abs() == E.EditAlone(old(Abs()), cfg, "", t, versionID, now)
      ensures r == Sql.UpdateTest(cfg.ids, old(tests), projects.Keys, t, versionID, now).1
    {
      ghost var before := Abs();
      E.GoodIsKeyed(before, cfg);
      r := ReadAndInsert(t, versionID, now);
      clock := now;
      EditLanded(before, cfg, t, versionID, now, Abs());
    }

    /** The two statements of UpdateTest. */
    method ReadAndInsert(t: Test, versionID: Id, now: Time) returns (r: Result<Test>)
      requires Keyed(tests)
      modifies this`tests
      ensures (tests, r) == Sql.UpdateTest(cfg.ids, old(tests), projects.Keys, t, versionID, now)
    {
      var latest := GetTest(t.id);
      if latest.Err? {
        return latest;
      }
      r := UpdateTestAtVersion(t, cfg.ids.canon(t.id).value, latest.value.version + 1, latest.value.projectID,
                               latest.value.createdAt, versionID, now);
    }

    /** c is t.id as the database reads it. */
    method UpdateTestAtVersion(t: Test, c: Id, version: int, projectID: Id, familyCreatedAt: Time, versionID: Id, now: Time)
      returns (r: Result<Test>)
      modifies this`tests
      ensures (tests, r) ==
        Sql.InsertVersion(old(tests), projects.Keys, Sql.Edit(t, c, version, projectID, familyCreatedAt), versionID, now)
    {
      var t := t;
      if HasVersion(tests, c, version) {
        return Err(Conflict);
      }
      if projectID !in projects {
        return Err(Internal);
      }
      t := t.(versionID := versionID, version := version, updatedAt := now);
      t := t.(projectID := projectID, createdAt := familyCreatedAt);
      tests := tests[versionID := t.(id := c)];
      r := Ok(t);
    }

    method MoveTest(c: Id, p: Id, now: Time) returns (r: Option<Error>)
      requires Valid() && E.Legal(Abs(), cfg, E.Event(E.Move(c, p), now))
      modifies this
      ensures Valid()
      ensures Abs() == E.Step(old(Abs()), cfg, E.Event(E.Move(c, p), now))
      ensures r == Sql.MoveTest(cfg.ids, old(tests), projects.Keys, c, p).1
    {
      ghost var before := Abs();
      tests, r := UpdateProject(cfg.ids, tests, projects.Keys, c, p);
      clock := now;
      Landed(before, cfg, E.Event(E.Move(c, p), now), Abs());
    }

    static method UpdateProject(ids: Sql.Ids, m: Rows, registered: set<Id>, c: Id, p: Id) returns (m': Rows, r: Option<Error>)
      ensures (m', r) == Sql.MoveTest(ids, m, registered, c, p)
    {
      m' := m;
      if !ids.parses(p) {
        return m, Some(InvalidReference);
      }
      if !ids.parses(c) {
        return m, Some(NotFound);
      }
      var test, project := ids.canon(c), ids.canon(p);
      if test.None? || project.None? {
        return m, Some(Internal);
      }
      var affected;
      m', affected, r := Refile(m, registered, test.value, project.value);
      if r.None? && affected == 0 {
        return m', Some(NotFound);
      }
    }

    /** UPDATE tests SET project_id: the foreign key is checked for the rows it writes. */
    static method Refile(m: Rows, registered: set<Id>, c: Id, p: Id) returns (m': Rows, affected: nat, err: Option<Error>)
      ensures m' == if p in registered then Moved(m, c, p) else m
      ensures affected == |Family(m, c)| && (affected == 0 <==> !HasFamily(m, c))
      ensures affected == 0 ==> m' == m
      ensures err == if affected > 0 && p !in registered then Some(InvalidReference) else None
    {
      var rows := Family(m, c);
      AffectedRows(m, c, p);
      m', affected, err := m, |rows|, None;
      if affected > 0 && p !in registered {
        return m, affected, Some(InvalidReference);
      }
      m' := map v | v in m :: if v in rows then m[v].(projectID := p) else m[v];
    }

    method CreateProject(name: string, id: Id, now: Time) returns (r: Result<Project>)
      requires Valid() && E.Legal(Abs(), cfg, E.Event(E.AddProject(name, id), now))
      modifies this
      ensures Valid()
      ensures Abs() == E.Step(old(Abs()), cfg, E.Event(E.AddProject(name, id), now))
      ensures r.Ok? <==> !P.NameTaken(old(projects), name)
      ensures r == if r.Ok? then Ok(Project(id, name, now, false)) else Err(Conflict)
    {
      ghost var before := Abs();
      if exists k :: k in projects && projects[k].name == name {
        r := Err(Conflict);
      } else {
        r := Ok(Project(id, name, now, false));
        projects := projects[id := r.value];
      }
      clock := now;
      Landed(before, cfg, E.Event(E.AddProject(name, id), now), Abs());
    }

    method RenameProject(id: Id, name: string, now: Time) returns (r: Result<Project>)
      requires Valid() && E.Legal(Abs(), cfg, E.Event(E.Rename(id, name), now))
      modifies this
      ensures Valid()
      ensures Abs() == E.Step(old(Abs()), cfg, E.Event(E.Rename(id, name), now))
      ensures r == Sql.RenameProject(cfg.ids, old(projects), id, name).1
    {
      ghost var before := Abs();
      projects, r := UpdateName(cfg.ids, projects, id, name);
      clock := now;
      Landed(before, cfg, E.Event(E.Rename(id, name), now), Abs());
    }

    static method UpdateName(ids: Sql.Ids, ps: P.Registry, id: Id, name: string) returns (ps': P.Registry, r: Result<Project>)
      ensures (ps', r) == Sql.RenameProject(ids, ps, id, name)
    {
      ps' := ps;
      if !ids.parses(id) {
        return ps, Err(NotFound);
      }
      var key := ids.canon(id);
      if key.None? {
        return ps, Err(Internal);
      }
      var p := key.value;
      if p !in ps {
        return ps, Err(NotFound);
      }
      if exists k :: k in ps && ps[k].id != p && ps[k].name == name {
        return ps, Err(Conflict);
      }
      var renamed := ps[p].(name := name);
      ps' := ps[p := renamed];
      r := Ok(renamed);
    }

    method DeleteProject(id: Id, now: Time) returns (r: Option<Error>)
      requires Valid() && E.Legal(Abs(), cfg, E.Event(E.Check("", id), now))
      modifies this
      ensures Valid()
      ensures Abs() == E.DeleteAlone(old(Abs()), cfg, "", id, now)
      ensures r == Sql.DeleteProject(cfg.ids, tests, old(projects), id).1
    {
      ghost var before := Abs();
      projects, r := DeleteRow(cfg.ids, tests, projects, id);
      clock := now;
      DeleteLanded(before, cfg, id, now, Abs());
    }

    static method DeleteRow(ids: Sql.Ids, m: Rows, ps: P.Registry, id: Id) returns (ps': P.Registry, r: Option<Error>)
      ensures (ps', r) == Sql.DeleteProject(ids, m, ps, id)
    {
      ps' := ps;
      if !ids.parses(id) {
        return ps, Some(NotFound);
      }
      var key := ids.canon(id);
      if key.None? {
        return ps, Some(Internal);
      }
      if key.value !in ps {
        return ps, Some(NotFound);
      }
      if ps[key.value].isDefault {
        return ps, Some(Protected);
      }
      if NamesProject(m, key.value) {
        return ps, Some(NotEmpty);
      }
      ps' := ps - {key.value};
      r := None;
    }
  }

  /** A database that has taken the step is good again. */
  lemma {:induction false} Landed(before: E.Database, cfg: E.Config, e: E.Event, after: E.Database)
    requires E.Good(before, cfg) && E.Legal(before, cfg, e) && after == E.Step(before, cfg, e)
    ensures E.Good(after, cfg)
  {
    E.StepIsSafe(before, cfg, e);
  }

  lemma {:induction false} EditLanded(before: E.Database, cfg: E.Config, t: Test, versionID: Id, now: Time, after: E.Database)
    requires E.Good(before, cfg) && E.Legal(before, cfg, E.Event(E.Read("", t), now))
    requires versionID !in before.tests && versionID != ""
    requires after == E.Database(
      before.projects, Sql.UpdateTest(cfg.ids, before.tests, before.projects.Keys, t, versionID, now).0, now, before.sessions)
    ensures E.Good(after, cfg) && after == E.EditAlone(before, cfg, "", t, versionID, now)
  {
    E.EditAloneIsUpdateTest(before, cfg, "", t, versionID, now);
    E.EditAloneIsGood(before, cfg, "", t, versionID, now);
  }

  lemma {:induction false} DeleteLanded(before: E.Database, cfg: E.Config, id: Id, now: Time, after: E.Database)
    requires E.Good(before, cfg) && E.Legal(before, cfg, E.Event(E.Check("", id), now))
    requires after == E.Database(Sql.DeleteProject(cfg.ids, before.tests, before.projects, id).0, before.tests, now, before.sessions)
    ensures E.Good(after, cfg) && after == E.DeleteAlone(before, cfg, "", id, now)
  {
    E.DeleteAloneIsDeleteProject(before, cfg, "", id, now);
    E.DeleteAloneIsGood(before, cfg, "", id, now);
  }

  lemma {:induction false} AffectedRows(m: Rows, c: Id, p: Id)
    ensures Family(m, c) == {} <==> !HasFamily(m, c)
    ensures |Family(m, c)| == 0 <==> !HasFamily(m, c)
    ensures Moved(m, c, p) == map v | v in m :: if v in Family(m, c) then m[v].(projectID := p) else m[v]
    ensures !HasFamily(m, c) ==> Moved(m, c, p) == m
  {
    if HasFamily(m, c) {
      var v :| v in m && m[v].id == c;
      assert v in Family(m, c);
    }
  }
}
