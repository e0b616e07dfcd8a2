/** The in-memory stores (backend/internal/store/memstore). Each method body runs under the source's
    lock and is one atomic step; fresh ids and the clock are parameters. Go iterates over a map in an
    unspecified order: here a loop takes any key that is left. */
module MemStore {
  import opened Model
  import opened Ordering
  import opened Catalog
  import opened CatalogLists
  import opened Runs
  import P = Projects

  class ProjectStore {
    var projects: P.Registry

    constructor (now: Time)
      ensures projects == P.Seeded(now)
    {
      projects := P.Seeded(now);
    }

    method ListProjects() returns (out: seq<Project>)
      requires forall k | k in projects :: projects[k].id == k
      ensures Enumerates(out, projects.Values) && Sorted(out, P.NameBefore)
    {
      var rest := projects.Keys;
      out := [];
      while rest != {}
        invariant rest <= projects.Keys
        invariant Enumerates(out, set k | k in projects && k !in rest :: projects[k])
      {
        var k :| k in rest;
        var done := set j | j in projects && j !in rest :: projects[j];
        assert projects[k] !in done;
        assert (set j | j in projects && j !in rest - {k} :: projects[j]) == done + {projects[k]};
        out := out + [projects[k]];
        rest := rest - {k};
      }
      assert (set k | k in projects && k !in rest :: projects[k]) == projects.Values;
      P.NamesAreOrdered();
      out := SortSlice(out, P.NameBefore);
    }

    method CreateProject(p: Project, id: Id, now: Time) returns (r: Result<Project>)
      requires id !in projects
      modifies this
      ensures (projects, r) == P.CreateProject(old(projects), p, id, now)
    {
      var rest := projects.Keys;
      while rest != {}
        invariant rest <= projects.Keys
        invariant forall k | k in projects && k !in rest :: projects[k].name != p.name
      {
        var k :| k in rest;
        if projects[k].name == p.name {
          return Err(Conflict);
        }
        rest := rest - {k};
      }
      var created := p.(id := id, createdAt := now);
      projects := projects[id := created];
      r := Ok(created);
    }

    method RenameProject(id: Id, name: string) returns (r: Result<Project>)
      modifies this
      ensures (projects, r) == P.RenameProject(old(projects), id, name)
    {
      if id !in projects {
        return Err(NotFound);
      }
      var rest := projects.Keys;
      while rest != {}
        invariant rest <= projects.Keys
        invariant forall k | k in projects && k !in rest :: projects[k].id == id || projects[k].name != name
      {
        var k :| k in rest;
        if projects[k].id != id && projects[k].name == name {
          return Err(Conflict);
        }
        rest := rest - {k};
      }
      var renamed := projects[id].(name := name);
      projects := projects[id := renamed];
      r := Ok(renamed);
    }

    method Exists(id: Id) returns (ok: bool)
      ensures ok <==> id in projects
    {
      ok := id in projects;
    }

    method DeleteProject(id: Id) returns (r: Option<Error>)
      modifies this
      ensures (projects, r) == P.DeleteProject(old(projects), id)
    {
      if id !in projects {
        return Some(NotFound);
      }
      if projects[id].isDefault {
        return Some(Protected);
      }
      projects := projects - {id};
      r := None;
    }
  }

  lemma {:induction false} CreationIsOrdered()
    ensures StrictWeakOrder(Newer) && StrictWeakOrder(HigherVersion) && StrictWeakOrder(NewerRun)
  {
  }

  /** What the scans rely on. */
  ghost predicate Readable(m: Rows) {
    Keyed(m) && forall v | v in m :: m[v].updatedAt != ZERO_TIME
  }

  lemma {:induction false} MoveKeepsStore(m: Rows, c: Id, p: Id)
    requires Readable(m) && Rooted(m)
    ensures Readable(Moved(m, c, p)) && Rooted(Moved(m, c, p))
  {
    MoveChangesOnlyTheProject(m, c, p);
    SameKeys(m, Moved(m, c, p));
    SameRoots(m, Moved(m, c, p));
  }

  lemma {:induction false} ExtendKeepsStore(m: Rows, row: Test, now: Time)
    requires Readable(m) && Rooted(m) && Extends(m, row, now) && now != ZERO_TIME
    ensures Readable(With(m, row)) && Rooted(With(m, row))
  {
    ExtendKeepsKeys(m, row, now);
    ExtendKeepsRoots(m, row, now);
  }

  class TestStore {
    var tests: Rows
    const projects: ProjectStore

    /** What the store relies on: distinct versions within a family, families named after their first
        version, and a clock never at zero. */
    ghost predicate Valid()
      reads this
    {
      Readable(tests) && Rooted(tests)
    }

    constructor (projects: ProjectStore)
      ensures Valid() && tests == map[] && this.projects == projects
    {
      this.projects := projects;
      tests := map[];
    }

    method CreateTest(t: Test, id: Id, now: Time) returns (r: Result<Test>)
      requires Valid() && id !in tests && id != "" && now != ZERO_TIME
      modifies this
      ensures Valid()
      ensures (tests, r) == Catalog.CreateTest(old(tests), projects.projects.Keys, P.DEFAULT_PROJECT_ID, t, id, now)
    {
      var t := t;
      if t.projectID == "" {
        t := t.(projectID := P.DEFAULT_PROJECT_ID);
      } else {
        var known := projects.Exists(t.projectID);
        if !known {
          return Err(InvalidReference);
        }
      }
      CreateExtends(tests, t, id, now);
      t := t.(id := id, versionID := id, version := 1, createdAt := now, updatedAt := now);
      ExtendKeepsStore(tests, t, now);
      tests := tests[id := t];
      r := Ok(t);
    }

    method LatestLocked(c: Id) returns (found: Option<Test>)
      requires Readable(tests)
      ensures found.Some? <==> HasFamily(tests, c)
      ensures found.Some? ==> found.value == Latest(tests, c)
    {
      var rest := tests.Keys;
      found := None;
      while rest != {}
        invariant rest <= tests.Keys
        invariant found.None? ==> forall v | v in tests && v !in rest :: tests[v].id != c
        invariant found.Some? ==>
          && found.value.versionID in tests && tests[found.value.versionID] == found.value && found.value.id == c
          && forall v | v in tests && v !in rest && tests[v].id == c :: tests[v].version <= found.value.version
      {
        var v :| v in rest;
        if tests[v].id == c && (found.None? || tests[v].version > found.value.version) {
          found := Some(tests[v]);
        }
        rest := rest - {v};
      }
      if found.Some? {
        LatestIsUnique(tests, c, found.value.versionID);
      }
    }

    method FamilyCreatedAt(c: Id) returns (earliest: Time)
      requires Readable(tests)
      ensures earliest == Catalog.FamilyCreatedAt(tests, c)
    {
      var rest := tests.Keys;
      earliest := ZERO_TIME;
      while rest != {}
        invariant rest <= tests.Keys
        invariant earliest == ZERO_TIME ==> forall v | v in tests && v !in rest :: tests[v].id != c
        invariant earliest != ZERO_TIME ==>
          && (exists v :: v in tests && tests[v].id == c && tests[v].updatedAt == earliest)
          && forall v | v in tests && v !in rest && tests[v].id == c :: earliest <= tests[v].updatedAt
      {
        var v :| v in rest;
        rest := rest - {v};
        if tests[v].id != c {
          continue;
        }
        if earliest == ZERO_TIME || tests[v].updatedAt < earliest {
          earliest := tests[v].updatedAt;
        }
      }
      CreatedAtIsUnique(tests, c, earliest);
    }

    method GetTest(c: Id) returns (r: Result<Test>)
      requires Readable(tests)
      ensures r == if HasFamily(tests, c) then Ok(Get(tests, c)) else Err(NotFound)
    {
      var latest := LatestLocked(c);
      if latest.None? {
        return Err(NotFound);
      }
      var created := FamilyCreatedAt(c);
      r := Ok(latest.value.(createdAt := created));
    }

    method UpdateTest(t: Test, versionID: Id, now: Time) returns (r: Result<Test>)
      requires Valid() && versionID !in tests && versionID != "" && now != ZERO_TIME
      modifies this
      ensures Valid()
      ensures (tests, r) == Catalog.UpdateTest(old(tests), t, versionID, now)
    {
      var latest := LatestLocked(t.id);
      if latest.None? {
        return Err(NotFound);
      }
      var created := FamilyCreatedAt(t.id);
      ghost var before := tests;
      var t := t.(projectID := latest.value.projectID, versionID := versionID,
                  version := latest.value.version + 1, createdAt := created, updatedAt := now);
      EditExtends(before, t, versionID, now);
      ExtendKeepsStore(before, t, now);
      tests := tests[versionID := t];
      r := Ok(t);
    }

    method MoveTest(c: Id, p: Id) returns (r: Option<Error>)
      requires Valid()
      modifies this
      ensures Valid()
      ensures (tests, r) == Catalog.MoveTest(old(tests), projects.projects.Keys, c, p)
    {
      var known := projects.Exists(p);
      if !known {
        return Some(InvalidReference);
      }
      var moved;
      MoveKeepsStore(tests, c, p);
      tests, moved := Refile(tests, c, p);
      if !moved {
        return Some(NotFound);
      }
      r := None;
    }

    /** The loop of MoveTest. */
    static method Refile(m: Rows, c: Id, p: Id) returns (m': Rows, moved: bool)
      ensures m' == Moved(m, c, p)
      ensures moved <==> HasFamily(m, c)
      ensures !moved ==> m' == m
    {
      var rest := m.Keys;
      m', moved := m, false;
      assert m' == MovedExcept(m, rest, c, p);
      while rest != {}
        invariant rest <= m.Keys
        invariant m' == MovedExcept(m, rest, c, p)
        invariant moved ==> HasFamily(m, c)
        invariant !moved ==> m' == m && forall v | v in m && v !in rest :: m[v].id != c
      {
        var v :| v in rest;
        MovedExceptStep(m, rest, v, c, p);
        rest := rest - {v};
        if m[v].id != c {
          continue;
        }
        m' := m'[v := m'[v].(projectID := p)];
        moved := true;
      }
      assert MovedExcept(m, {}, c, p) == Moved(m, c, p);
    }

    method ListTests() returns (out: seq<Test>)
      requires Readable(tests)
      ensures Listing(out, Catalogue(tests), Newer)
    {
      var latest := LatestPerFamily();
      var unsorted := DatedLatest(latest);
      DatedFromAll(tests, latest);
      CreationIsOrdered();
      out := SortSlice(unsorted, Newer);
    }

    /** The second pass of ListTests. */
    method DatedLatest(latest: map<Id, Test>) returns (out: seq<Test>)
      requires Readable(tests)
      requires forall c | c in latest :: latest[c].id == c
      ensures Enumerates(out, DatedFrom(tests, latest, latest.Keys))
    {
      ghost var m := tests;
      var rest := latest.Keys;
      out := [];
      while rest != {}
        invariant rest <= latest.Keys
        invariant Enumerates(out, DatedFrom(m, latest, latest.Keys - rest))
      {
        var c :| c in rest;
        var created := FamilyCreatedAt(latest[c].id);
        var t := latest[c].(createdAt := created);
        ghost var done := latest.Keys - rest;
        DatedFromStep(m, latest, done, c, t);
        assert latest.Keys - (rest - {c}) == done + {c};
        EnumerateOneMore(out, DatedFrom(m, latest, done), t, DatedFrom(m, latest, done + {c}));
        out := out + [t];
        rest := rest - {c};
      }
      assert latest.Keys - {} == latest.Keys;
    }

    /** The first pass of ListTests. */
    method LatestPerFamily() returns (latest: map<Id, Test>)
      requires Readable(tests)
      ensures forall c :: c in latest <==> HasFamily(tests, c)
      ensures forall c | c in latest :: latest[c] == Latest(tests, c)
    {
      var m := tests;
      var rest := m.Keys;
      latest := map[];
      while rest != {}
        invariant rest <= m.Keys
        invariant forall c | c in latest ::
          latest[c].versionID in m && m[latest[c].versionID] == latest[c] && latest[c].id == c
        invariant forall v | v in m && v !in rest ::
          m[v].id in latest && m[v].version <= latest[m[v].id].version
      {
        var v :| v in rest;
        var t := m[v];
        if t.id !in latest || t.version > latest[t.id].version {
          latest := latest[t.id := t];
        }
        rest := rest - {v};
      }
      forall c | c in latest ensures HasFamily(m, c) && latest[c] == Latest(m, c) {
        LatestIsUnique(m, c, latest[c].versionID);
      }
    }

    method ListTestsForProject(p: Id) returns (out: seq<Test>)
      requires Readable(tests)
      ensures Listing(out, CollapseThenFilter(tests, p), Newer)
    {
      var all := ListTests();
      out := [];
      for i := 0 to |all|
        invariant out == SelectProject(all[..i], p)
      {
        assert all[..i + 1][..i] == all[..i];
        if all[i].projectID == p {
          out := out + [all[i]];
        }
      }
      assert all[..|all|] == all;
      SelectKeepsListing(all, Catalogue(tests), p, Newer);
    }

    method ListTestVersions(c: Id) returns (out: seq<Test>)
      requires Readable(tests)
      ensures Listing(out, Versions(tests, c), HigherVersion)
    {
      var created := FamilyCreatedAt(c);
      var unsorted := RowsOfFamily(tests, c, created);
      assert Redated(tests, Family(tests, c), created) == Versions(tests, c);
      CreationIsOrdered();
      out := SortSlice(unsorted, HigherVersion);
    }

    /** The loop of ListTestVersions. */
    static method RowsOfFamily(m: Rows, c: Id, created: Time) returns (out: seq<Test>)
      requires Keyed(m)
      ensures Enumerates(out, Redated(m, Family(m, c), created))
    {
      var rest := m.Keys;
      ghost var family := Family(m, c);
      out := [];
      while rest != {}
        invariant rest <= m.Keys
        invariant Enumerates(out, Redated(m, family - rest, created))
      {
        var v :| v in rest;
        if m[v].id == c {
          var row := m[v].(createdAt := created);
          RedatedStep(m, family - rest, v, created);
          assert family - (rest - {v}) == family - rest + {v};
          EnumerateOneMore(out, Redated(m, family - rest, created), row, Redated(m, family - rest + {v}, created));
          out := out + [row];
        } else {
          assert family - (rest - {v}) == family - rest;
        }
        rest := rest - {v};
      }
      assert family - {} == family;
    }
  }

  class RunStore {
    var runs: RunTable
    var snapshots: Snapshots

    constructor ()
      ensures runs == map[] && snapshots == map[]
    {
      runs, snapshots := map[], map[];
    }

    method CreateRun(r: Run, id: Id, now: Time) returns (created: Run)
      requires id !in runs
      modifies this`runs
      ensures created == NewRun(r, id, now)
      ensures runs == old(runs)[id := created]
    {
      var r := r;
      if r.testCatalogID == "" {
        r := r.(testCatalogID := r.testID);
      }
      created := r.(id := id, createdAt := now);
      runs := runs[id := created];
    }

    method GetRun(id: Id) returns (r: Result<Run>)
      ensures r == if id in runs then Ok(runs[id]) else Err(NotFound)
    {
      if id !in runs {
        return Err(NotFound);
      }
      r := Ok(runs[id]);
    }

    method ListByTest(c: Id) returns (out: seq<Run>)
      requires forall id | id in runs :: runs[id].id == id
      ensures Enumerates(out, RunsOfTest(runs, c)) && Sorted(out, NewerRun)
    {
      var rest := runs.Keys;
      ghost var ids := RunIDsOfTest(runs, c);
      out := [];
      while rest != {}
        invariant rest <= runs.Keys
        invariant Enumerates(out, RunRows(runs, ids - rest))
      {
        var id :| id in rest;
        if runs[id].testCatalogID == c {
          RunRowsStep(runs, ids - rest, id);
          assert ids - (rest - {id}) == ids - rest + {id};
          out := out + [runs[id]];
        } else {
          assert ids - (rest - {id}) == ids - rest;
        }
        rest := rest - {id};
      }
      assert ids - {} == ids;
      CreationIsOrdered();
      out := SortSlice(out, NewerRun);
    }

    method UpdateRunStatus(id: Id, status: RunStatus, errMsg: string, now: Time) returns (r: Option<Error>)
      modifies this`runs
      ensures (runs, r) == UpdateStatus(old(runs), id, status, errMsg, now)
      ensures r == if id in old(runs) then None else Some(NotFound)
    {
      if id !in runs {
        return Some(NotFound);
      }
      var run := runs[id].(status := status, errorMessage := errMsg);
      match status {
        case Running =>
          if run.startedAt.None? {
            run := run.(startedAt := Some(now));
          }
        case Completed => run := run.(completedAt := Some(now));
        case Failed => run := run.(completedAt := Some(now));
        case Stopped => run := run.(completedAt := Some(now));
        case Pending =>
      }
      runs := runs[id := run];
      r := None;
    }

    method AppendMetricSnapshot(snap: Snapshot, id: Id, now: Time) returns (r: Option<Error>)
      modifies this`snapshots
      ensures (snapshots, r) == Append(runs, old(snapshots), snap.(id := id, ts := now))
    {
      if snap.runID !in runs {
        return Some(NotFound);
      }
      var before := if snap.runID in snapshots then snapshots[snap.runID] else [];
      snapshots := snapshots[snap.runID := before + [snap.(id := id, ts := now)]];
      r := None;
    }

    method LatestSnapshot(id: Id) returns (r: Result<Snapshot>)
      ensures r == LatestOf(snapshots, id)
    {
      var list := if id in snapshots then snapshots[id] else [];
      if |list| == 0 {
        return Err(NotFound);
      }
      r := Ok(list[|list| - 1]);
    }

    method ListSnapshots(id: Id) returns (out: seq<Snapshot>)
      ensures out == HistoryOf(snapshots, id)
    {
      out := if id in snapshots then snapshots[id] else [];
    }
  }
}
