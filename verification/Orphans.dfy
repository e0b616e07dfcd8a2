/** Project deletes, creates and moves over the in-memory stores without atomicity. The two stores have a
    lock each, so a create or a move looks the project up and then writes the row, and the handler of a
    delete counts the project's tests and then deletes it (backend/internal/store/memstore/memstore.go,
    backend/internal/api/projects.go). Nothing but the counting keeps a row from losing its project. */
module Orphans {
  import opened Model
  import opened Catalog
  import opened CatalogLists
  import P = Projects
  import S = System

  datatype Session =
    | Counted(p: Id)           // no test found, project not yet deleted
    | Creating(t: Test)        // project found, row not yet written
    | Moving(c: Id, p: Id)     // project found, rows not yet refiled

  datatype World = World(projects: P.Registry, tests: Rows, sessions: map<Id, Session>)

  datatype Action =
    | Count(p: Id)
    | Drop
    | Resolve(t: Test)
    | Insert(id: Id)
    | Find(c: Id, p: Id)
    | Refile
    | Edit(t: Test, versionID: Id)

  datatype Event = Event(s: Id, action: Action, now: Time)

  ghost predicate Enabled(w: World, e: Event) {
    match e.action
    case Count(_) => e.s !in w.sessions
    case Resolve(_) => e.s !in w.sessions
    case Find(_, _) => e.s !in w.sessions
    case Drop => e.s in w.sessions && w.sessions[e.s].Counted?
    case Insert(id) => e.s in w.sessions && w.sessions[e.s].Creating? && id !in w.tests && id != ""
    case Refile => e.s in w.sessions && w.sessions[e.s].Moving?
    case Edit(_, v) => v !in w.tests && v != ""
  }

  /** handleDeleteProject up to the count: the session goes on only if no latest version is found. */
  ghost predicate MayDelete(w: World, p: Id) {
    p in w.projects && !w.projects[p].isDefault && CollapseThenFilter(w.tests, p) == {}
  }

  function Resolved(t: Test): Test {
    if t.projectID == "" then t.(projectID := P.DEFAULT_PROJECT_ID) else t
  }

  ghost function TestsAfter(w: World, e: Event): Rows
    requires Enabled(w, e)
  {
    match e.action
    case Insert(id) => w.tests[id := Created(w.sessions[e.s].t, id, e.now)]
    case Refile => Moved(w.tests, w.sessions[e.s].c, w.sessions[e.s].p)
    case Edit(t, v) => Catalog.UpdateTest(w.tests, t, v, e.now).0
    case _ => w.tests
  }

  ghost function ProjectsAfter(w: World, e: Event): P.Registry
    requires Enabled(w, e)
  {
    if e.action.Drop? then P.DeleteProject(w.projects, w.sessions[e.s].p).0 else w.projects
  }

  ghost function SessionsAfter(w: World, e: Event): map<Id, Session>
    requires Enabled(w, e)
  {
    match e.action
    case Count(p) => if MayDelete(w, p) then w.sessions[e.s := Counted(p)] else w.sessions
    case Resolve(t) =>
      if t.projectID == "" || t.projectID in w.projects then w.sessions[e.s := Creating(Resolved(t))] else w.sessions
    case Find(c, p) => if p in w.projects then w.sessions[e.s := Moving(c, p)] else w.sessions
    case Edit(_, _) => w.sessions
    case _ => w.sessions - {e.s}
  }

  ghost function Step(w: World, e: Event): World
    requires Enabled(w, e)
  {
    World(ProjectsAfter(w, e), TestsAfter(w, e), SessionsAfter(w, e))
  }

  ghost predicate Possible(w: World, es: seq<Event>)
    decreases |es|
  {
    |es| == 0 || (Enabled(w, es[0]) && Possible(Step(w, es[0]), es[1..]))
  }

  ghost function Exec(w: World, es: seq<Event>): World
    requires Possible(w, es)
    decreases |es|
  {
    if |es| == 0 then w else Exec(Step(w, es[0]), es[1..])
  }

  lemma {:induction false} RunsAreTheirEvents(w: World, e: Event, es: seq<Event>)
    ensures Possible(w, []) && Exec(w, []) == w
    ensures Possible(w, [e] + es) <==> Enabled(w, e) && Possible(Step(w, e), es)
    ensures Possible(w, [e] + es) ==> Exec(w, [e] + es) == Exec(Step(w, e), es)
  {
    assert ([e] + es)[0] == e && ([e] + es)[1..] == es;
  }

  // ---------- with nothing in between ----------

  /** A look and its write by one session, and nothing in between. */
  ghost function Undisturbed(w: World, s: Id, look: Action, write: Action, now: Time): World
    requires Enabled(w, Event(s, look, now))
    requires var w1 := Step(w, Event(s, look, now)); s in w1.sessions ==> Enabled(w1, Event(s, write, now))
  {
    var w1 := Step(w, Event(s, look, now));
    if s in w1.sessions then Step(w1, Event(s, write, now)) else w1
  }

  /** Undisturbed, a look and its write are the atomic operation of the memory store, or the handler's. */
  lemma {:induction false} UndisturbedCreate(w: World, s: Id, t: Test, id: Id, now: Time)
    requires s !in w.sessions && id !in w.tests && id != "" && P.DEFAULT_PROJECT_ID in w.projects
    ensures Undisturbed(w, s, Resolve(t), Insert(id), now) ==
      World(w.projects, Catalog.CreateTest(w.tests, w.projects.Keys, P.DEFAULT_PROJECT_ID, t, id, now).0, w.sessions)
  {
    if t.projectID == "" || t.projectID in w.projects {
      var w1 := World(w.projects, w.tests, w.sessions[s := Creating(Resolved(t))]);
      assert Step(w, Event(s, Resolve(t), now)) == w1;
      assert w1.sessions - {s} == w.sessions;
    }
  }

  lemma {:induction false} UndisturbedMove(w: World, s: Id, c: Id, p: Id, now: Time)
    requires s !in w.sessions
    ensures Undisturbed(w, s, Find(c, p), Refile, now) ==
      World(w.projects, Catalog.MoveTest(w.tests, w.projects.Keys, c, p).0, w.sessions)
  {
    if p in w.projects {
      var w1 := World(w.projects, w.tests, w.sessions[s := Moving(c, p)]);
      assert Step(w, Event(s, Find(c, p), now)) == w1;
      assert w1.sessions - {s} == w.sessions;
      if !HasFamily(w.tests, c) {
        assert Moved(w.tests, c, p) == w.tests;
      }
    }
  }

  lemma {:induction false} UndisturbedDelete(w: World, s: Id, p: Id, now: Time, state: S.State)
    requires s !in w.sessions && state.projects == w.projects && state.tests == w.tests
    ensures Undisturbed(w, s, Count(p), Drop, now) ==
      World(S.StepDeleteProject(state, p).state.projects, w.tests, w.sessions)
  {
    if MayDelete(w, p) {
      var w1 := World(w.projects, w.tests, w.sessions[s := Counted(p)]);
      assert Step(w, Event(s, Count(p), now)) == w1;
      assert w1.sessions - {s} == w.sessions;
    }
  }

  lemma {:induction false} EditIsAtomic(w: World, s: Id, t: Test, versionID: Id, now: Time)
    requires versionID !in w.tests && versionID != ""
    ensures Enabled(w, Event(s, Edit(t, versionID), now))
    ensures Step(w, Event(s, Edit(t, versionID), now)) ==
      World(w.projects, Catalog.UpdateTest(w.tests, t, versionID, now).0, w.sessions)
  {
  }

  // ---------- which step orphans a row ----------

  ghost predicate NoOrphan(w: World) {
    Filed(w.tests, w.projects.Keys)
  }

  /** A project deleted although rows have come to name it, or a row written for a project gone since it
      was looked up. */
  ghost predicate Orphans(w: World, e: Event)
    requires Enabled(w, e)
  {
    match e.action
    case Drop =>
      var p := w.sessions[e.s].p;
      p in w.projects && !w.projects[p].isDefault && NamesProject(w.tests, p)
    case Insert(_) => w.sessions[e.s].t.projectID !in w.projects
    case Refile => w.sessions[e.s].p !in w.projects && HasFamily(w.tests, w.sessions[e.s].c)
    case _ => false
  }

  lemma {:induction false} OrphanedExactly(w: World, e: Event)
    requires NoOrphan(w) && Enabled(w, e)
    ensures NoOrphan(Step(w, e)) <==> !Orphans(w, e)
  {
    match e.action
    case Insert(id) => InsertOrphans(w.tests, w.projects.Keys, w.sessions[e.s].t, id, e.now);
    case Refile => RefileOrphans(w.tests, w.projects.Keys, w.sessions[e.s].c, w.sessions[e.s].p);
    case Edit(t, v) => EditFollows(w.tests, w.projects.Keys, t, v, e.now);
    case Drop => DropOrphans(w.tests, w.projects, w.sessions[e.s].p);
    case _ =>
  }

  lemma {:induction false} InsertOrphans(m: Rows, registered: set<Id>, t: Test, id: Id, now: Time)
    requires Filed(m, registered)
    ensures Filed(m[id := Created(t, id, now)], registered) <==> t.projectID in registered
  {
    assert m[id := Created(t, id, now)][id].projectID == t.projectID;
  }

  lemma {:induction false} RefileOrphans(m: Rows, registered: set<Id>, c: Id, p: Id)
    requires Filed(m, registered)
    ensures Filed(Moved(m, c, p), registered) <==> p in registered || !HasFamily(m, c)
  {
    if HasFamily(m, c) {
      var v :| v in m && m[v].id == c;
      assert Moved(m, c, p)[v].projectID == p;
    }
  }

  lemma {:induction false} EditFollows(m: Rows, registered: set<Id>, t: Test, versionID: Id, now: Time)
    requires Filed(m, registered)
    ensures Filed(Catalog.UpdateTest(m, t, versionID, now).0, registered)
  {
    if HasFamily(m, t.id) {
      assert LatestID(m, t.id) in m;
    }
  }

  lemma {:induction false} DropOrphans(m: Rows, ps: P.Registry, p: Id)
    requires Filed(m, ps.Keys)
    ensures Filed(m, P.DeleteProject(ps, p).0.Keys) <==> !(p in ps && !ps[p].isDefault && NamesProject(m, p))
  {
  }

  // ---------- which atomicity prevents it ----------

  /** What the catalogue of the memory store keeps by its own lock. */
  ghost predicate Sound(w: World) {
    Rooted(w.tests) && Uniform(w.tests) && P.DEFAULT_PROJECT_ID in w.projects && w.projects[P.DEFAULT_PROJECT_ID].isDefault
  }

  lemma {:induction false} StaysSound(w: World, e: Event)
    requires Sound(w) && Enabled(w, e)
    ensures Sound(Step(w, e))
  {
    match e.action
    case Insert(id) =>
      CreateExtends(w.tests, w.sessions[e.s].t, id, e.now);
      ExtendKeepsBoth(w.tests, Created(w.sessions[e.s].t, id, e.now), e.now);
    case Refile =>
      MoveChangesOnlyTheProject(w.tests, w.sessions[e.s].c, w.sessions[e.s].p);
      SameRoots(w.tests, TestsAfter(w, e));
    case Edit(t, v) =>
      if HasFamily(w.tests, t.id) {
        EditExtends(w.tests, t, v, e.now);
        ExtendKeepsBoth(w.tests, Edited(w.tests, t, v, e.now), e.now);
      }
    case _ =>
  }

  lemma {:induction false} ExtendKeepsBoth(m: Rows, row: Test, now: Time)
    requires Rooted(m) && Uniform(m) && Extends(m, row, now)
    requires HasFamily(m, row.id) ==> row.projectID == Latest(m, row.id).projectID
    ensures Rooted(With(m, row)) && Uniform(With(m, row))
  {
    ExtendKeepsRoots(m, row, now);
    ExtendKeepsUniform(m, row, now);
  }

  predicate Looks(a: Action) { a.Count? || a.Resolve? || a.Find? }

  predicate Writes(a: Action) { a.Drop? || a.Insert? || a.Refile? }

  /** Every write directly follows the look it relies on. */
  predicate WholeRequests(prev: Option<Event>, es: seq<Event>)
    decreases |es|
  {
    |es| == 0 || (
      && (Writes(es[0].action) ==> prev.Some? && prev.value.s == es[0].s && Looks(prev.value.action))
      && WholeRequests(Some(es[0]), es[1..]))
  }

  /** What the look just made has found still holds. */
  ghost predicate LookHolds(w: World, prev: Option<Event>) {
    prev.Some? && Looks(prev.value.action) && prev.value.s in w.sessions ==>
      match w.sessions[prev.value.s]
      case Counted(p) => !NamesProject(w.tests, p)
      case Creating(t) => t.projectID in w.projects
      case Moving(_, p) => p in w.projects
  }

  lemma {:induction false} LooksHold(w: World, e: Event)
    requires Sound(w) && Enabled(w, e)
    ensures LookHolds(Step(w, e), Some(e))
  {
    if e.action.Count? && MayDelete(w, e.action.p) {
      S.NoLatestMeansNoRow(w.tests, e.action.p);
    }
  }

  /** With every request whole, every row, old or latest, always names a registered project, although
      only latest versions are counted. */
  lemma {:induction false} WholeRequestsOrphanNothing(w: World, prev: Option<Event>, es: seq<Event>)
    requires Sound(w) && NoOrphan(w) && LookHolds(w, prev)
    requires Possible(w, es) && WholeRequests(prev, es)
    ensures Sound(Exec(w, es)) && NoOrphan(Exec(w, es))
    decreases |es|
  {
    if |es| > 0 {
      StaysSound(w, es[0]);
      OrphanedExactly(w, es[0]);
      LooksHold(w, es[0]);
      WholeRequestsOrphanNothing(Step(w, es[0]), Some(es[0]), es[1..]);
    }
  }

  // ---------- the races ----------

  /** A test created between the count and the delete loses its project, in any state in which the count
      lets the delete go on. */
  lemma {:induction false} CreateBeforeTheDrop(w: World, d: Id, c: Id, t: Test, id: Id, now: Time)
    requires NoOrphan(w) && MayDelete(w, t.projectID) && t.projectID != ""
    requires d !in w.sessions && c !in w.sessions && c != d && id !in w.tests && id != ""
    ensures var count, drop := Event(d, Count(t.projectID), now), Event(d, Drop, now);
      var resolve, insert := Event(c, Resolve(t), now), Event(c, Insert(id), now);
      && Enabled(w, count) && Enabled(Step(w, count), resolve)
      && var w2 := Step(Step(w, count), resolve);
      && Enabled(w2, insert)
      && Enabled(Step(w2, insert), drop)
      && var last := Step(Step(w2, insert), drop);
      && id in last.tests && last.tests[id].projectID !in last.projects && !NoOrphan(last)
  {
    var p := t.projectID;
    var w2 := World(w.projects, w.tests, w.sessions[d := Counted(p)][c := Creating(t)]);
    assert Step(Step(w, Event(d, Count(p), now)), Event(c, Resolve(t), now)) == w2;
    var w3 := World(w.projects, w.tests[id := Created(t, id, now)], w2.sessions - {c});
    assert Step(w2, Event(c, Insert(id), now)) == w3;
    assert w3.sessions[d] == Counted(p);
  }

  /** A project deleted between a create's look and its write: the same, from the other side. */
  lemma {:induction false} DropBeforeTheInsert(w: World, d: Id, c: Id, t: Test, id: Id, now: Time)
    requires NoOrphan(w) && MayDelete(w, t.projectID) && t.projectID != ""
    requires d in w.sessions && w.sessions[d] == Counted(t.projectID) && c !in w.sessions && id !in w.tests && id != ""
    ensures var resolve, drop, insert := Event(c, Resolve(t), now), Event(d, Drop, now), Event(c, Insert(id), now);
      && Enabled(w, resolve) && Enabled(Step(w, resolve), drop)
      && var w2 := Step(Step(w, resolve), drop);
      && Enabled(w2, insert)
      && !NoOrphan(Step(w2, insert))
  {
    var p := t.projectID;
    var w1 := World(w.projects, w.tests, w.sessions[c := Creating(t)]);
    assert Step(w, Event(c, Resolve(t), now)) == w1;
    var w2 := World(w.projects - {p}, w.tests, w1.sessions - {d});
    assert Step(w1, Event(d, Drop, now)) == w2;
    assert Step(w2, Event(c, Insert(id), now)).tests[id].projectID == p;
  }
}
