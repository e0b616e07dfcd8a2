/** The versioned test catalogue as a value: a map from version id to version row. Every version of
    a test is a row of its own; the rows sharing a catalog id are its family. */
module Catalog {
  import opened Model

  type Rows = map<Id, Test>

  // ---------- extremes of a finite set ----------

  ghost function MaxBy<T(!new)>(s: set<T>, key: T -> int): (x: T)
    requires s != {}
    ensures x in s && forall y | y in s :: key(y) <= key(x)
  {
    var y :| y in s;
    if s == {y} then y
    else
      var z := MaxBy(s - {y}, key);
      assert s == (s - {y}) + {y};
      if key(z) < key(y) then y else z
  }

  // ---------- what the store reads ----------

  function Family(m: Rows, c: Id): set<Id> {
    set v | v in m && m[v].id == c
  }

  predicate HasFamily(m: Rows, c: Id) {
    exists v :: v in m && m[v].id == c
  }

  predicate HasVersion(m: Rows, c: Id, k: int) {
    exists v :: v in m && m[v].id == c && m[v].version == k
  }

  predicate IsLatest(m: Rows, c: Id, v: Id) {
    && v in m && m[v].id == c
    && forall w | w in m && m[w].id == c :: m[w].version <= m[v].version
  }

  ghost function LatestID(m: Rows, c: Id): (v: Id)
    requires HasFamily(m, c)
    ensures IsLatest(m, c, v)
  {
    var w :| w in m && m[w].id == c;
    assert w in Family(m, c);
    var v := MaxBy(Family(m, c), (v: Id) => if v in m then m[v].version else 0);
    assert forall w | w in m && m[w].id == c :: w in Family(m, c);
    v
  }

  ghost function Latest(m: Rows, c: Id): Test
    requires HasFamily(m, c)
  {
    m[LatestID(m, c)]
  }

  /** The earliest time at which a row of the family was cut; the zero time if there is none. */
  ghost predicate IsFamilyCreatedAt(m: Rows, c: Id, t: Time) {
    && (HasFamily(m, c) ==> exists v :: v in m && m[v].id == c && m[v].updatedAt == t)
    && (!HasFamily(m, c) ==> t == ZERO_TIME)
    && forall w | w in m && m[w].id == c :: t <= m[w].updatedAt
  }

  ghost function FamilyCreatedAt(m: Rows, c: Id): (t: Time)
    ensures IsFamilyCreatedAt(m, c, t)
  {
    if !HasFamily(m, c) then ZERO_TIME
    else
      var w :| w in m && m[w].id == c;
      assert w in Family(m, c);
      var key := (v: Id) => if v in m then -m[v].updatedAt else 0;
      var v := MaxBy(Family(m, c), key);
      assert forall w | w in m && m[w].id == c :: w in Family(m, c) && key(w) <= key(v);
      m[v].updatedAt
  }

  /** The test as every read returns it: the latest row, dated from the family's first. */
  ghost function Get(m: Rows, c: Id): Test
    requires HasFamily(m, c)
  {
    Latest(m, c).(createdAt := FamilyCreatedAt(m, c))
  }

  /** Some row, old or latest, is filed under p. */
  predicate NamesProject(m: Rows, p: Id) {
    exists v :: v in m && m[v].projectID == p
  }

  // ---------- what the store writes ----------

  function Created(t: Test, id: Id, now: Time): Test {
    t.(id := id, versionID := id, version := 1, createdAt := now, updatedAt := now)
  }

  ghost function Edited(m: Rows, t: Test, versionID: Id, now: Time): Test
    requires HasFamily(m, t.id)
  {
    t.(projectID := Latest(m, t.id).projectID,
       versionID := versionID,
       version := Latest(m, t.id).version + 1,
       createdAt := FamilyCreatedAt(m, t.id),
       updatedAt := now)
  }

  function Moved(m: Rows, c: Id, p: Id): Rows {
    map v | v in m :: if m[v].id == c then m[v].(projectID := p) else m[v]
  }

  /** CreateTest, given the registered projects. An unset project means the default one. */
  function CreateTest(m: Rows, registered: set<Id>, defaultID: Id, t: Test, id: Id, now: Time): (Rows, Result<Test>) {
    if t.projectID != "" && t.projectID !in registered then (m, Err(InvalidReference))
    else
      var row := Created(t.(projectID := if t.projectID == "" then defaultID else t.projectID), id, now);
      (m[id := row], Ok(row))
  }

  /** UpdateTest: an edit is a new row, never a change to an old one. */
  ghost function UpdateTest(m: Rows, t: Test, versionID: Id, now: Time): (Rows, Result<Test>) {
    if !HasFamily(m, t.id) then (m, Err(NotFound))
    else (m[versionID := Edited(m, t, versionID, now)], Ok(Edited(m, t, versionID, now)))
  }

  /** MoveTest of the memory store, which looks at the project before it looks for the test. */
  ghost function MoveTest(m: Rows, registered: set<Id>, c: Id, p: Id): (Rows, Option<Error>) {
    if p !in registered then (m, Some(InvalidReference))
    else if !HasFamily(m, c) then (m, Some(NotFound))
    else (Moved(m, c, p), None)
  }

  // ---------- what every operation keeps ----------

  /** The primary key, and the unique (catalog id, version) index. */
  ghost predicate Keyed(m: Rows) {
    && (forall v | v in m :: m[v].versionID == v && v != "")
    && (forall v, w | v in m && w in m && m[v].id == m[w].id && m[v].version == m[w].version :: v == w)
  }

  /** Versions start at 1 and skip nothing. */
  ghost predicate GapFree(m: Rows) {
    && (forall v | v in m :: 1 <= m[v].version)
    && (forall v, k | v in m && 1 <= k < m[v].version :: HasVersion(m, m[v].id, k))
  }

  /** A family is named after the row of its first version. */
  ghost predicate Rooted(m: Rows) {
    forall v | v in m :: m[v].id in m && m[m[v].id].id == m[v].id && m[m[v].id].version == 1
  }

  /** Rows are dated by a clock that has not run backwards. */
  ghost predicate Dated(m: Rows, clock: Time) {
    && (forall v | v in m :: ZERO_TIME < m[v].updatedAt <= clock)
    && (forall v, w | v in m && w in m && m[v].id == m[w].id && m[v].version <= m[w].version ::
          m[v].updatedAt <= m[w].updatedAt)
  }

  /** Every row carries its family's creation time. */
  ghost predicate Stamped(m: Rows) {
    forall v | v in m :: m[v].createdAt == FamilyCreatedAt(m, m[v].id)
  }

  /** All versions of a test are filed under one project. */
  ghost predicate Uniform(m: Rows) {
    forall v, w | v in m && w in m && m[v].id == m[w].id :: m[v].projectID == m[w].projectID
  }

  ghost predicate Consistent(m: Rows, clock: Time) {
    Keyed(m) && GapFree(m) && Rooted(m) && Dated(m, clock) && Stamped(m)
  }

  lemma {:induction false} CreatedAtIsUnique(m: Rows, c: Id, t: Time)
    requires IsFamilyCreatedAt(m, c, t)
    ensures t == FamilyCreatedAt(m, c)
  {
  }

  lemma {:induction false} LatestIsUnique(m: Rows, c: Id, v: Id)
    requires Keyed(m) && IsLatest(m, c, v)
    ensures v == LatestID(m, c)
  {
  }

  // ---------- adding a version row ----------

  /** row is the first version of a new family, or the next version of an existing one. */
  ghost predicate Extends(m: Rows, row: Test, now: Time) {
    && row.versionID !in m && row.versionID != ""
    && row.updatedAt == now
    && if HasFamily(m, row.id)
       then row.version == Latest(m, row.id).version + 1 && row.createdAt == FamilyCreatedAt(m, row.id)
       else row.version == 1 && row.id == row.versionID && row.createdAt == now
  }

  ghost function With(m: Rows, row: Test): Rows { m[row.versionID := row] }

  lemma {:induction false} ExtendKeepsKeys(m: Rows, row: Test, now: Time)
    requires Keyed(m) && Extends(m, row, now)
    ensures Keyed(With(m, row))
  {
  }

  lemma {:induction false} ExtendKeepsVersions(m: Rows, row: Test, now: Time)
    requires GapFree(m) && Extends(m, row, now)
    ensures GapFree(With(m, row))
    ensures forall c, k | HasVersion(m, c, k) :: HasVersion(With(m, row), c, k)
  {
    var m' := With(m, row);
    forall c, k | HasVersion(m, c, k) ensures HasVersion(m', c, k) {
      var w :| w in m && m[w].id == c && m[w].version == k;
      assert w in m' && m'[w] == m[w];
    }
    forall v, k | v in m' && 1 <= k < m'[v].version ensures HasVersion(m', m'[v].id, k) {
      if v == row.versionID {
        var l := LatestID(m, row.id);
        assert k == m[l].version ==> HasVersion(m, row.id, k);
        assert k < m[l].version ==> HasVersion(m, m[l].id, k);
      } else {
        assert HasVersion(m, m[v].id, k);
      }
    }
  }

  lemma {:induction false} ExtendKeepsRoots(m: Rows, row: Test, now: Time)
    requires Rooted(m) && Extends(m, row, now)
    ensures Rooted(With(m, row))
  {
    var m', c := With(m, row), row.id;
    if HasFamily(m, c) {
      var l := LatestID(m, c);
      assert m[l].id == c && c in m && m[c].id == c;
    }
    forall v | v in m'
      ensures m'[v].id in m' && m'[m'[v].id].id == m'[v].id && m'[m'[v].id].version == 1
    {
      if v != row.versionID {
        var d := m[v].id;
        assert d in m && m'[d] == m[d];
      }
    }
  }

  /** No edit changes a creation time: with a clock that does not run backwards, the earliest row of
      a family stays the earliest. */
  lemma {:induction false} ExtendKeepsCreation(m: Rows, row: Test, clock: Time, now: Time)
    requires Dated(m, clock) && clock <= now && Extends(m, row, now)
    ensures forall c | HasFamily(m, c) :: HasFamily(With(m, row), c) && FamilyCreatedAt(With(m, row), c) == FamilyCreatedAt(m, c)
    ensures !HasFamily(m, row.id) ==> FamilyCreatedAt(With(m, row), row.id) == now
  {
    var m' := With(m, row);
    forall c | HasFamily(m, c) ensures HasFamily(m', c) && FamilyCreatedAt(m', c) == FamilyCreatedAt(m, c) {
      var w :| w in m && m[w].id == c && m[w].updatedAt == FamilyCreatedAt(m, c);
      assert w in m' && m'[w] == m[w];
    }
    assert m'[row.versionID] == row;
  }

  lemma {:induction false} ExtendKeepsDates(m: Rows, row: Test, clock: Time, now: Time)
    requires Dated(m, clock) && Keyed(m) && clock <= now && ZERO_TIME < now && Extends(m, row, now)
    ensures Dated(With(m, row), now)
  {
  }

  /** Every operation that adds a version row keeps the catalogue consistent. */
  lemma {:induction false} ExtendKeepsConsistent(m: Rows, row: Test, clock: Time, now: Time)
    requires Consistent(m, clock) && clock <= now && ZERO_TIME < now && Extends(m, row, now)
    ensures Consistent(With(m, row), now)
  {
    ExtendKeepsKeys(m, row, now);
    ExtendKeepsVersions(m, row, now);
    ExtendKeepsRoots(m, row, now);
    ExtendKeepsDates(m, row, clock, now);
    ExtendKeepsCreation(m, row, clock, now);
    var m' := With(m, row);
    forall v | v in m' ensures m'[v].createdAt == FamilyCreatedAt(m', m'[v].id) {
      assert v in m ==> HasFamily(m, m[v].id);
    }
  }

  /** After an edit the new row is the latest of its family; no other family is affected. */
  lemma {:induction false} ExtendMovesOneLatest(m: Rows, row: Test, now: Time)
    requires Keyed(m) && Extends(m, row, now)
    ensures HasFamily(With(m, row), row.id) && LatestID(With(m, row), row.id) == row.versionID
    ensures forall c | HasFamily(m, c) && c != row.id ::
      HasFamily(With(m, row), c) && LatestID(With(m, row), c) == LatestID(m, c)
  {
    var m' := With(m, row);
    ExtendKeepsKeys(m, row, now);
    assert m'[row.versionID] == row;
    forall w | w in m && m[w].id == row.id ensures m[w].version <= row.version {
      assert HasFamily(m, row.id);
    }
    LatestIsUnique(m', row.id, row.versionID);
    forall c | HasFamily(m, c) && c != row.id ensures HasFamily(m', c) && LatestID(m', c) == LatestID(m, c) {
      var v := LatestID(m, c);
      assert v in m' && m'[v] == m[v];
      LatestIsUnique(m', c, v);
    }
  }

  lemma {:induction false} CreateExtends(m: Rows, t: Test, id: Id, now: Time)
    requires Rooted(m) && id !in m && id != ""
    ensures !HasFamily(m, id) && Extends(m, Created(t, id, now), now)
  {
  }

  lemma {:induction false} EditExtends(m: Rows, t: Test, versionID: Id, now: Time)
    requires HasFamily(m, t.id) && versionID !in m && versionID != ""
    ensures Extends(m, Edited(m, t, versionID, now), now)
  {
  }

  /** A new row that follows its family's project, or starts a family, keeps the families uniform. */
  lemma {:induction false} ExtendKeepsUniform(m: Rows, row: Test, now: Time)
    requires Uniform(m) && Extends(m, row, now)
    ensures Uniform(With(m, row)) <==> (HasFamily(m, row.id) ==> row.projectID == Latest(m, row.id).projectID)
  {
    var m' := With(m, row);
    if HasFamily(m, row.id) {
      var l := LatestID(m, row.id);
      assert m'[l] == m[l] && m'[row.versionID] == row;
    }
  }

  // ---------- moving a family ----------

  /** The rows differ in the projects they are filed under, and in nothing else. */
  ghost predicate SameButProject(m: Rows, m': Rows) {
    && m'.Keys == m.Keys
    && forall v | v in m :: m'[v] == m[v].(projectID := m'[v].projectID)
  }

  /** A move refiles every version of the family, and only those, and changes no other field. */
  lemma {:induction false} MoveChangesOnlyTheProject(m: Rows, c: Id, p: Id)
    ensures var m' := Moved(m, c, p);
      && SameButProject(m, m')
      && (forall v | v in m :: m'[v].projectID == if m[v].id == c then p else m[v].projectID)
      && (Uniform(m) ==> Uniform(m'))
  {
  }

  lemma {:induction false} SameFamilies(m: Rows, m': Rows, c: Id)
    requires SameButProject(m, m')
    ensures HasFamily(m', c) <==> HasFamily(m, c)
    ensures FamilyCreatedAt(m', c) == FamilyCreatedAt(m, c)
  {
    if HasFamily(m, c) {
      var v :| v in m && m[v].id == c && m[v].updatedAt == FamilyCreatedAt(m, c);
      assert m'[v].id == c;
    }
  }

  lemma {:induction false} SameVersions(m: Rows, m': Rows, c: Id, k: int)
    requires SameButProject(m, m') && HasVersion(m, c, k)
    ensures HasVersion(m', c, k)
  {
    var w :| w in m && m[w].id == c && m[w].version == k;
    assert m'[w].id == c && m'[w].version == k;
  }

  lemma {:induction false} SameKeys(m: Rows, m': Rows)
    requires SameButProject(m, m') && Keyed(m)
    ensures Keyed(m')
  {
  }

  lemma {:induction false} SameLatest(m: Rows, m': Rows, c: Id)
    requires SameButProject(m, m') && Keyed(m) && HasFamily(m, c)
    ensures HasFamily(m', c) && LatestID(m', c) == LatestID(m, c)
  {
    var l := LatestID(m, c);
    SameKeys(m, m');
    assert m'[l].id == c;
    assert IsLatest(m', c, l) by {
      forall w | w in m' && m'[w].id == c ensures m'[w].version <= m'[l].version {
        assert m[w].id == c;
      }
    }
    LatestIsUnique(m', c, l);
  }

  lemma {:induction false} SameGaps(m: Rows, m': Rows)
    requires SameButProject(m, m') && GapFree(m)
    ensures GapFree(m')
  {
    forall v, k | v in m' && 1 <= k < m'[v].version ensures HasVersion(m', m'[v].id, k) {
      SameVersions(m, m', m[v].id, k);
    }
  }

  lemma {:induction false} SameStamps(m: Rows, m': Rows)
    requires SameButProject(m, m') && Stamped(m)
    ensures Stamped(m')
  {
    forall v | v in m' ensures m'[v].createdAt == FamilyCreatedAt(m', m'[v].id) {
      SameFamilies(m, m', m[v].id);
    }
  }

  lemma {:induction false} SameDates(m: Rows, m': Rows, clock: Time)
    requires SameButProject(m, m') && Dated(m, clock)
    ensures Dated(m', clock)
  {
  }

  /** No part of a catalogue's consistency depends on where its tests are filed. */
  lemma {:induction false} ProjectsDoNotMatterToConsistency(m: Rows, m': Rows, clock: Time)
    requires SameButProject(m, m') && Consistent(m, clock)
    ensures Consistent(m', clock)
  {
    SameKeys(m, m');
    SameGaps(m, m');
    SameRoots(m, m');
    SameDates(m, m', clock);
    SameStamps(m, m');
  }

  lemma {:induction false} SameRoots(m: Rows, m': Rows)
    requires SameButProject(m, m') && Rooted(m)
    ensures Rooted(m')
  {
    forall v | v in m'
      ensures m'[v].id in m' && m'[m'[v].id].id == m'[v].id && m'[m'[v].id].version == 1
    {
      var c := m[v].id;
      assert m'[v].id == c && m[c].id == c;
    }
  }

  // ---------- history ----------

  /** Rows are immutable but for their project, and no family's creation time changes. */
  ghost predicate RowsPersist(m: Rows, m': Rows) {
    && (forall v | v in m :: v in m' && m'[v] == m[v].(projectID := m'[v].projectID))
    && (forall c | HasFamily(m, c) :: HasFamily(m', c) && FamilyCreatedAt(m', c) == FamilyCreatedAt(m, c))
  }

  lemma {:induction false} RowsPersistTwice(a: Rows, b: Rows, c: Rows)
    requires RowsPersist(a, b) && RowsPersist(b, c)
    ensures RowsPersist(a, c)
  {
    forall v | v in a ensures v in c && c[v] == a[v].(projectID := c[v].projectID) {
      assert v in b && b[v] == a[v].(projectID := b[v].projectID);
    }
  }

  // ---------- one step of the catalogue ----------

  /** How a step can change the catalogue. */
  datatype Change = Untouched | Added(row: Test) | Refiled(testID: Id, projectID: Id)

  ghost predicate Changed(m: Rows, m': Rows, change: Change, now: Time) {
    match change
    case Untouched => m' == m
    case Refiled(c, p) => m' == Moved(m, c, p)
    case Added(row) => Extends(m, row, now) && m' == With(m, row)
  }

  lemma {:induction false} TimePasses(m: Rows, clock: Time, now: Time)
    requires Consistent(m, clock) && clock <= now
    ensures Consistent(m, now)
  {
  }

  lemma {:induction false} ChangeKeepsConsistent(m: Rows, m': Rows, change: Change, clock: Time, now: Time)
    requires Consistent(m, clock) && clock <= now && ZERO_TIME < now
    requires Changed(m, m', change, now)
    ensures Consistent(m', now)
  {
    TimePasses(m, clock, now);
    match change
    case Untouched =>
    case Added(row) => ExtendKeepsConsistent(m, row, clock, now);
    case Refiled(c, p) =>
      MoveChangesOnlyTheProject(m, c, p);
      ProjectsDoNotMatterToConsistency(m, m', now);
  }

  lemma {:induction false} ChangeKeepsRows(m: Rows, m': Rows, change: Change, clock: Time, now: Time)
    requires Dated(m, clock) && clock <= now
    requires Changed(m, m', change, now)
    ensures RowsPersist(m, m')
  {
    match change
    case Untouched =>
    case Added(row) => ExtendKeepsCreation(m, row, clock, now);
    case Refiled(c, p) =>
      MoveChangesOnlyTheProject(m, c, p);
      forall d | HasFamily(m, d) ensures HasFamily(m', d) && FamilyCreatedAt(m', d) == FamilyCreatedAt(m, d) {
        SameFamilies(m, m', d);
      }
  }

  /** Every version row, old or latest, is filed under a registered project. */
  ghost predicate Filed(m: Rows, registered: set<Id>) {
    forall v | v in m :: m[v].projectID in registered
  }

  // ---------- versions are exactly 1..n ----------

  /** A family of n rows holds each of the versions 1..n exactly once, and its latest is n. */
  lemma {:induction false} VersionsAreOneToN(m: Rows, c: Id)
    requires Keyed(m) && GapFree(m) && HasFamily(m, c)
    ensures var n := Latest(m, c).version;
      && |Family(m, c)| == n
      && forall k :: HasVersion(m, c, k) <==> 1 <= k <= n
  {
    var l := LatestID(m, c);
    var n := m[l].version;
    forall k ensures HasVersion(m, c, k) <==> 1 <= k <= n {
      if 1 <= k < n {
        assert HasVersion(m, m[l].id, k);
      } else if k == n {
        assert m[l].id == c && m[l].version == k;
      }
    }
    forall k | 1 <= k <= n ensures VersionIn(m, Family(m, c), k) {
      assert HasVersion(m, c, k);
      var v :| v in m && m[v].id == c && m[v].version == k;
      assert v in Family(m, c);
    }
    CountVersions(m, c, Family(m, c), n);
  }

  ghost predicate VersionIn(m: Rows, s: set<Id>, k: int) {
    exists v :: v in s && v in m && m[v].version == k
  }

  lemma {:induction false} CountVersions(m: Rows, c: Id, s: set<Id>, n: nat)
    requires Keyed(m)
    requires forall v | v in s :: v in m && m[v].id == c && 1 <= m[v].version <= n
    requires forall k | 1 <= k <= n :: VersionIn(m, s, k)
    ensures |s| == n
    decreases n
  {
    if n == 0 {
      assert s == {};
    } else {
      assert VersionIn(m, s, n);
      var v :| v in s && m[v].version == n;
      forall k | 1 <= k <= n - 1 ensures VersionIn(m, s - {v}, k) {
        assert VersionIn(m, s, k);
        var w :| w in s && m[w].version == k;
        assert w in s - {v};
      }
      CountVersions(m, c, s - {v}, n - 1);
    }
  }
}
