/** What the list operations return, in both stores. The memory store collapses each family to its
    latest version and then filters by project; Postgres filters the rows and then collapses. */
module CatalogLists {
  import opened Model
  import opened Ordering
  import opened Catalog

  predicate Newer(a: Test, b: Test) { a.createdAt > b.createdAt }
  predicate HigherVersion(a: Test, b: Test) { a.version > b.version }

  /** out lists each test of s once, sorted by less. */
  ghost predicate Listing(out: seq<Test>, s: set<Test>, less: (Test, Test) -> bool) {
    Enumerates(out, s) && Sorted(out, less)
  }

  ghost function Catalogue(m: Rows): set<Test> {
    set v | v in m :: Get(m, m[v].id)
  }

  ghost function Versions(m: Rows, c: Id): set<Test> {
    set v | v in m && m[v].id == c :: m[v].(createdAt := FamilyCreatedAt(m, c))
  }

  function ByProject(tests: set<Test>, p: Id): set<Test> {
    set t | t in tests && t.projectID == p
  }

  /** The memory store's project list: collapse, then filter. */
  ghost function CollapseThenFilter(m: Rows, p: Id): set<Test> {
    ByProject(Catalogue(m), p)
  }

  function FiledUnder(m: Rows, p: Id): Rows {
    map v | v in m && m[v].projectID == p :: m[v]
  }

  /** Postgres's project list: filter, then collapse. The creation time, too, is taken over the
      filtered rows. */
  ghost function FilterThenCollapse(m: Rows, p: Id): set<Test> {
    Catalogue(FiledUnder(m, p))
  }

  lemma {:induction false} CatalogueHasGet(m: Rows, c: Id)
    requires HasFamily(m, c)
    ensures Get(m, c) in Catalogue(m) && Get(m, c).id == c
  {
    var v :| v in m && m[v].id == c;
    assert Get(m, m[v].id) in Catalogue(m);
  }

  lemma {:induction false} CatalogueIsGet(m: Rows, t: Test)
    requires t in Catalogue(m)
    ensures HasFamily(m, t.id) && t == Get(m, t.id)
  {
    var v :| v in m && t == Get(m, m[v].id);
    assert HasFamily(m, m[v].id);
  }

  // ---------- ListTests ----------

  /** Each family is listed exactly once, as GetTest would return it, newest first. */
  lemma {:induction false} ListShowsEachFamilyOnce(m: Rows, out: seq<Test>)
    requires Listing(out, Catalogue(m), Newer)
    ensures forall i | 0 <= i < |out| :: HasFamily(m, out[i].id) && out[i] == Get(m, out[i].id)
    ensures forall c | HasFamily(m, c) :: exists i :: 0 <= i < |out| && out[i].id == c
    ensures forall i, j | 0 <= i < j < |out| :: out[i].id != out[j].id && out[i].createdAt >= out[j].createdAt
  {
    EnumerationFacts(out, Catalogue(m));
    forall i | 0 <= i < |out| ensures HasFamily(m, out[i].id) && out[i] == Get(m, out[i].id) {
      CatalogueIsGet(m, out[i]);
    }
    forall c | HasFamily(m, c) ensures exists i :: 0 <= i < |out| && out[i].id == c {
      CatalogueHasGet(m, c);
      assert Get(m, c) in out;
      var i :| 0 <= i < |out| && out[i] == Get(m, c);
      assert out[i].id == c;
    }
    forall i, j | 0 <= i < j < |out| ensures out[i].id != out[j].id && out[i].createdAt >= out[j].createdAt {
      assert !Newer(out[j], out[i]);
      assert out[i] == Get(m, out[i].id) && out[j] == Get(m, out[j].id);
    }
  }

  /** Two families whose creation times differ, and have not changed since, are listed in the same
      order then and now. */
  lemma {:induction false} OrderIsStable(m: Rows, out: seq<Test>, m': Rows, out': seq<Test>,
                                         i: nat, j: nat, i': nat, j': nat)
    requires Listing(out, Catalogue(m), Newer) && Listing(out', Catalogue(m'), Newer)
    requires i < |out| && j < |out| && i' < |out'| && j' < |out'|
    requires out'[i'].id == out[i].id && out'[j'].id == out[j].id
    requires FamilyCreatedAt(m', out[i].id) == FamilyCreatedAt(m, out[i].id)
    requires FamilyCreatedAt(m', out[j].id) == FamilyCreatedAt(m, out[j].id)
    requires out[i].createdAt != out[j].createdAt
    ensures i < j <==> i' < j'
  {
    ListShowsEachFamilyOnce(m, out);
    ListShowsEachFamilyOnce(m', out');
  }

  // ---------- ListTestVersions ----------

  /** The version list of a family is exactly n, n-1, ..., 1, and starts with what GetTest returns. */
  lemma {:induction false} VersionListIsExact(m: Rows, c: Id, out: seq<Test>)
    requires Keyed(m) && GapFree(m)
    requires Listing(out, Versions(m, c), HigherVersion)
    ensures |out| == |Family(m, c)|
    ensures forall i | 0 <= i < |out| :: out[i].version == |out| - i && out[i].id == c
    ensures HasFamily(m, c) ==> |out| == Latest(m, c).version && out[0] == Get(m, c)
    ensures !HasFamily(m, c) ==> out == []
  {
    EnumerationFacts(out, Versions(m, c));
    VersionsMatchFamily(m, c, Family(m, c));
    assert Versions(m, c) == Redated(m, Family(m, c), FamilyCreatedAt(m, c));
    if HasFamily(m, c) {
      VersionsAreOneToN(m, c);
      forall i | 0 <= i < |out| ensures out[i].id == c && 1 <= out[i].version <= |out| {
        VersionRow(m, c, out[i]);
        assert HasVersion(m, c, out[i].version);
      }
      DescendingVersions(m, c, out);
      Countdown(out);
      TopVersionIsGet(m, c, out[0]);
    } else {
      assert Family(m, c) == {};
    }
  }

  lemma {:induction false} VersionRow(m: Rows, c: Id, t: Test)
    requires Keyed(m) && t in Versions(m, c)
    ensures t.versionID in m && m[t.versionID].id == c
    ensures t == m[t.versionID].(createdAt := FamilyCreatedAt(m, c))
  {
  }

  lemma {:induction false} TopVersionIsGet(m: Rows, c: Id, t: Test)
    requires Keyed(m) && HasFamily(m, c) && t in Versions(m, c) && t.version == Latest(m, c).version
    ensures t == Get(m, c)
  {
    VersionRow(m, c, t);
    LatestIsUnique(m, c, t.versionID);
  }

  lemma {:induction false} DescendingVersions(m: Rows, c: Id, out: seq<Test>)
    requires Keyed(m) && Listing(out, Versions(m, c), HigherVersion)
    ensures forall i, j | 0 <= i < j < |out| :: out[i].version > out[j].version
  {
    EnumerationFacts(out, Versions(m, c));
    forall i, j | 0 <= i < j < |out| ensures out[i].version > out[j].version {
      assert !HigherVersion(out[j], out[i]) && out[i] != out[j];
      VersionRow(m, c, out[i]);
      VersionRow(m, c, out[j]);
    }
  }

  function Redated(m: Rows, s: set<Id>, created: Time): set<Test> {
    set v | v in s && v in m :: m[v].(createdAt := created)
  }

  lemma {:induction false} VersionsMatchFamily(m: Rows, c: Id, s: set<Id>)
    requires Keyed(m) && s <= Family(m, c)
    ensures |Redated(m, s, FamilyCreatedAt(m, c))| == |s|
  {
    var created := FamilyCreatedAt(m, c);
    if s != {} {
      var v :| v in s;
      var row, rest := m[v].(createdAt := created), Redated(m, s - {v}, created);
      VersionsMatchFamily(m, c, s - {v});
      assert forall w | w in s - {v} :: m[w].versionID != row.versionID;
      assert row !in rest;
      assert Redated(m, s, created) == rest + {row};
    }
  }

  lemma {:induction false} Countdown(s: seq<Test>)
    requires forall i, j | 0 <= i < j < |s| :: s[i].version > s[j].version
    requires forall i | 0 <= i < |s| :: 1 <= s[i].version <= |s|
    ensures forall i | 0 <= i < |s| :: s[i].version == |s| - i
  {
    for i := 0 to |s|
      invariant forall k | 0 <= k < i :: s[k].version <= |s| - k
    {
      assert i > 0 ==> s[i - 1].version > s[i].version;
    }
    for i := |s| downto 0
      invariant forall k | i <= k < |s| :: s[k].version >= |s| - k
    {
      assert i + 1 < |s| ==> s[i].version > s[i + 1].version;
    }
  }

  // ---------- lists of one project ----------

  lemma {:induction false} SplitFamilyListsDiffer(m: Rows, c: Id)
    requires Keyed(m) && HasFamily(m, c)
    requires exists v :: v in m && m[v].id == c && m[v].projectID != Latest(m, c).projectID
    ensures exists p :: FilterThenCollapse(m, p) != CollapseThenFilter(m, p)
  {
    var v :| v in m && m[v].id == c && m[v].projectID != Latest(m, c).projectID;
    var p := m[v].projectID;
    var f := FiledUnder(m, p);
    assert f[v].id == c;
    var t := Get(f, c);
    CatalogueHasGet(f, c);
    assert t !in CollapseThenFilter(m, p) by {
      if t in Catalogue(m) {
        CatalogueIsGet(m, t);
      }
    }
    assert FilterThenCollapse(m, p) != CollapseThenFilter(m, p);
  }

  /** A row cut when its family was first created is filed under p. */
  ghost predicate HasFirstRow(m: Rows, p: Id, c: Id) {
    exists w :: w in m && m[w].id == c && m[w].projectID == p && m[w].updatedAt == FamilyCreatedAt(m, c)
  }

  /** Every family with a row filed under p has its latest row, and one of its first, filed there too. */
  ghost predicate HoldsBothEnds(m: Rows, p: Id) {
    forall v | v in m && m[v].projectID == p :: Latest(m, m[v].id).projectID == p && HasFirstRow(m, p, m[v].id)
  }

  /** A family is listed alike under p exactly when its latest row and a first one are filed there. */
  lemma {:induction false} FiledFamilyAgrees(m: Rows, p: Id, c: Id)
    requires Keyed(m) && HasFamily(FiledUnder(m, p), c)
    ensures HasFamily(m, c)
    ensures Get(FiledUnder(m, p), c) == Get(m, c) <==> Latest(m, c).projectID == p && HasFirstRow(m, p, c)
  {
    var f := FiledUnder(m, p);
    var v := LatestID(f, c);
    assert f[v] == m[v] && m[v].id == c;
    if Latest(m, c).projectID == p {
      var l := LatestID(m, c);
      assert f[l] == m[l];
      LatestIsUnique(f, c, l);
      FirstRowDecides(m, p, c);
    } else {
      assert Get(f, c).projectID == p;
    }
  }

  lemma {:induction false} FirstRowDecides(m: Rows, p: Id, c: Id)
    requires HasFamily(FiledUnder(m, p), c)
    ensures FamilyCreatedAt(FiledUnder(m, p), c) == FamilyCreatedAt(m, c) <==> HasFirstRow(m, p, c)
  {
    var f := FiledUnder(m, p);
    var u :| u in f && f[u].id == c && f[u].updatedAt == FamilyCreatedAt(f, c);
    assert m[u] == f[u];
    if HasFirstRow(m, p, c) {
      var w :| w in m && m[w].id == c && m[w].projectID == p && m[w].updatedAt == FamilyCreatedAt(m, c);
      assert f[w] == m[w];
      CreatedAtIsUnique(f, c, FamilyCreatedAt(m, c));
    }
  }

  /** For one project, the two lists are the same exactly when every family with a row filed under it has
      its latest and one of its first rows filed there. */
  lemma {:induction false} ProjectListAgreesExactly(m: Rows, p: Id)
    requires Keyed(m)
    ensures FilterThenCollapse(m, p) == CollapseThenFilter(m, p) <==> HoldsBothEnds(m, p)
  {
    if HoldsBothEnds(m, p) {
      forall t ensures t in FilterThenCollapse(m, p) <==> t in CollapseThenFilter(m, p) {
        ListedAlike(m, p, t);
      }
    }
    if FilterThenCollapse(m, p) == CollapseThenFilter(m, p) {
      forall v | v in m && m[v].projectID == p
        ensures Latest(m, m[v].id).projectID == p && HasFirstRow(m, p, m[v].id)
      {
        var f, c := FiledUnder(m, p), m[v].id;
        assert f[v] == m[v];
        CatalogueHasGet(f, c);
        CatalogueIsGet(m, Get(f, c));
        FiledFamilyAgrees(m, p, c);
      }
    }
  }

  lemma {:induction false} ListedAlike(m: Rows, p: Id, t: Test)
    requires Keyed(m) && HoldsBothEnds(m, p)
    ensures t in FilterThenCollapse(m, p) <==> t in CollapseThenFilter(m, p)
  {
    var f := FiledUnder(m, p);
    if t in FilterThenCollapse(m, p) {
      CatalogueIsGet(f, t);
      var v := LatestID(f, t.id);
      assert m[v] == f[v] && m[v].projectID == p && m[v].id == t.id;
      FiledFamilyAgrees(m, p, t.id);
      CatalogueHasGet(m, t.id);
    }
    if t in CollapseThenFilter(m, p) {
      CatalogueIsGet(m, t);
      var l := LatestID(m, t.id);
      assert f[l] == m[l];
      FiledFamilyAgrees(m, p, t.id);
      CatalogueHasGet(f, t.id);
    }
  }

  lemma {:induction false} UniformListsAgree(m: Rows, p: Id)
    requires Keyed(m) && Uniform(m)
    ensures FilterThenCollapse(m, p) == CollapseThenFilter(m, p)
  {
    forall v | v in m && m[v].projectID == p
      ensures Latest(m, m[v].id).projectID == p && HasFirstRow(m, p, m[v].id)
    {
      var c := m[v].id;
      assert HasFamily(m, c);
      var w :| w in m && m[w].id == c && m[w].updatedAt == FamilyCreatedAt(m, c);
      assert m[w].projectID == m[v].projectID;
    }
    ProjectListAgreesExactly(m, p);
  }

  /** The two stores' project lists agree, for every project, exactly when every family is filed
      under a single project. */
  lemma {:induction false} ProjectListsAgreeExactlyWhenUniform(m: Rows)
    requires Keyed(m)
    ensures (forall p :: FilterThenCollapse(m, p) == CollapseThenFilter(m, p)) <==> Uniform(m)
  {
    if Uniform(m) {
      forall p ensures FilterThenCollapse(m, p) == CollapseThenFilter(m, p) {
        UniformListsAgree(m, p);
      }
    } else {
      var v, w :| v in m && w in m && m[v].id == m[w].id && m[v].projectID != m[w].projectID;
      var c := m[v].id;
      assert HasFamily(m, c);
      assert m[v].projectID != Latest(m, c).projectID || m[w].projectID != Latest(m, c).projectID;
      SplitFamilyListsDiffer(m, c);
    }
  }

  /** The project lists partition the catalogue. */
  lemma {:induction false} ProjectListsPartition(m: Rows, p: Id, q: Id)
    ensures p != q ==> CollapseThenFilter(m, p) !! CollapseThenFilter(m, q)
    ensures forall t | t in Catalogue(m) :: t in CollapseThenFilter(m, t.projectID)
    ensures CollapseThenFilter(m, p) <= Catalogue(m)
  {
  }

  lemma {:induction false} GetAfterMove(m: Rows, c: Id, q: Id, d: Id)
    requires Keyed(m) && HasFamily(m, d)
    ensures HasFamily(Moved(m, c, q), d)
    ensures Get(Moved(m, c, q), d) == if d == c then Get(m, d).(projectID := q) else Get(m, d)
  {
    MoveChangesOnlyTheProject(m, c, q);
    SameFamilies(m, Moved(m, c, q), d);
    SameLatest(m, Moved(m, c, q), d);
  }

  lemma {:induction false} CatalogueAfterMove(m: Rows, c: Id, q: Id)
    requires Keyed(m) && HasFamily(m, c)
    ensures Catalogue(Moved(m, c, q)) == Catalogue(m) - {Get(m, c)} + {Get(m, c).(projectID := q)}
  {
    var m', t := Moved(m, c, q), Get(m, c);
    forall u | u in Catalogue(m') ensures u in Catalogue(m) - {t} + {t.(projectID := q)} {
      ListedAfterMove(m, c, q, u);
    }
    forall u | u in Catalogue(m) && u != t ensures u in Catalogue(m') {
      StillListedAfterMove(m, c, q, u);
    }
    GetAfterMove(m, c, q, c);
    CatalogueHasGet(m', c);
  }

  lemma {:induction false} ListedAfterMove(m: Rows, c: Id, q: Id, u: Test)
    requires Keyed(m) && HasFamily(m, c) && u in Catalogue(Moved(m, c, q))
    ensures u == Get(m, c).(projectID := q) || (u != Get(m, c) && u in Catalogue(m))
  {
    CatalogueIsGet(Moved(m, c, q), u);
    MoveChangesOnlyTheProject(m, c, q);
    SameFamilies(m, Moved(m, c, q), u.id);
    GetAfterMove(m, c, q, u.id);
    CatalogueHasGet(m, u.id);
  }

  lemma {:induction false} StillListedAfterMove(m: Rows, c: Id, q: Id, u: Test)
    requires Keyed(m) && HasFamily(m, c) && u in Catalogue(m) && u != Get(m, c)
    ensures u in Catalogue(Moved(m, c, q))
  {
    CatalogueIsGet(m, u);
    GetAfterMove(m, c, q, u.id);
    CatalogueHasGet(Moved(m, c, q), u.id);
  }

  lemma {:induction false} Refiled(tests: set<Test>, t: Test, t': Test, r: Id)
    requires t in tests && t' !in tests && t'.projectID != t.projectID
    ensures var before, after := ByProject(tests, r), ByProject(tests - {t} + {t'}, r);
      if r == t.projectID then |after| == |before| - 1
      else if r == t'.projectID then |after| == |before| + 1
      else after == before
  {
    var before, after := ByProject(tests, r), ByProject(tests - {t} + {t'}, r);
    if r == t.projectID {
      assert after == before - {t};
    } else if r == t'.projectID {
      assert after == before + {t'};
    } else {
      assert after == before;
    }
  }

  /** A move between two projects takes exactly one test from the one list, adds it to the other and
      leaves every other list alone. */
  lemma {:induction false} MoveMovesOneTest(m: Rows, c: Id, q: Id, r: Id)
    requires Keyed(m) && HasFamily(m, c) && Latest(m, c).projectID != q
    ensures var before, after := CollapseThenFilter(m, r), CollapseThenFilter(Moved(m, c, q), r);
      if r == Latest(m, c).projectID then |after| == |before| - 1
      else if r == q then |after| == |before| + 1
      else after == before
  {
    var t := Get(m, c);
    CatalogueAfterMove(m, c, q);
    CatalogueHasGet(m, c);
    NoOtherRowOfFamily(m, c, t.(projectID := q));
    Refiled(Catalogue(m), t, t.(projectID := q), r);
  }

  lemma {:induction false} NoOtherRowOfFamily(m: Rows, c: Id, t: Test)
    requires HasFamily(m, c) && t.id == c
    ensures t in Catalogue(m) <==> t == Get(m, c)
  {
    CatalogueHasGet(m, c);
    if t in Catalogue(m) {
      CatalogueIsGet(m, t);
    }
  }

  // ---------- the steps of the memory store's scans ----------

  lemma {:induction false} RedatedStep(m: Rows, s: set<Id>, v: Id, created: Time)
    requires Keyed(m) && s <= m.Keys && v in m && v !in s
    ensures m[v].(createdAt := created) !in Redated(m, s, created)
    ensures Redated(m, s + {v}, created) == Redated(m, s, created) + {m[v].(createdAt := created)}
  {
    var row := m[v].(createdAt := created);
    assert forall w | w in s :: m[w].versionID != row.versionID;
  }

  /** The tests of latest, under the given ids, dated from their families. */
  ghost function DatedFrom(m: Rows, latest: map<Id, Test>, ids: set<Id>): set<Test> {
    set c | c in ids && c in latest :: latest[c].(createdAt := FamilyCreatedAt(m, c))
  }

  lemma {:induction false} DatedFromStep(m: Rows, latest: map<Id, Test>, ids: set<Id>, c: Id, t: Test)
    requires forall d | d in latest :: latest[d].id == d
    requires c in latest && c !in ids && t == latest[c].(createdAt := FamilyCreatedAt(m, c))
    ensures t !in DatedFrom(m, latest, ids)
    ensures DatedFrom(m, latest, ids + {c}) == DatedFrom(m, latest, ids) + {t}
  {
  }

  lemma {:induction false} DatedFromAll(m: Rows, latest: map<Id, Test>)
    requires forall c :: c in latest <==> HasFamily(m, c)
    requires forall c | c in latest :: latest[c] == Latest(m, c)
    ensures DatedFrom(m, latest, latest.Keys) == Catalogue(m)
  {
    forall t | t in Catalogue(m) ensures t in DatedFrom(m, latest, latest.Keys) {
      CatalogueIsGet(m, t);
    }
    forall c | c in latest ensures latest[c].(createdAt := FamilyCreatedAt(m, c)) in Catalogue(m) {
      CatalogueHasGet(m, c);
    }
  }

  /** A move that has not yet reached the rows in rest. */
  function MovedExcept(m: Rows, rest: set<Id>, c: Id, p: Id): Rows {
    map v | v in m :: if v !in rest && m[v].id == c then m[v].(projectID := p) else m[v]
  }

  lemma {:induction false} MovedExceptStep(m: Rows, rest: set<Id>, v: Id, c: Id, p: Id)
    requires v in rest && v in m
    ensures var now, next := MovedExcept(m, rest, c, p), MovedExcept(m, rest - {v}, c, p);
      && now[v] == m[v]
      && next == if m[v].id == c then now[v := m[v].(projectID := p)] else now
  {
  }

  function SelectProject(xs: seq<Test>, p: Id): seq<Test> {
    if |xs| == 0 then []
    else SelectProject(xs[..|xs| - 1], p) + if xs[|xs| - 1].projectID == p then [xs[|xs| - 1]] else []
  }

  lemma {:induction false} SelectProjectCounts(xs: seq<Test>, p: Id, t: Test)
    ensures multiset(SelectProject(xs, p))[t] == if t.projectID == p then multiset(xs)[t] else 0
  {
    if xs != [] {
      SelectProjectCounts(xs[..|xs| - 1], p, t);
      assert xs == xs[..|xs| - 1] + [xs[|xs| - 1]];
    }
  }

  lemma {:induction false} SelectProjectIsPart(xs: seq<Test>, p: Id)
    ensures forall t | t in SelectProject(xs, p) :: t in xs
  {
    if xs != [] {
      SelectProjectIsPart(xs[..|xs| - 1], p);
    }
  }

  lemma {:induction false} SelectProjectSorted(xs: seq<Test>, p: Id, less: (Test, Test) -> bool)
    requires Sorted(xs, less)
    ensures Sorted(SelectProject(xs, p), less)
  {
    if xs != [] {
      var init := xs[..|xs| - 1];
      SelectProjectSorted(init, p, less);
      SelectProjectIsPart(init, p);
      var kept := SelectProject(init, p);
      forall i | 0 <= i < |kept| ensures !less(xs[|xs| - 1], kept[i]) {
        assert kept[i] in kept;
        var j :| 0 <= j < |init| && init[j] == kept[i];
        assert xs[j] == kept[i];
      }
    }
  }

  /** Filtering a listing by project lists the tests of that project, in the same order. */
  lemma {:induction false} SelectKeepsListing(xs: seq<Test>, s: set<Test>, p: Id, less: (Test, Test) -> bool)
    requires Listing(xs, s, less)
    ensures Listing(SelectProject(xs, p), ByProject(s, p), less)
  {
    SelectProjectSorted(xs, p, less);
    forall t ensures multiset(SelectProject(xs, p))[t] == multiset(ByProject(s, p))[t] {
      SelectProjectCounts(xs, p, t);
      assert multiset(xs)[t] == multiset(s)[t];
    }
  }
}
