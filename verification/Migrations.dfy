/** The migration runner (backend/internal/store/postgres/postgres.go:54-139): what one Migrate does to
    the tables, and what any number of them do, interleaved and interrupted. A migration's body is an
    unknown partial function of the schema; applying it and recording its version is one transaction. */
module Migrations {
  import opened Model
  import opened MigrationFiles

  datatype Migration<!S> = Migration(version: int, body: S -> Option<S>)

  /** The bodies applied in turn; None if one of them fails. */
  function Fold<S>(ms: seq<Migration<S>>, s: S): Option<S> {
    if |ms| == 0 then Some(s)
    else match ms[0].body(s)
      case None => None
      case Some(t) => Fold(ms[1..], t)
  }

  lemma {:induction false} FoldOneMore<S>(ms: seq<Migration<S>>, m: Migration<S>, s: S)
    ensures Fold(ms + [m], s) == match Fold(ms, s) case None => None case Some(t) => m.body(t)
  {
    if |ms| == 0 {
      assert ms + [m] == [m];
    } else {
      assert (ms + [m])[1..] == ms[1..] + [m];
      match ms[0].body(s)
      case None =>
      case Some(t) => FoldOneMore(ms[1..], m, t);
    }
  }

  function Versions<S>(ms: seq<Migration<S>>): set<int> {
    set i | 0 <= i < |ms| :: ms[i].version
  }

  predicate Distinct<S>(ms: seq<Migration<S>>) {
    forall i, j | 0 <= i < j < |ms| :: ms[i].version != ms[j].version
  }

  // ---------- one Migrate ----------

  datatype File<!S> = File(name: string, body: S -> Option<S>)

  predicate AllParse<S>(files: seq<File<S>>) {
    forall i | 0 <= i < |files| :: MigrationVersion(files[i].name).Some?
  }

  function Parse<S>(files: seq<File<S>>): (ms: seq<Migration<S>>)
    requires AllParse(files)
    ensures |ms| == |files|
  {
    seq(|files|, i requires 0 <= i < |files| => Migration(MigrationVersion(files[i].name).value, files[i].body))
  }

  /** The migrations a run finds unrecorded when it comes to them. */
  function Unrecorded<S>(ms: seq<Migration<S>>, recorded: set<int>): seq<Migration<S>> {
    if |ms| == 0 then []
    else if ms[0].version in recorded then Unrecorded(ms[1..], recorded)
    else [ms[0]] + Unrecorded(ms[1..], recorded + {ms[0].version})
  }

  lemma {:induction false} UnrecordedOneMore<S>(ms: seq<Migration<S>>, m: Migration<S>, recorded: set<int>)
    ensures Unrecorded(ms + [m], recorded) ==
      Unrecorded(ms, recorded) + if m.version in recorded + Versions(ms) then [] else [m]
    decreases |ms|
  {
    if |ms| == 0 {
      assert ms + [m] == [m] && [m][1..] == [];
    } else {
      assert (ms + [m])[1..] == ms[1..] + [m];
      VersionsOfTail(ms);
      if ms[0].version in recorded {
        UnrecordedOneMore(ms[1..], m, recorded);
      } else {
        UnrecordedOneMore(ms[1..], m, recorded + {ms[0].version});
      }
    }
  }

  lemma {:induction false} VersionsOfTail<S>(ms: seq<Migration<S>>)
    requires |ms| > 0
    ensures Versions(ms) == {ms[0].version} + Versions(ms[1..])
  {
    forall v | v in Versions(ms) ensures v in {ms[0].version} + Versions(ms[1..]) {
      var i :| 0 <= i < |ms| && ms[i].version == v;
      assert i > 0 ==> ms[1..][i - 1] == ms[i];
    }
    forall v | v in Versions(ms[1..]) ensures v in Versions(ms) {
      var i :| 0 <= i < |ms| - 1 && ms[1..][i].version == v;
      assert ms[i + 1].version == v;
    }
  }

  lemma {:induction false} VersionsOneMore<S>(ms: seq<Migration<S>>, m: Migration<S>)
    ensures Versions(ms + [m]) == Versions(ms) + {m.version}
  {
    forall v | v in Versions(ms) + {m.version} ensures v in Versions(ms + [m]) {
      if v in Versions(ms) {
        var i :| 0 <= i < |ms| && ms[i].version == v;
        assert (ms + [m])[i].version == v;
      } else {
        assert (ms + [m])[|ms|].version == v;
      }
    }
  }

  /** Why a run ends early: a name without a version, a check that did not get through, or an
      unrecorded migration that failed or whose transaction was cut off. */
  predicate Stops<S>(file: File<S>, s: S, recorded: set<int>, unchecked: bool, cut: bool) {
    match MigrationVersion(file.name)
    case None => true
    case Some(v) => unchecked || (v !in recorded && (cut || file.body(s).None?))
  }

  /** n files have been dealt with, and the unrecorded ones among them, and no others, were applied in
      order and recorded. */
  predicate Ran<S(==)>(files: seq<File<S>>, n: nat, schema: S, recorded: set<int>, schema': S, recorded': set<int>) {
    && n <= |files| && AllParse(files[..n])
    && recorded' == recorded + Versions(Parse(files[..n]))
    && Fold(Unrecorded(Parse(files[..n]), recorded), schema) == Some(schema')
  }

  lemma {:induction false} RanOneMore<S>(files: seq<File<S>>, n: nat, s: S, r: set<int>, s': S, r': set<int>)
    requires Ran(files, n, s, r, s', r') && n < |files| && MigrationVersion(files[n].name).Some?
    ensures var v := MigrationVersion(files[n].name).value;
      && (v in r' ==> Ran(files, n + 1, s, r, s', r'))
      && (v !in r' && files[n].body(s').Some? ==> Ran(files, n + 1, s, r, files[n].body(s').value, r' + {v}))
  {
    var ms, m := Parse(files[..n]), Migration(MigrationVersion(files[n].name).value, files[n].body);
    OneMoreFile(files, n, m);
    UnrecordedOneMore(ms, m, r);
    VersionsOneMore(ms, m);
    FoldOneMore(Unrecorded(ms, r), m, s);
    assert Unrecorded(ms, r) + [] == Unrecorded(ms, r);
  }

  lemma {:induction false} OneMoreFile<S>(files: seq<File<S>>, n: nat, m: Migration<S>)
    requires n < |files| && AllParse(files[..n]) && MigrationVersion(files[n].name) == Some(m.version)
    requires m.body == files[n].body
    ensures AllParse(files[..n + 1]) && Parse(files[..n + 1]) == Parse(files[..n]) + [m]
  {
    assert files[..n + 1] == files[..n] + [files[n]];
  }

  class Database<S(==)> {
    var schema: S
    var recorded: set<int>

    constructor (schema: S)
      ensures this.schema == schema && recorded == {}
    {
      this.schema := schema;
      recorded := {};
    }

    method MigrationApplied(version: int, unchecked: bool) returns (applied: Option<bool>)
      ensures applied == if unchecked then None else Some(version in recorded)
    {
      applied := if unchecked then None else Some(version in recorded);
    }

    /** One transaction: the body's effect and its record appear together or not at all. cut stands for
        any failure of the connection before the commit. */
    method ApplyMigration(version: int, body: S -> Option<S>, cut: bool) returns (ok: bool)
      modifies this
      ensures ok <==> !cut && body(old(schema)).Some? && version !in old(recorded)
      ensures ok ==> Some(schema) == body(old(schema)) && recorded == old(recorded) + {version}
      ensures !ok ==> schema == old(schema) && recorded == old(recorded)
    {
      var working := body(schema);
      if working.None? {
        return false;
      }
      if version in recorded {
        return false;
      }
      if cut {
        return false;
      }
      schema, recorded := working.value, recorded + {version};
      ok := true;
    }

    /** Any run, from any state, whether or not it completes: see Ran. */
    method Migrate(files: seq<File<S>>, unchecked: nat -> bool, cut: nat -> bool) returns (ok: bool, n: nat)
      modifies this
      ensures Ran(files, n, old(schema), old(recorded), schema, recorded)
      ensures ok <==> n == |files|
      ensures !ok ==> Stops(files[n], schema, recorded, unchecked(n), cut(n))
    {
      n := 0;
      while n < |files|
        invariant Ran(files, n, old(schema), old(recorded), schema, recorded)
      {
        var version := MigrationVersion(files[n].name);
        if version.None? {
          return false, n;
        }
        RanOneMore(files, n, old(schema), old(recorded), schema, recorded);
        var applied := MigrationApplied(version.value, unchecked(n));
        if applied.None? {
          return false, n;
        }
        if applied.value {
          n := n + 1;
          continue;
        }
        var done := ApplyMigration(version.value, files[n].body, cut(n));
        if !done {
          return false, n;
        }
        n := n + 1;
      }
      ok := true;
    }
  }

  // ---------- what the versions must be ----------

  /** Resuming after a prefix applies exactly the rest of it. */
  lemma {:induction false} UnrecordedIsTheRest<S>(ms: seq<Migration<S>>, k: nat, n: nat)
    requires Distinct(ms) && k <= n <= |ms|
    ensures Unrecorded(ms[..n], Versions(ms[..k])) == ms[k..n]
    decreases n - k
  {
    if n == k {
      NothingUnrecorded(ms[..k], Versions(ms[..k]));
    } else {
      var m := ms[n - 1];
      UnrecordedIsTheRest(ms, k, n - 1);
      assert ms[..n] == ms[..n - 1] + [m];
      UnrecordedOneMore(ms[..n - 1], m, Versions(ms[..k]));
      VersionsOfPrefix(ms, n - 1, n - 1);
      VersionsOfPrefix(ms, k, n - 1);
    }
  }

  /** One Migrate, resumed after a prefix of k and stopped after n files, leaves the longer of the two
      prefixes; if it completes, that is all of them. */
  lemma {:induction false} MigrateExtendsThePrefix<S>(files: seq<File<S>>, initial: S, k: nat, n: nat, s: S, s': S, r': set<int>)
    requires AllParse(files) && Distinct(Parse(files)) && k <= |files| && n <= |files|
    requires Fold(Parse(files)[..k], initial) == Some(s)
    requires Ran(files, n, s, Versions(Parse(files)[..k]), s', r')
    ensures var k', ms := if n < k then k else n, Parse(files);
      r' == Versions(ms[..k']) && Fold(ms[..k'], initial) == Some(s')
  {
    assert Parse(files[..n]) == Parse(files)[..n];
    PrefixGrows(Parse(files), initial, k, n, s);
  }

  lemma {:induction false} PrefixGrows<S>(ms: seq<Migration<S>>, initial: S, k: nat, n: nat, s: S)
    requires Distinct(ms) && k <= |ms| && n <= |ms| && Fold(ms[..k], initial) == Some(s)
    ensures var k', r := if n < k then k else n, Versions(ms[..k]);
      r + Versions(ms[..n]) == Versions(ms[..k']) && Fold(Unrecorded(ms[..n], r), s) == Fold(ms[..k'], initial)
  {
    if n <= k {
      assert ms[..k] == ms[..n] + ms[n..k];
      VersionsInTwo(ms[..n], ms[n..k]);
      NothingUnrecorded(ms[..n], Versions(ms[..k]));
    } else {
      assert ms[..n] == ms[..k] + ms[k..n];
      VersionsInTwo(ms[..k], ms[k..n]);
      UnrecordedIsTheRest(ms, k, n);
      FoldInTwo(ms[..k], ms[k..n], initial);
    }
  }

  lemma {:induction false} VersionsInTwo<S>(a: seq<Migration<S>>, b: seq<Migration<S>>)
    ensures Versions(a) <= Versions(a + b)
  {
    forall v | v in Versions(a) ensures v in Versions(a + b) {
      var i :| 0 <= i < |a| && a[i].version == v;
      assert (a + b)[i].version == v;
    }
  }

  lemma {:induction false} NothingUnrecorded<S>(ms: seq<Migration<S>>, recorded: set<int>)
    requires Versions(ms) <= recorded
    ensures Unrecorded(ms, recorded) == []
    decreases |ms|
  {
    if |ms| > 0 {
      VersionsOfTail(ms);
      NothingUnrecorded(ms[1..], recorded);
    }
  }

  lemma {:induction false} VersionsOfPrefix<S>(ms: seq<Migration<S>>, k: nat, i: nat)
    requires Distinct(ms) && k <= |ms| && i < |ms|
    ensures ms[i].version in Versions(ms[..k]) <==> i < k
  {
    if i < k {
      assert ms[..k][i] == ms[i];
    }
  }

  /** From nothing recorded, a complete run applies every migration exactly when no version is used
      twice; a second file of the same version is silently skipped. */
  lemma {:induction false} AllAreAppliedExactlyWhenDistinct<S>(ms: seq<Migration<S>>)
    ensures Unrecorded(ms, {}) == ms <==> Distinct(ms)
    ensures !Distinct(ms) ==> |Unrecorded(ms, {})| < |ms|
  {
    if Distinct(ms) {
      UnrecordedIsTheRest(ms, 0, |ms|);
      assert ms[..|ms|] == ms && Versions(ms[..0]) == {};
    } else {
      var i, j :| 0 <= i < j < |ms| && ms[i].version == ms[j].version;
      assert ms == ms[..j] + [ms[j]] + ms[j + 1..];
      assert ms[..j][i] == ms[i];
      UnrecordedIsNoLonger(ms[..j], {});
      UnrecordedOneMore(ms[..j], ms[j], {});
      UnrecordedGrowsSlowly(ms[..j] + [ms[j]], ms[j + 1..], {});
    }
  }

  lemma {:induction false} UnrecordedIsNoLonger<S>(ms: seq<Migration<S>>, recorded: set<int>)
    ensures |Unrecorded(ms, recorded)| <= |ms|
    decreases |ms|
  {
    if |ms| > 0 {
      UnrecordedIsNoLonger(ms[1..], recorded);
      UnrecordedIsNoLonger(ms[1..], recorded + {ms[0].version});
    }
  }

  lemma {:induction false} UnrecordedGrowsSlowly<S>(ms: seq<Migration<S>>, more: seq<Migration<S>>, recorded: set<int>)
    ensures |Unrecorded(ms + more, recorded)| <= |Unrecorded(ms, recorded)| + |more|
    decreases |more|
  {
    if |more| == 0 {
      assert ms + more == ms;
    } else {
      var last := more[|more| - 1];
      UnrecordedGrowsSlowly(ms, more[..|more| - 1], recorded);
      UnrecordedOneMore(ms + more[..|more| - 1], last, recorded);
      assert ms + more == ms + more[..|more| - 1] + [last];
    }
  }

  /** An older deployment has its first migrations applied but unrecorded. If each of them does nothing
      to the schema they lead to, a run over everything gives what a fresh database would have. */
  lemma {:induction false} LegacyDatabasesCatchUp<S>(ms: seq<Migration<S>>, j: nat, empty: S, legacy: S)
    requires j <= |ms| && Fold(ms[..j], empty) == Some(legacy)
    requires forall i | 0 <= i < j :: ms[i].body(legacy) == Some(legacy)
    ensures Fold(ms, legacy) == Fold(ms, empty)
  {
    HarmlessPrefix(ms[..j], legacy);
    assert ms == ms[..j] + ms[j..];
    FoldInTwo(ms[..j], ms[j..], empty);
    FoldInTwo(ms[..j], ms[j..], legacy);
  }

  lemma {:induction false} HarmlessPrefix<S>(ms: seq<Migration<S>>, s: S)
    requires forall i | 0 <= i < |ms| :: ms[i].body(s) == Some(s)
    ensures Fold(ms, s) == Some(s)
    decreases |ms|
  {
    if |ms| > 0 {
      assert ms[0].body(s) == Some(s);
      HarmlessPrefix(ms[1..], s);
    }
  }

  lemma {:induction false} FoldInTwo<S>(a: seq<Migration<S>>, b: seq<Migration<S>>, s: S)
    ensures Fold(a + b, s) == match Fold(a, s) case None => None case Some(t) => Fold(b, t)
    decreases |a|
  {
    if |a| == 0 {
      assert a + b == b;
    } else {
      assert (a + b)[1..] == a[1..] + b;
      match a[0].body(s)
      case None =>
      case Some(t) => FoldInTwo(a[1..], b, t);
    }
  }
}
