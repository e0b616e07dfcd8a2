/** The names of the migration files (backend/internal/store/postgres/postgres.go:85-114). */
module MigrationFiles {
  import opened Model
  import opened Text
  import opened Ordering

  datatype Entry = Entry(name: string, isDir: bool)

  const SQL: string := ".sql"

  predicate HasSuffix(s: string, suffix: string) {
    |suffix| <= |s| && s[|s| - |suffix|..] == suffix
  }

  function SqlNames(entries: seq<Entry>): set<string> {
    set e | e in entries && !e.isDir && HasSuffix(e.name, SQL) :: e.name
  }

  /** The migrations are the plain files whose names end in .sql. */
  lemma {:induction false} SqlNamesExactly(entries: seq<Entry>, name: string)
    ensures name in SqlNames(entries) <==>
      Entry(name, false) in entries && |name| >= 4 && name[|name| - 4] == '.' && name[|name| - 3] == 's'
      && name[|name| - 2] == 'q' && name[|name| - 1] == 'l'
  {
    if |name| >= 4 {
      var end := name[|name| - 4..];
      assert end == [name[|name| - 4], name[|name| - 3], name[|name| - 2], name[|name| - 1]];
    }
  }

  lemma {:induction false} LessIsAnOrder()
    ensures StrictWeakOrder(Less)
  {
    forall a: string, b: string ensures Less(a, b) ==> !Less(b, a) {
      LessIsTotal(a, b);
    }
    forall a: string, b: string, c: string ensures !Less(a, b) && !Less(b, c) ==> !Less(a, c) {
      LessIsTransitive(a, b, c);
    }
  }

  method MigrationFilenames(entries: seq<Entry>) returns (names: seq<string>)
    requires forall i, j | 0 <= i < j < |entries| :: entries[i].name != entries[j].name
    ensures Enumerates(names, SqlNames(entries)) && Sorted(names, Less)
  {
    names := [];
    for i := 0 to |entries|
      invariant Enumerates(names, SqlNames(entries[..i]))
    {
      var e := entries[i];
      assert entries[..i + 1] == entries[..i] + [e];
      if !e.isDir && HasSuffix(e.name, SQL) {
        assert e.name !in SqlNames(entries[..i]);
        EnumerateOneMore(names, SqlNames(entries[..i]), e.name, SqlNames(entries[..i + 1]));
        names := names + [e.name];
      } else {
        assert SqlNames(entries[..i + 1]) == SqlNames(entries[..i]);
      }
    }
    assert entries[..|entries|] == entries;
    LessIsAnOrder();
    names := SortSlice(names, Less);
  }

  /** None is an error: no prefix, or one strconv.Atoi refuses. */
  function MigrationVersion(name: string): Option<int> {
    var i := IndexOf(name, '_');
    if i == |name| || i == 0 then None else ParseInt64(name[..i])
  }

  /** A name has a version exactly when something that is an integer of 64 bits stands before its first
      underscore. */
  lemma {:induction false} VersionsExactly(name: string, v: int)
    ensures MigrationVersion(name) == Some(v) <==>
      exists i :: HasPrefix(name, i) && ParseInt64(name[..i]) == Some(v)
  {
    IndexOfIsFirst(name, '_');
    var i := IndexOf(name, '_');
    if MigrationVersion(name) == Some(v) {
      assert HasPrefix(name, i);
    }
    if j :| HasPrefix(name, j) && ParseInt64(name[..j]) == Some(v) {
      IndexOfFound(name[..j], '_', name[j + 1..]);
      assert name == name[..j] + ['_'] + name[j + 1..];
    }
  }

  /** The first underscore of the name stands at i, and not at its start. */
  predicate HasPrefix(name: string, i: int) {
    0 < i < |name| && name[i] == '_' && '_' !in name[..i]
  }

  lemma {:induction false} DigitsParse(s: string)
    requires AllDigits(s)
    ensures ParseNat(s).Some? && '_' !in s
  {
    assert s[|s| - 1] in s;
    if |s| > 1 {
      assert forall c | c in s[..|s| - 1] :: c in s;
      DigitsParse(s[..|s| - 1]);
    }
  }

  /** The number the name starts with. */
  function Prefix(digits: string): nat
    requires AllDigits(digits)
  {
    DigitsParse(digits);
    ParseNat(digits).value
  }

  /** A prefix of digits is the version, whatever follows the underscore. */
  lemma {:induction false} VersionOfName(digits: string, rest: string)
    requires AllDigits(digits)
    ensures MigrationVersion(digits + "_" + rest) ==
      if Prefix(digits) <= MAX_INT64 then Some(Prefix(digits)) else None
  {
    DigitsParse(digits);
    IndexOfFound(digits, '_', rest);
    var name := digits + ['_'] + rest;
    assert digits + "_" + rest == name && name[..|digits|] == digits;
    assert digits[0] in digits;
  }

  function Digit(c: char): int { c as int - '0' as int }

  lemma {:induction false} LastDigit(a: string)
    requires AllDigits(a) && |a| > 1
    ensures var n := |a| - 1;
      && a == a[..n] + [a[n]] && IsDigit(a[n])
      && AllDigits(a[..n]) && Prefix(a) == 10 * Prefix(a[..n]) + Digit(a[n])
  {
    var n := |a| - 1;
    assert a[n] in a;
    forall c | c in a[..n] ensures c in a {
    }
    DigitsParse(a);
  }

  lemma {:induction false} PaddedOrder(a: string, b: string, x: string, y: string)
    requires AllDigits(a) && AllDigits(b) && |a| == |b|
    ensures Prefix(a) < Prefix(b) ==> Less(a + x, b + y)
    ensures Prefix(a) == Prefix(b) ==> a == b
    decreases |a|
  {
    if |a| == 1 {
      OneDigitOrder(a, b, x, y);
    } else {
      var n := |a| - 1;
      var p, q, c, d := a[..n], b[..n], a[n], b[n];
      LastDigit(a);
      LastDigit(b);
      PaddedOrder(p, q, [c] + x, [d] + y);
      assert a + x == p + ([c] + x) && b + y == q + ([d] + y);
      LessAfterPrefix(p, [c] + x, [d] + y);
    }
  }

  lemma {:induction false} OneDigitOrder(a: string, b: string, x: string, y: string)
    requires AllDigits(a) && AllDigits(b) && |a| == |b| == 1
    ensures Prefix(a) < Prefix(b) ==> Less(a + x, b + y)
    ensures Prefix(a) == Prefix(b) ==> a == b
  {
    assert a[0] in a && b[0] in b && a == [a[0]] && b == [b[0]];
    assert (a + x)[0] == a[0] && (b + y)[0] == b[0];
  }

  /** The name up to and including its first underscore. */
  function Stem(name: string): string
    requires MigrationVersion(name).Some?
  {
    name[..IndexOf(name, '_') + 1]
  }

  /** Names that differ before the underscore compare as their stems do, whatever follows. */
  lemma {:induction false} StemsDecide(p: string, q: string, x: string, y: string)
    requires '_' !in p && '_' !in q && p != q
    ensures Less(p + "_" + x, q + "_" + y) <==> Less(p + "_", q + "_")
    decreases |p|
  {
    var a, b, c, d := p + "_" + x, q + "_" + y, p + "_", q + "_";
    if p != "" && q != "" && p[0] == q[0] {
      assert p == [p[0]] + p[1..] && q == [q[0]] + q[1..];
      assert a[1..] == p[1..] + "_" + x && b[1..] == q[1..] + "_" + y;
      assert c[1..] == p[1..] + "_" && d[1..] == q[1..] + "_";
      StemsDecide(p[1..], q[1..], x, y);
    } else {
      assert p != "" ==> p[0] in p;
      assert q != "" ==> q[0] in q;
      assert a[0] == c[0] && b[0] == d[0] && a[0] != b[0];
    }
  }

  lemma {:induction false} NameParts(name: string)
    requires MigrationVersion(name).Some?
    ensures var i := IndexOf(name, '_');
      && '_' !in name[..i] && name == name[..i] + "_" + name[i + 1..] && Stem(name) == name[..i] + "_"
      && MigrationVersion(name) == ParseInt64(name[..i])
  {
    IndexOfIsFirst(name, '_');
  }

  lemma {:induction false} StemOrder(a: string, b: string)
    requires MigrationVersion(a).Some? && MigrationVersion(b).Some? && MigrationVersion(a) != MigrationVersion(b)
    ensures Less(a, b) <==> Less(Stem(a), Stem(b))
  {
    NameParts(a);
    NameParts(b);
    var i, j := IndexOf(a, '_'), IndexOf(b, '_');
    StemsDecide(a[..i], b[..j], a[i + 1..], b[j + 1..]);
  }

  predicate HaveVersions(names: seq<string>) {
    forall i | 0 <= i < |names| :: MigrationVersion(names[i]).Some?
  }

  predicate InVersionOrder(names: seq<string>)
    requires HaveVersions(names)
  {
    forall i, j | 0 <= i < j < |names| :: MigrationVersion(names[i]).value <= MigrationVersion(names[j]).value
  }

  /** Of any two names, the one with the smaller version has the earlier stem. */
  predicate StemsInVersionOrder(names: seq<string>)
    requires HaveVersions(names)
  {
    forall i, j | 0 <= i < |names| && 0 <= j < |names| && MigrationVersion(names[i]).value < MigrationVersion(names[j]).value ::
      Less(Stem(names[i]), Stem(names[j]))
  }

  /** File order is version order exactly when the stems sort by version; the descriptions after the
      underscore do not matter. */
  lemma {:induction false} SortedByVersionExactly(names: seq<string>)
    requires Sorted(names, Less) && HaveVersions(names)
    ensures InVersionOrder(names) <==> StemsInVersionOrder(names)
  {
    if InVersionOrder(names) {
      forall i, j | 0 <= i < |names| && 0 <= j < |names| && MigrationVersion(names[i]).value < MigrationVersion(names[j]).value
        ensures Less(Stem(names[i]), Stem(names[j]))
      {
        assert i < j && !Less(names[j], names[i]);
        LessIsTotal(names[i], names[j]);
        StemOrder(names[i], names[j]);
      }
    }
    if StemsInVersionOrder(names) {
      forall i, j | 0 <= i < j < |names| ensures MigrationVersion(names[i]).value <= MigrationVersion(names[j]).value {
        assert !Less(names[j], names[i]);
        if MigrationVersion(names[j]).value < MigrationVersion(names[i]).value {
          StemOrder(names[j], names[i]);
        }
      }
    }
  }

  /** NNNN_description.sql. */
  predicate Padded(name: string, width: nat) {
    0 < width < |name| && AllDigits(name[..width]) && name[width] == '_'
  }

  lemma {:induction false} PaddedVersion(name: string, width: nat)
    requires Padded(name, width) && width <= 18
    ensures MigrationVersion(name) == Some(Prefix(name[..width])) && Stem(name) == name[..width] + "_"
  {
    var digits := name[..width];
    assert name == digits + "_" + name[width + 1..];
    VersionOfName(digits, name[width + 1..]);
    PrefixIsShort(digits);
    DigitsParse(digits);
    IndexOfFound(digits, '_', name[width + 1..]);
    assert digits + ['_'] + name[width + 1..] == name;
  }

  /** One width of zero-padded prefixes is enough. */
  lemma {:induction false} PaddedNamesSortByVersion(names: seq<string>, width: nat)
    requires Sorted(names, Less) && width <= 18
    requires forall i | 0 <= i < |names| :: Padded(names[i], width)
    ensures HaveVersions(names) && InVersionOrder(names)
  {
    forall i | 0 <= i < |names| ensures MigrationVersion(names[i]) == Some(Prefix(names[i][..width])) {
      PaddedVersion(names[i], width);
    }
    forall i, j | 0 <= i < |names| && 0 <= j < |names| && MigrationVersion(names[i]).value < MigrationVersion(names[j]).value
      ensures Less(Stem(names[i]), Stem(names[j]))
    {
      PaddedVersion(names[i], width);
      PaddedVersion(names[j], width);
      PaddedOrder(names[i][..width], names[j][..width], "_", "_");
    }
    SortedByVersionExactly(names);
  }

  function Pow10(n: nat): nat { if n == 0 then 1 else 10 * Pow10(n - 1) }

  lemma {:induction false} PrefixIsBounded(digits: string)
    requires AllDigits(digits)
    ensures Prefix(digits) < Pow10(|digits|)
    decreases |digits|
  {
    var n := |digits| - 1;
    assert digits[n] in digits;
    DigitsParse(digits);
    if n > 0 {
      assert forall c | c in digits[..n] :: c in digits;
      PrefixIsBounded(digits[..n]);
    }
  }

  lemma {:induction false} PowersGrow(a: nat, b: nat)
    requires a <= b
    ensures Pow10(a) <= Pow10(b)
    decreases b
  {
    if a < b {
      PowersGrow(a, b - 1);
    }
  }

  lemma {:induction false} PrefixIsShort(digits: string)
    requires AllDigits(digits) && |digits| <= 18
    ensures Prefix(digits) <= MAX_INT64
  {
    PrefixIsBounded(digits);
    PowersGrow(|digits|, 18);
    assert Pow10(6) == 1_000_000;
    assert Pow10(12) == 1_000_000_000_000;
    assert Pow10(18) == 1_000_000_000_000_000_000;
  }

  /** Without padding the orders can part, and need not. */
  lemma {:induction false} UnpaddedNamesMayNotSortByVersion()
    ensures Less("10_b.sql", "9_a.sql")
    ensures MigrationVersion("10_b.sql") == Some(10) && MigrationVersion("9_a.sql") == Some(9)
    ensures Less("1_a.sql", "20_b.sql")
    ensures MigrationVersion("1_a.sql") == Some(1) && MigrationVersion("20_b.sql") == Some(20)
  {
    OneDigitName('9', "a.sql", "9_a.sql");
    OneDigitName('1', "a.sql", "1_a.sql");
    TwoDigitName('1', '0', "b.sql", "10_b.sql");
    TwoDigitName('2', '0', "b.sql", "20_b.sql");
  }

  lemma {:induction false} OneDigitName(c: char, rest: string, name: string)
    requires IsDigit(c) && name == [c] + "_" + rest
    ensures MigrationVersion(name) == Some(Digit(c))
  {
    VersionOfName([c], rest);
  }

  lemma {:induction false} TwoDigitName(c: char, d: char, rest: string, name: string)
    requires IsDigit(c) && IsDigit(d) && name == [c, d] + "_" + rest
    ensures MigrationVersion(name) == Some(10 * Digit(c) + Digit(d))
  {
    LastDigit([c, d]);
    assert [c, d][..1] == [c];
    VersionOfName([c, d], rest);
  }
}
