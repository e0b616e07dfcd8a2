/** The pieces of Go's strings and strconv packages that the backend relies on. */
module Text {
  import opened Model

  /** strings.IndexByte, with |s| for "not found". */
  function IndexOf(s: string, c: char): (i: nat)
    ensures i <= |s|
  {
    if |s| == 0 || s[0] == c then 0 else 1 + IndexOf(s[1..], c)
  }

  lemma {:induction false} IndexOfIsFirst(s: string, c: char)
    ensures var i := IndexOf(s, c);
      && c !in s[..i]
      && (i < |s| ==> s == s[..i] + [c] + s[i + 1..])
      && (i == |s| ==> s[..i] == s)
  {
    var i := IndexOf(s, c);
    if |s| > 0 && s[0] != c {
      IndexOfIsFirst(s[1..], c);
      assert s[..i] == [s[0]] + s[1..][..i - 1];
      assert i < |s| ==> s[i..] == s[1..][i - 1..];
    }
  }

  lemma {:induction false} IndexOfFound(a: string, c: char, b: string)
    requires c !in a
    ensures IndexOf(a + [c] + b, c) == |a|
    ensures IndexOf(a, c) == |a|
  {
    if a != "" {
      assert a[0] in a && (a + [c] + b)[1..] == a[1..] + [c] + b;
      IndexOfFound(a[1..], c, b);
    }
  }

  function Split(s: string, sep: char): (fs: seq<string>)
    ensures |fs| >= 1
  {
    var i := IndexOf(s, sep);
    if i == |s| then [s] else [s[..i]] + Split(s[i + 1..], sep)
  }

  function Join(fs: seq<string>, sep: char): string {
    if |fs| == 0 then ""
    else if |fs| == 1 then fs[0]
    else fs[0] + [sep] + Join(fs[1..], sep)
  }

  lemma {:induction false} SplitJoin(fs: seq<string>, sep: char)
    requires |fs| >= 1 && forall f | f in fs :: sep !in f
    ensures Split(Join(fs, sep), sep) == fs
  {
    var s := Join(fs, sep);
    if |fs| > 1 {
      SplitJoin(fs[1..], sep);
      assert fs[0] in fs;
      IndexOfFound(fs[0], sep, Join(fs[1..], sep));
      assert s[..|fs[0]|] == fs[0] && s[|fs[0]| + 1..] == Join(fs[1..], sep);
    } else {
      assert s in fs;
      IndexOfFound(s, sep, "");
    }
  }

  predicate IsEol(c: char) { c == '\r' || c == '\n' }

  function TrimEol(s: string): string {
    if |s| > 0 && IsEol(s[|s| - 1]) then TrimEol(s[..|s| - 1]) else s
  }

  lemma {:induction false} TrimEolDropsTheEnding(s: string, eol: string)
    requires s == "" || !IsEol(s[|s| - 1])
    requires forall c | c in eol :: IsEol(c)
    ensures TrimEol(s + eol) == s
  {
    if eol == "" {
      assert s + eol == s;
    } else {
      assert (s + eol)[|s + eol| - 1] == eol[|eol| - 1] && eol[|eol| - 1] in eol;
      assert (s + eol)[..|s + eol| - 1] == s + eol[..|eol| - 1];
      TrimEolDropsTheEnding(s, eol[..|eol| - 1]);
    }
  }

  lemma {:induction false} JoinEndsLikeItsLastField(fs: seq<string>, sep: char)
    requires |fs| >= 1
    requires fs[|fs| - 1] != "" ==> !IsEol(fs[|fs| - 1][|fs[|fs| - 1]| - 1])
    requires !IsEol(sep)
    ensures var s := Join(fs, sep); s == "" || !IsEol(s[|s| - 1])
  {
    if |fs| > 1 {
      JoinEndsLikeItsLastField(fs[1..], sep);
    }
  }

  // ---------- decimal integers ----------

  const MIN_INT64: int := -0x8000_0000_0000_0000
  const MAX_INT64: int := 0x7fff_ffff_ffff_ffff

  predicate InInt64(n: int) { MIN_INT64 <= n <= MAX_INT64 }

  /** Two's-complement wrap-around, as Go's int64 addition does. */
  function Wrap64(n: int): int {
    (n - MIN_INT64) % 0x1_0000_0000_0000_0000 + MIN_INT64
  }

  lemma WrapFacts(a: int, b: int)
    ensures InInt64(Wrap64(a))
    ensures Wrap64(Wrap64(a) + b) == Wrap64(a + b)
    ensures Wrap64(a) == a <==> InInt64(a)
  {
  }

  predicate IsDigit(c: char) { '0' <= c <= '9' }

  function FormatNat(n: nat): (s: string)
    ensures s != "" && forall c | c in s :: IsDigit(c)
  {
    var d := [('0' as int + n % 10) as char];
    if n < 10 then d else FormatNat(n / 10) + d
  }

  function FormatInt(n: int): string {
    if n < 0 then "-" + FormatNat(-n) else FormatNat(n)
  }

  function ParseNat(s: string): Option<nat> {
    if |s| == 0 || !IsDigit(s[|s| - 1]) then None
    else
      var d := s[|s| - 1] as int - '0' as int;
      if |s| == 1 then Some(d)
      else match ParseNat(s[..|s| - 1])
        case None => None
        case Some(n) => Some(10 * n + d)
  }

  /** strconv.ParseInt(s, 10, 64): None stands for both the syntax and the range error. */
  function ParseInt64(s: string): Option<int> {
    if |s| == 0 then None
    else match ParseNat(if s[0] == '-' || s[0] == '+' then s[1..] else s)
      case None => None
      case Some(n) =>
        var v: int := if s[0] == '-' then 0 - n else n;
        if InInt64(v) then Some(v) else None
  }

  lemma {:induction false} ParseFormatNat(n: nat)
    ensures ParseNat(FormatNat(n)) == Some(n)
  {
    var s := FormatNat(n);
    if n >= 10 {
      ParseFormatNat(n / 10);
      assert s[..|s| - 1] == FormatNat(n / 10);
    }
  }

  lemma ParseFormatInt(n: int)
    ensures ParseInt64(FormatInt(n)) == if InInt64(n) then Some(n) else None
    ensures ',' !in FormatInt(n)
  {
    if n < 0 {
      ParseFormatNat(-n);
      assert FormatInt(n)[1..] == FormatNat(-n);
    } else {
      ParseFormatNat(n);
      assert FormatNat(n)[0] in FormatNat(n);
    }
  }

  predicate AllDigits(s: string) {
    s != "" && forall c | c in s :: IsDigit(c)
  }

  /** Digits, and only digits, make a natural number; each digit counts ten times the ones before it. */
  lemma {:induction false} ParsesExactlyDigits(s: string)
    ensures ParseNat(s).Some? <==> AllDigits(s)
    ensures AllDigits(s) ==>
      var n := |s| - 1;
      ParseNat(s).value == (if n == 0 then 0 else 10 * ParseNat(s[..n]).value) + (s[n] as int - '0' as int)
  {
    if s != "" {
      var n := |s| - 1;
      assert s == s[..n] + [s[n]] && s[n] in s;
      if n > 0 {
        ParsesExactlyDigits(s[..n]);
        assert forall c | c in s[..n] :: c in s;
      }
    }
  }

  /** An optional sign and digits, within 64 bits: exactly that is an integer. */
  lemma {:induction false} ParsesExactlyIntegers(s: string, v: int)
    ensures ParseInt64(s) == Some(v) <==>
      InInt64(v) && s != "" &&
      if s[0] == '-' then AllDigits(s[1..]) && ParseNat(s[1..]) == Some(-v)
      else if s[0] == '+' then AllDigits(s[1..]) && ParseNat(s[1..]) == Some(v)
      else AllDigits(s) && ParseNat(s) == Some(v)
  {
    ParsesExactlyDigits(s);
    if s != "" {
      ParsesExactlyDigits(s[1..]);
    }
  }

  // ---------- string order ----------

  /** Go's < on strings. */
  predicate Less(a: string, b: string) {
    b != "" && (a == "" || a[0] < b[0] || (a[0] == b[0] && Less(a[1..], b[1..])))
  }

  lemma {:induction false} LessIsTotal(a: string, b: string)
    ensures !Less(a, a)
    ensures Less(a, b) ==> !Less(b, a)
    ensures a != b ==> Less(a, b) || Less(b, a)
  {
    if a != "" {
      LessIsTotal(a[1..], if |b| == 0 then "" else b[1..]);
      if |b| > 0 && a[0] == b[0] && a[1..] == b[1..] {
        assert a == [a[0]] + a[1..] && b == [b[0]] + b[1..];
      }
    }
  }

  lemma {:induction false} LessAfterPrefix(p: string, a: string, b: string)
    ensures Less(p + a, p + b) <==> Less(a, b)
  {
    if |p| == 0 {
      assert p + a == a && p + b == b;
    } else {
      assert (p + a)[1..] == p[1..] + a && (p + b)[1..] == p[1..] + b;
      LessAfterPrefix(p[1..], a, b);
    }
  }

  /** Strings are ordered by the first character in which they differ, and a prefix comes first. */
  lemma {:induction false} LessIsLexicographic(p: string, c: char, a: string, d: char, b: string)
    requires c != d
    ensures Less(p + ([c] + a), p + ([d] + b)) <==> c < d
    ensures Less(p, p + ([c] + a))
  {
    LessAfterPrefix(p, [c] + a, [d] + b);
    LessAfterPrefix(p, "", [c] + a);
    assert p + "" == p;
  }

  lemma {:induction false} LessIsTransitive(a: string, b: string, c: string)
    ensures !Less(a, b) && !Less(b, c) ==> !Less(a, c)
  {
    if |a| > 0 && b != "" && c != "" {
      LessIsTransitive(a[1..], b[1..], c[1..]);
    }
  }
}
