/** The project registry as a value, and the names it accepts
    (backend/internal/api/projects.go, backend/internal/store/memstore/projectstore.go). */
module Projects {
  import opened Model
  import opened Text
  import opened Ordering

  type Registry = map<Id, Project>

  const DEFAULT_PROJECT_ID: Id := "00000000-0000-0000-0000-000000000001"
  const DEFAULT_PROJECT_NAME: string := "Default"
  const PROJECT_NAME_MAX_LEN := 100

  // ---------- names ----------

  /** unicode.IsSpace. */
  predicate IsSpace(c: char) {
    || '\t' <= c <= '\r' || c == ' '
    || c == '\U{0085}' || c == '\U{00A0}' || c == '\U{1680}'
    || '\U{2000}' <= c <= '\U{200A}'
    || c == '\U{2028}' || c == '\U{2029}' || c == '\U{202F}' || c == '\U{205F}' || c == '\U{3000}'
  }

  function TrimLeft(s: string): string {
    if |s| > 0 && IsSpace(s[0]) then TrimLeft(s[1..]) else s
  }

  function TrimRight(s: string): string {
    if |s| > 0 && IsSpace(s[|s| - 1]) then TrimRight(s[..|s| - 1]) else s
  }

  function TrimSpace(s: string): string {
    TrimRight(TrimLeft(s))
  }

  predicate Trimmed(s: string) {
    |s| > 0 ==> !IsSpace(s[0]) && !IsSpace(s[|s| - 1])
  }

  predicate AllSpace(s: string) {
    forall c | c in s :: IsSpace(c)
  }

  /** Trimming removes exactly the surrounding white space. */
  lemma {:induction false} TrimSpaceSplits(s: string) returns (before: string, after: string)
    ensures s == before + TrimSpace(s) + after
    ensures AllSpace(before) && AllSpace(after) && Trimmed(TrimSpace(s))
  {
    before := TrimLeftSplits(s);
    after := TrimRightOfTrimmedLeft(TrimLeft(s));
  }

  lemma {:induction false} TrimRightOfTrimmedLeft(s: string) returns (after: string)
    requires |s| > 0 ==> !IsSpace(s[0])
    ensures s == TrimRight(s) + after && AllSpace(after) && Trimmed(TrimRight(s))
  {
    after := TrimRightSplits(s);
    var t := TrimRight(s);
    if |t| > 0 {
      assert (t + after)[0] == t[0];
    }
  }

  lemma {:induction false} TrimLeftSplits(s: string) returns (before: string)
    ensures s == before + TrimLeft(s) && AllSpace(before)
    ensures |TrimLeft(s)| > 0 ==> !IsSpace(TrimLeft(s)[0])
  {
    if |s| > 0 && IsSpace(s[0]) {
      before := TrimLeftSplits(s[1..]);
      before := [s[0]] + before;
    } else {
      before := "";
    }
  }

  lemma {:induction false} TrimRightSplits(s: string) returns (after: string)
    ensures s == TrimRight(s) + after && AllSpace(after)
    ensures |TrimRight(s)| > 0 ==> !IsSpace(TrimRight(s)[|TrimRight(s)| - 1])
  {
    if |s| > 0 && IsSpace(s[|s| - 1]) {
      after := TrimRightSplits(s[..|s| - 1]);
      after := after + [s[|s| - 1]];
    } else {
      after := "";
    }
  }

  /** None is the 400 the source answers with. */
  function ValidProjectName(raw: string): Option<string> {
    var name := TrimSpace(raw);
    if name == "" || |name| > PROJECT_NAME_MAX_LEN then None else Some(name)
  }

  predicate AcceptableName(name: string) {
    name != "" && |name| <= PROJECT_NAME_MAX_LEN && Trimmed(name)
  }

  lemma {:induction false} ValidNamesAreAcceptable(raw: string)
    ensures ValidProjectName(raw).Some? ==> AcceptableName(ValidProjectName(raw).value)
    ensures AcceptableName(raw) ==> ValidProjectName(raw) == Some(raw)
    ensures ValidProjectName(raw).None? <==> AllSpace(raw) || |TrimSpace(raw)| > PROJECT_NAME_MAX_LEN
  {
    var before, after := TrimSpaceSplits(raw);
    if TrimSpace(raw) != "" {
      assert TrimSpace(raw)[0] in raw;
    }
  }

  // ---------- the registry ----------

  ghost predicate NameTaken(ps: Registry, name: string) {
    exists k :: k in ps && ps[k].name == name
  }

  ghost predicate NameTakenByOther(ps: Registry, id: Id, name: string) {
    exists k :: k in ps && ps[k].id != id && ps[k].name == name
  }

  ghost function CreateProject(ps: Registry, p: Project, id: Id, now: Time): (Registry, Result<Project>) {
    if NameTaken(ps, p.name) then (ps, Err(Conflict))
    else
      var created := p.(id := id, createdAt := now);
      (ps[id := created], Ok(created))
  }

  ghost function RenameProject(ps: Registry, id: Id, name: string): (Registry, Result<Project>) {
    if id !in ps then (ps, Err(NotFound))
    else if NameTakenByOther(ps, id, name) then (ps, Err(Conflict))
    else (ps[id := ps[id].(name := name)], Ok(ps[id].(name := name)))
  }

  function DeleteProject(ps: Registry, id: Id): (Registry, Option<Error>) {
    if id !in ps then (ps, Some(NotFound))
    else if ps[id].isDefault then (ps, Some(Protected))
    else (ps - {id}, None)
  }

  // ---------- what the API keeps ----------

  /** Exactly one default project, acceptable names, and no two alike. */
  ghost predicate WellKept(ps: Registry) {
    && DEFAULT_PROJECT_ID in ps
    && (forall k | k in ps :: ps[k].id == k && AcceptableName(ps[k].name))
    && (forall k | k in ps :: ps[k].isDefault <==> k == DEFAULT_PROJECT_ID)
    && (forall j, k | j in ps && k in ps && ps[j].name == ps[k].name :: j == k)
  }

  function Seeded(now: Time): Registry {
    map[DEFAULT_PROJECT_ID := Project(DEFAULT_PROJECT_ID, DEFAULT_PROJECT_NAME, now, true)]
  }

  lemma {:induction false} SeededIsWellKept(now: Time)
    ensures WellKept(Seeded(now))
  {
  }

  lemma {:induction false} CreateKeepsRegistry(ps: Registry, raw: string, id: Id, now: Time)
    requires WellKept(ps) && id !in ps && ValidProjectName(raw).Some?
    ensures WellKept(CreateProject(ps, Project("", ValidProjectName(raw).value, ZERO_TIME, false), id, now).0)
  {
    ValidNamesAreAcceptable(raw);
  }

  lemma {:induction false} RenameKeepsRegistry(ps: Registry, id: Id, raw: string)
    requires WellKept(ps) && ValidProjectName(raw).Some?
    ensures WellKept(RenameProject(ps, id, ValidProjectName(raw).value).0)
  {
    ValidNamesAreAcceptable(raw);
  }

  lemma {:induction false} DeleteKeepsRegistry(ps: Registry, id: Id)
    requires WellKept(ps)
    ensures WellKept(DeleteProject(ps, id).0)
    ensures DeleteProject(ps, id).1.None? <==> id in ps && id != DEFAULT_PROJECT_ID
  {
  }

  predicate NameBefore(a: Project, b: Project) { Less(a.name, b.name) }

  lemma {:induction false} NamesAreOrdered()
    ensures StrictWeakOrder(NameBefore)
  {
    forall a: Project, b: Project ensures NameBefore(a, b) ==> !NameBefore(b, a) {
      LessIsTotal(a.name, b.name);
    }
    forall a: Project, b: Project, c: Project
      ensures !NameBefore(a, b) && !NameBefore(b, c) ==> !NameBefore(a, c)
    {
      LessIsTransitive(a.name, b.name, c.name);
    }
  }

  /** The project list is strictly increasing by name, and shows every project once. */
  lemma {:induction false} ProjectListIsStrict(ps: Registry, out: seq<Project>)
    requires WellKept(ps)
    requires Enumerates(out, ps.Values) && Sorted(out, NameBefore)
    ensures |out| == |ps|
    ensures forall i, j | 0 <= i < j < |out| :: Less(out[i].name, out[j].name)
    ensures forall k | k in ps :: ps[k] in out
  {
    EnumerationFacts(out, ps.Values);
    ValuesMatchKeys(ps);
    forall i, j | 0 <= i < j < |out| ensures Less(out[i].name, out[j].name) {
      assert !NameBefore(out[j], out[i]);
      assert out[i] in ps.Values && out[j] in ps.Values && out[i] != out[j];
      LessIsTotal(out[i].name, out[j].name);
    }
  }

  lemma {:induction false} ValuesMatchKeys(ps: Registry)
    requires forall k | k in ps :: ps[k].id == k
    ensures |ps.Values| == |ps|
    decreases |ps|
  {
    if ps != map[] {
      var k :| k in ps;
      var rest := ps - {k};
      ValuesMatchKeys(rest);
      forall x | x in ps.Values ensures x in rest.Values + {ps[k]} {
        var j :| j in ps && ps[j] == x;
        assert j != k ==> j in rest && rest[j] == x;
      }
      assert ps.Values == rest.Values + {ps[k]};
      assert ps[k] !in rest.Values;
      assert ps.Keys == rest.Keys + {k};
    } else {
      assert ps.Values == {};
    }
  }
}
