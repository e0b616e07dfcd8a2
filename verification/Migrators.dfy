/** Any number of processes running Migrate against one database, interleaved between their statements
    and interrupted anywhere (backend/internal/store/postgres/postgres.go:54-139). */
module Migrators {
  import opened Model
  import opened Migrations

  /** Where a process is in its loop. Its transaction has seen the committed schema when the body ran,
      and holds the result, uncommitted, in work. */
  datatype Process<+S> =
    | At(i: nat)                  // about to look migration i up
    | Ready(i: nat)               // has not found it recorded
    | Worked(i: nat, work: S)     // the body has run in an open transaction
    | Claimed(i: nat, work: S)    // its version has been inserted, uncommitted
    | Done
    | Failed

  datatype World<+S> = World(schema: S, recorded: set<int>, processes: map<Id, Process<S>>)

  datatype Event =
    | Start(p: Id)
    | Look(p: Id)
    | Work(p: Id)
    | Claim(p: Id)
    | Commit(p: Id)
    | Crash(p: Id)

  /** An insert of a version waits for another transaction that has inserted it and not yet ended. */
  ghost predicate Waits<S>(w: World<S>, i: nat) {
    exists q :: q in w.processes && w.processes[q].Claimed? && w.processes[q].i == i
  }

  ghost predicate Enabled<S>(w: World<S>, ms: seq<Migration<S>>, e: Event) {
    match e
    case Start(p) => p !in w.processes || w.processes[p].Done? || w.processes[p].Failed?
    case Look(p) => p in w.processes && w.processes[p].At?
    case Work(p) => p in w.processes && w.processes[p].Ready? && w.processes[p].i < |ms|
    case Claim(p) => p in w.processes && w.processes[p].Worked? && w.processes[p].i < |ms| && !Waits(w, w.processes[p].i)
    case Commit(p) => p in w.processes && w.processes[p].Claimed? && w.processes[p].i < |ms|
    case Crash(p) => p in w.processes
  }

  ghost function Next<S>(w: World<S>, ms: seq<Migration<S>>, e: Event): Process<S>
    requires Enabled(w, ms, e)
  {
    match e
    case Start(_) => At(0)
    case Look(p) =>
      var i := w.processes[p].i;
      if i >= |ms| then Done
      else if ms[i].version in w.recorded then At(i + 1)
      else Ready(i)
    case Work(p) =>
      var i := w.processes[p].i;
      (match ms[i].body(w.schema)
       case None => Process.Failed
       case Some(work) => Worked(i, work))
    case Claim(p) =>
      var i := w.processes[p].i;
      if ms[i].version in w.recorded then Process.Failed else Claimed(i, w.processes[p].work)
    case Commit(p) => At(w.processes[p].i + 1)
    case Crash(_) => Process.Failed
  }

  ghost function Step<S>(w: World<S>, ms: seq<Migration<S>>, e: Event): World<S>
    requires Enabled(w, ms, e)
  {
    var w' := w.(processes := w.processes[e.p := Next(w, ms, e)]);
    if e.Commit? then
      w'.(schema := w.processes[e.p].work, recorded := w.recorded + {ms[w.processes[e.p].i].version})
    else w'
  }

  ghost predicate Possible<S>(w: World<S>, ms: seq<Migration<S>>, es: seq<Event>)
    decreases |es|
  {
    |es| == 0 || (Enabled(w, ms, es[0]) && Possible(Step(w, ms, es[0]), ms, es[1..]))
  }

  ghost function Exec<S>(w: World<S>, ms: seq<Migration<S>>, es: seq<Event>): World<S>
    requires Possible(w, ms, es)
    decreases |es|
  {
    if |es| == 0 then w else Exec(Step(w, ms, es[0]), ms, es[1..])
  }

  /** The migrations committed during the run, in the order of their commits. */
  ghost function Commits<S>(w: World<S>, ms: seq<Migration<S>>, es: seq<Event>): seq<nat>
    requires Possible(w, ms, es)
    decreases |es|
  {
    if |es| == 0 then []
    else (if es[0].Commit? then [w.processes[es[0].p].i] else []) + Commits(Step(w, ms, es[0]), ms, es[1..])
  }

  lemma {:induction false} RunsAreTheirEvents<S>(w: World<S>, ms: seq<Migration<S>>, e: Event, es: seq<Event>)
    ensures Possible(w, ms, []) && Exec(w, ms, []) == w && Commits(w, ms, []) == []
    ensures Possible(w, ms, [e] + es) <==> Enabled(w, ms, e) && Possible(Step(w, ms, e), ms, es)
    ensures Possible(w, ms, [e] + es) ==>
      && Exec(w, ms, [e] + es) == Exec(Step(w, ms, e), ms, es)
      && Commits(w, ms, [e] + es) == (if e.Commit? then [w.processes[e.p].i] else []) + Commits(Step(w, ms, e), ms, es)
  {
    assert ([e] + es)[0] == e && ([e] + es)[1..] == es;
  }

  // ---------- what every interleaving keeps ----------

  ghost predicate ProcessOk<S>(p: Process<S>, schema: S, ms: seq<Migration<S>>, k: nat) {
    match p
    case At(i) => i <= k
    case Ready(i) => i <= k && i < |ms|
    case Worked(i, work) => i <= k && i < |ms| && (i == k ==> ms[i].body(schema) == Some(work))
    case Claimed(i, work) => i == k && i < |ms| && ms[i].body(schema) == Some(work)
    case Done => k == |ms|
    case Failed => true
  }

  ghost predicate OneClaim<S>(w: World<S>) {
    forall p, q | p in w.processes && q in w.processes && w.processes[p].Claimed? && w.processes[q].Claimed? :: p == q
  }

  /** The first k migrations, and no others, have been applied to the initial schema and recorded. */
  ghost predicate Prefix<S>(w: World<S>, ms: seq<Migration<S>>, initial: S, k: nat) {
    && k <= |ms|
    && w.recorded == Versions(ms[..k])
    && Fold(ms[..k], initial) == Some(w.schema)
  }

  ghost predicate Good<S>(w: World<S>, ms: seq<Migration<S>>, initial: S, k: nat) {
    && Prefix(w, ms, initial, k)
    && OneClaim(w)
    && forall p | p in w.processes :: ProcessOk(w.processes[p], w.schema, ms, k)
  }

  lemma {:induction false} OneMoreApplied<S>(ms: seq<Migration<S>>, initial: S, k: nat, schema: S, work: S)
    requires k < |ms| && Fold(ms[..k], initial) == Some(schema) && ms[k].body(schema) == Some(work)
    ensures Fold(ms[..k + 1], initial) == Some(work)
    ensures Versions(ms[..k + 1]) == Versions(ms[..k]) + {ms[k].version}
  {
    assert ms[..k + 1] == ms[..k] + [ms[k]];
    FoldOneMore(ms[..k], ms[k], initial);
    VersionsOneMore(ms[..k], ms[k]);
  }

  /** A transaction that claims its version is alone: nothing has been committed since its body ran, so
      its work is the body applied to the schema it replaces. */
  lemma {:induction false} CommitIsInOrder<S>(w: World<S>, ms: seq<Migration<S>>, initial: S, k: nat, p: Id)
    requires Good(w, ms, initial, k) && Enabled(w, ms, Commit(p))
    ensures k < |ms| && Good(Step(w, ms, Commit(p)), ms, initial, k + 1)
    ensures w.processes[p].i == k
    ensures ms[k].body(w.schema) == Some(Step(w, ms, Commit(p)).schema)
  {
    assert ProcessOk(w.processes[p], w.schema, ms, k);
    OneMoreApplied(ms, initial, k, w.schema, w.processes[p].work);
    var w' := Step(w, ms, Commit(p));
    forall q | q in w'.processes ensures ProcessOk(w'.processes[q], w'.schema, ms, k + 1) {
      assert q != p ==> ProcessOk(w.processes[q], w.schema, ms, k) && !w.processes[q].Claimed?;
    }
  }

  lemma {:induction false} OtherStepsKeepThePrefix<S>(w: World<S>, ms: seq<Migration<S>>, initial: S, k: nat, e: Event)
    requires Distinct(ms) && Good(w, ms, initial, k) && Enabled(w, ms, e) && !e.Commit?
    ensures Good(Step(w, ms, e), ms, initial, k)
  {
    var w' := Step(w, ms, e);
    if e.p in w.processes {
      assert ProcessOk(w.processes[e.p], w.schema, ms, k);
      if (e.Look? || e.Claim?) && w.processes[e.p].i < |ms| {
        VersionsOfPrefix(ms, k, w.processes[e.p].i);
      }
    }
    assert ProcessOk(w'.processes[e.p], w.schema, ms, k);
  }

  /** However many processes run Migrate, and wherever they are interrupted: the database always holds a
      prefix of the migrations, applied once each and in order; the commits of the run are the next
      migrations, one by one; and a process that has returned success has seen all of them applied. */
  lemma {:induction false} EveryRunAppliesAPrefixInOrder<S>(w: World<S>, ms: seq<Migration<S>>, initial: S, k: nat, es: seq<Event>)
    returns (k': nat)
    requires Distinct(ms) && Good(w, ms, initial, k) && Possible(w, ms, es)
    ensures k <= k' && Good(Exec(w, ms, es), ms, initial, k')
    ensures |Commits(w, ms, es)| == k' - k && forall n | 0 <= n < k' - k :: Commits(w, ms, es)[n] == k + n
    ensures forall p | Succeeded(Exec(w, ms, es), p) :: k' == |ms| && Fold(ms, initial) == Some(Exec(w, ms, es).schema)
    decreases |es|
  {
    if |es| == 0 {
      k' := k;
    } else if es[0].Commit? {
      CommitIsInOrder(w, ms, initial, k, es[0].p);
      k' := EveryRunAppliesAPrefixInOrder(Step(w, ms, es[0]), ms, initial, k + 1, es[1..]);
    } else {
      OtherStepsKeepThePrefix(w, ms, initial, k, es[0]);
      k' := EveryRunAppliesAPrefixInOrder(Step(w, ms, es[0]), ms, initial, k, es[1..]);
    }
    DoneMeansAll(Exec(w, ms, es), ms, initial, k');
  }

  ghost predicate Succeeded<S>(w: World<S>, p: Id) {
    p in w.processes && w.processes[p].Done?
  }

  lemma {:induction false} DoneMeansAll<S>(w: World<S>, ms: seq<Migration<S>>, initial: S, k: nat)
    requires Good(w, ms, initial, k)
    ensures forall p | Succeeded(w, p) :: k == |ms| && Fold(ms, initial) == Some(w.schema)
  {
    assert ms[..|ms|] == ms;
    assert forall p | Succeeded(w, p) :: ProcessOk(w.processes[p], w.schema, ms, k);
  }

  /** A migrator is turned away at its claim exactly when somebody committed its migration after it
      looked. */
  lemma {:induction false} ClaimFailsExactlyWhenBeaten<S>(w: World<S>, ms: seq<Migration<S>>, initial: S, k: nat, p: Id)
    requires Distinct(ms) && Good(w, ms, initial, k) && Enabled(w, ms, Claim(p))
    ensures Next(w, ms, Claim(p)).Failed? <==> w.processes[p].i < k
  {
    assert ProcessOk(w.processes[p], w.schema, ms, k);
    VersionsOfPrefix(ms, k, w.processes[p].i);
  }

  // ---------- an undisturbed process ----------

  /** What a process does of itself after its start. */
  predicate Own(e: Event, p: Id) {
    e.p == p && (e.Look? || e.Work? || e.Claim? || e.Commit?)
  }

  predicate AllOwn(es: seq<Event>, p: Id) {
    forall i | 0 <= i < |es| :: Own(es[i], p)
  }

  predicate Ended<S>(w: World<S>, p: Id) {
    p in w.processes && (w.processes[p].Done? || w.processes[p].Failed?)
  }

  predicate OthersClaimNothing<S>(w: World<S>, p: Id) {
    forall q | q in w.processes && q != p :: !w.processes[q].Claimed?
  }

  /** Nobody is in the way of p, and it has failed only if the next migration's body does. */
  ghost predicate Alone<S>(w: World<S>, ms: seq<Migration<S>>, initial: S, k: nat, p: Id) {
    && Good(w, ms, initial, k) && p in w.processes && OthersClaimNothing(w, p)
    && match w.processes[p]
       case Ready(i) => i == k
       case Worked(i, _) => i == k
       case Failed => k < |ms| && ms[k].body(w.schema).None?
       case _ => true
  }

  lemma {:induction false} StaysAlone<S>(w: World<S>, ms: seq<Migration<S>>, initial: S, k: nat, p: Id, e: Event)
    returns (k': nat)
    requires Distinct(ms) && Alone(w, ms, initial, k, p) && Own(e, p) && Enabled(w, ms, e)
    ensures k <= k' && Alone(Step(w, ms, e), ms, initial, k', p)
    ensures Ahead(Step(w, ms, e).processes[p], |ms|) < Ahead(w.processes[p], |ms|)
  {
    assert ProcessOk(w.processes[p], w.schema, ms, k);
    if e.Commit? {
      CommitIsInOrder(w, ms, initial, k, p);
      k' := k + 1;
    } else {
      OtherStepsKeepThePrefix(w, ms, initial, k, e);
      if w.processes[p].i < |ms| {
        VersionsOfPrefix(ms, k, w.processes[p].i);
      }
      k' := k;
    }
  }

  /** How far the process is from its end. */
  function Ahead<S>(process: Process<S>, n: nat): int {
    match process
    case At(i) => 4 * (n - i) + 4
    case Ready(i) => 4 * (n - i) + 3
    case Worked(i, _) => 4 * (n - i) + 2
    case Claimed(i, _) => 4 * (n - i) + 1
    case _ => 0
  }

  lemma {:induction false} RunsAlone<S>(w: World<S>, ms: seq<Migration<S>>, initial: S, k: nat, p: Id, es: seq<Event>)
    returns (k': nat)
    requires Distinct(ms) && Alone(w, ms, initial, k, p) && AllOwn(es, p) && Possible(w, ms, es)
    ensures k <= k' && Alone(Exec(w, ms, es), ms, initial, k', p)
    decreases |es|
  {
    k' := k;
    if |es| > 0 {
      assert Own(es[0], p) && forall i | 0 <= i < |es| - 1 :: es[1..][i] == es[i + 1];
      k' := StaysAlone(w, ms, initial, k, p, es[0]);
      k' := RunsAlone(Step(w, ms, es[0]), ms, initial, k', p, es[1..]);
    }
  }

  /** A process that nobody is in the way of can always go on until it ends. */
  lemma {:induction false} GoesOn<S>(w: World<S>, ms: seq<Migration<S>>, initial: S, k: nat, p: Id) returns (es: seq<Event>)
    requires Distinct(ms) && Alone(w, ms, initial, k, p)
    ensures AllOwn(es, p) && Possible(w, ms, es) && Ended(Exec(w, ms, es), p)
    decreases Ahead(w.processes[p], |ms|)
  {
    assert ProcessOk(w.processes[p], w.schema, ms, k);
    if Ended(w, p) {
      es := [];
    } else {
      var e := match w.processes[p]
        case At(_) => Look(p)
        case Ready(_) => Work(p)
        case Worked(_, _) => Claim(p)
        case _ => Commit(p);
      var k' := StaysAlone(w, ms, initial, k, p, e);
      var rest := GoesOn(Step(w, ms, e), ms, initial, k', p);
      es := [e] + rest;
      assert es[1..] == rest;
    }
  }

  lemma {:induction false} FailedPrefix<S>(ms: seq<Migration<S>>, initial: S, k: nat, s: S)
    requires k < |ms| && Fold(ms[..k], initial) == Some(s) && ms[k].body(s).None?
    ensures Fold(ms, initial).None?
  {
    assert ms == ms[..k] + ms[k..];
    FoldInTwo(ms[..k], ms[k..], initial);
  }

  /** A Migrate that nobody is in the way of: once it has ended, it has done what one run of Migrate does
      to the tables, succeeded exactly when every migration can be applied, and otherwise stopped at the
      first one whose body fails. */
  lemma {:induction false} UndisturbedRunIsMigrate<S>(w: World<S>, files: seq<File<S>>, initial: S, k: nat, p: Id, es: seq<Event>)
    returns (n: nat)
    requires AllParse(files) && Distinct(Parse(files)) && Good(w, Parse(files), initial, k)
    requires Enabled(w, Parse(files), Start(p)) && OthersClaimNothing(w, p) && AllOwn(es, p)
    requires Possible(Step(w, Parse(files), Start(p)), Parse(files), es)
    requires Ended(Exec(Step(w, Parse(files), Start(p)), Parse(files), es), p)
    ensures var ms := Parse(files);
      var last := Exec(Step(w, ms, Start(p)), ms, es);
      && Ran(files, n, w.schema, w.recorded, last.schema, last.recorded)
      && (last.processes[p].Done? <==> n == |files|)
      && (n == |files| <==> Fold(ms, initial).Some?)
      && (n == |files| ==> last.recorded == Versions(ms) && Some(last.schema) == Fold(ms, initial))
      && (n < |files| ==> Stops(files[n], last.schema, last.recorded, false, false))
  {
    var ms := Parse(files);
    var started := Step(w, ms, Start(p));
    OtherStepsKeepThePrefix(w, ms, initial, k, Start(p));
    n := RunsAlone(started, ms, initial, k, p, es);
    var last := Exec(started, ms, es);
    assert ProcessOk(last.processes[p], last.schema, ms, n);
    assert Parse(files[..n]) == ms[..n];
    PrefixGrows(ms, initial, k, n, w.schema);
    if n < |ms| {
      assert last.processes[p].Failed?;
      FailedPrefix(ms, initial, n, last.schema);
      VersionsOfPrefix(ms, n, n);
    } else {
      assert ms[..n] == ms;
    }
  }

  /** And it always can end. */
  lemma {:induction false} UndisturbedRunEnds<S>(w: World<S>, ms: seq<Migration<S>>, initial: S, k: nat, p: Id)
    returns (es: seq<Event>)
    requires Distinct(ms) && Good(w, ms, initial, k) && Enabled(w, ms, Start(p)) && OthersClaimNothing(w, p)
    ensures var started := Step(w, ms, Start(p));
      AllOwn(es, p) && Possible(started, ms, es) && Ended(Exec(started, ms, es), p)
  {
    OtherStepsKeepThePrefix(w, ms, initial, k, Start(p));
    es := GoesOn(Step(w, ms, Start(p)), ms, initial, k, p);
  }

  /** A process can be cut off anywhere. What it had not committed is gone, its claim with it, and it may
      be started again. */
  lemma {:induction false} CrashForgets<S>(w: World<S>, ms: seq<Migration<S>>, initial: S, k: nat, p: Id)
    requires Distinct(ms) && Good(w, ms, initial, k) && p in w.processes
    ensures Enabled(w, ms, Crash(p))
    ensures var w' := Step(w, ms, Crash(p));
      && Good(w', ms, initial, k) && w'.schema == w.schema && w'.recorded == w.recorded
      && !w'.processes[p].Claimed? && Enabled(w', ms, Start(p))
      && forall q | q in w.processes && q != p :: w'.processes[q] == w.processes[q]
  {
    OtherStepsKeepThePrefix(w, ms, initial, k, Crash(p));
  }

  /** A database to which the first k migrations have been applied and recorded: k is 0 for a new one. */
  lemma {:induction false} TrackedDatabaseIsGood<S>(ms: seq<Migration<S>>, initial: S, k: nat, schema: S)
    requires k <= |ms| && Fold(ms[..k], initial) == Some(schema)
    ensures Good(World(schema, Versions(ms[..k]), map[]), ms, initial, k)
  {
  }
}
