/** Parsing and aggregating JMeter's result lines (backend/internal/jtl/parse.go).
    float64 is modelled as real; int64 addition wraps around as it does in Go. */
module Jtl {
  import opened Model
  import opened Text

  datatype Sample = Sample(timestampMs: int, elapsedMs: int, success: bool)

  /** None is the source's ok == false; it never reports an error. */
  function ParseLine(line: string): Option<Sample> {
    ParseFields(Split(TrimEol(line), ','))
  }

  function ParseFields(fields: seq<string>): Option<Sample> {
    if |fields| < 8 then None
    else match ParseInt64(fields[0])
      case None => None
      case Some(ts) =>
        match ParseInt64(fields[1])
        case None => None
        case Some(elapsed) => Some(Sample(ts, elapsed, fields[7] == "true"))
  }

  /** The fields of a result line around the three that ParseLine reads. */
  function LineFields(ts: int, elapsed: int, middle: seq<string>, flag: string, rest: seq<string>): seq<string> {
    [FormatInt(ts), FormatInt(elapsed)] + middle + [flag] + rest
  }

  lemma {:induction false} PrintedFieldsParse(ts: int, elapsed: int, middle: seq<string>, flag: string, rest: seq<string>)
    requires |middle| == 5
    ensures ParseFields(LineFields(ts, elapsed, middle, flag, rest))
         == if InInt64(ts) && InInt64(elapsed) then Some(Sample(ts, elapsed, flag == "true")) else None
  {
    ParseFormatInt(ts);
    ParseFormatInt(elapsed);
    var fields := LineFields(ts, elapsed, middle, flag, rest);
    assert fields[0] == FormatInt(ts) && fields[1] == FormatInt(elapsed) && fields[7] == flag;
  }

  /** Joining fields without commas and splitting the line again gives the fields back, whatever line
      ending follows. */
  lemma {:induction false} JoinedLineSplitsBack(fields: seq<string>, eol: string)
    requires |fields| >= 1 && forall f | f in fields :: ',' !in f
    requires var last := fields[|fields| - 1]; last == "" || !IsEol(last[|last| - 1])
    requires forall c | c in eol :: c == '\r' || c == '\n'
    ensures Split(TrimEol(Join(fields, ',') + eol), ',') == fields
  {
    JoinEndsLikeItsLastField(fields, ',');
    TrimEolDropsTheEnding(Join(fields, ','), eol);
    SplitJoin(fields, ',');
  }

  lemma {:induction false} PrintedLineParsesBack(ts: int, elapsed: int, success: bool, middle: seq<string>, flag: string,
                                                 rest: seq<string>, eol: string)
    requires |middle| == 5
    requires forall f | f in middle + [flag] + rest :: ',' !in f
    requires success <==> flag == "true"
    requires var last := ([flag] + rest)[|rest|]; last == "" || !IsEol(last[|last| - 1])
    requires forall c | c in eol :: c == '\r' || c == '\n'
    ensures ParseLine(Join(LineFields(ts, elapsed, middle, flag, rest), ',') + eol)
         == if InInt64(ts) && InInt64(elapsed) then Some(Sample(ts, elapsed, success)) else None
  {
    var fields := LineFields(ts, elapsed, middle, flag, rest);
    NoCommaInFields(ts, elapsed, middle + [flag] + rest);
    assert fields == [FormatInt(ts), FormatInt(elapsed)] + (middle + [flag] + rest);
    assert fields[|fields| - 1] == ([flag] + rest)[|rest|];
    JoinedLineSplitsBack(fields, eol);
    PrintedFieldsParse(ts, elapsed, middle, flag, rest);
  }

  lemma {:induction false} NoCommaInFields(ts: int, elapsed: int, others: seq<string>)
    requires forall f | f in others :: ',' !in f
    ensures forall f | f in [FormatInt(ts), FormatInt(elapsed)] + others :: ',' !in f
  {
    ParseFormatInt(ts);
    ParseFormatInt(elapsed);
  }

  // ---------- aggregation ----------

  datatype AggregateResult = AggregateResult(
    throughputRPS: real, avgResponseTimeMs: real, errorRatePct: real, sampleCount: nat)

  const NO_SAMPLES := AggregateResult(0.0, 0.0, 0.0, 0)

  function SumElapsed(samples: seq<Sample>): int {
    if |samples| == 0 then 0 else SumElapsed(samples[..|samples| - 1]) + samples[|samples| - 1].elapsedMs
  }

  function CountFailed(samples: seq<Sample>): (n: nat)
    ensures n <= |samples|
  {
    if |samples| == 0 then 0
    else CountFailed(samples[..|samples| - 1]) + if samples[|samples| - 1].success then 0 else 1
  }

  function AggregateOf(samples: seq<Sample>, windowSeconds: real): AggregateResult {
    if |samples| == 0 then NO_SAMPLES
    else
      AggregateResult(
        if windowSeconds > 0.0 then |samples| as real / windowSeconds else 0.0,
        Ratio(Wrap64(SumElapsed(samples)), |samples|),
        Ratio(CountFailed(samples), |samples|) * 100.0,
        |samples|)
  }

  method Aggregate(samples: seq<Sample>, windowSeconds: real) returns (r: AggregateResult)
    ensures r == AggregateOf(samples, windowSeconds)
  {
    if |samples| == 0 {
      return NO_SAMPLES;
    }
    var totalElapsed, failed := 0, 0;
    for i := 0 to |samples|
      invariant totalElapsed == Wrap64(SumElapsed(samples[..i]))
      invariant failed == CountFailed(samples[..i])
    {
      assert samples[..i + 1][..i] == samples[..i];
      WrapFacts(SumElapsed(samples[..i]), samples[i].elapsedMs);
      totalElapsed := Wrap64(totalElapsed + samples[i].elapsedMs);
      if !samples[i].success {
        failed := failed + 1;
      }
    }
    assert samples[..|samples|] == samples;
    var n := |samples|;
    r := AggregateResult(0.0, Ratio(totalElapsed, n), Ratio(failed, n) * 100.0, n);
    if windowSeconds > 0.0 {
      r := r.(throughputRPS := n as real / windowSeconds);
    }
  }

  lemma {:induction false} SumsAppend(a: seq<Sample>, b: seq<Sample>)
    ensures SumElapsed(a + b) == SumElapsed(a) + SumElapsed(b)
    ensures CountFailed(a + b) == CountFailed(a) + CountFailed(b)
  {
    if b == [] {
      assert a + b == a;
    } else {
      assert (a + b)[..|a + b| - 1] == a + b[..|b| - 1];
      SumsAppend(a, b[..|b| - 1]);
    }
  }

  /** The real quotient of two integers. */
  function Ratio(x: int, n: nat): real
    requires n > 0
  {
    x as real / n as real
  }

  lemma RatioTimes(x: int, n: nat)
    requires n > 0
    ensures Ratio(x, n) * n as real == x as real
  {
  }

  lemma RatioBounds(x: int, n: nat, lo: int, hi: int)
    requires n > 0 && lo * n <= x <= hi * n
    ensures lo as real <= Ratio(x, n) <= hi as real
  {
    RatioTimes(x, n);
    RealBounds(Ratio(x, n), n as real, lo as real, hi as real) by {
      assert (lo * n) as real == lo as real * n as real;
      assert (hi * n) as real == hi as real * n as real;
    }
  }

  lemma RealBounds(q: real, n: real, lo: real, hi: real)
    requires n > 0.0 && lo * n <= q * n <= hi * n
    ensures lo <= q <= hi
  {
    assert (q - lo) * n >= 0.0 && (hi - q) * n >= 0.0;
  }

  lemma WrappedMean(t: int, n: nat, lo: int, hi: int)
    requires n > 0 && lo * n <= t <= hi * n
    ensures Ratio(Wrap64(t), n) * n as real == t as real <==> InInt64(t)
    ensures InInt64(t) ==> lo as real <= Ratio(Wrap64(t), n) <= hi as real
  {
    WrapFacts(t, 0);
    RatioTimes(Wrap64(t), n);
    if InInt64(t) {
      RatioBounds(t, n, lo, hi);
    }
  }

  lemma Percentage(f: nat, n: nat)
    requires f <= n && n > 0
    ensures 0.0 <= Ratio(f, n) <= 1.0
    ensures Ratio(f, n) == 0.0 <==> f == 0
    ensures Ratio(f, n) == 1.0 <==> f == n
  {
    RatioTimes(f, n);
    RatioBounds(f, n, 0, 1);
    if f == 0 {
      RatioBounds(f, n, 0, 0);
    } else if f == n {
      RatioBounds(f, n, 1, 1);
    }
  }

  /** The average is the true mean exactly when the sum of the elapsed times did not wrap, and it
      then lies between any bounds on them. */
  lemma {:induction false} AverageIsSound(samples: seq<Sample>, window: real, lo: int, hi: int)
    requires samples != [] && forall s | s in samples :: lo <= s.elapsedMs <= hi
    ensures var avg := AggregateOf(samples, window).avgResponseTimeMs;
      && (avg * |samples| as real == SumElapsed(samples) as real <==> InInt64(SumElapsed(samples)))
      && (InInt64(SumElapsed(samples)) ==> lo as real <= avg <= hi as real)
  {
    var n, t := |samples|, SumElapsed(samples);
    assert lo * n <= t <= hi * n by { SumBounds(samples, lo, hi); }
    WrappedMean(t, n, lo, hi);
  }

  /** The error rate is a percentage, and reaches its ends only when nothing or everything failed. */
  lemma {:induction false} ErrorRateIsAPercentage(samples: seq<Sample>, window: real)
    ensures var rate, failed := AggregateOf(samples, window).errorRatePct, CountFailed(samples);
      && 0.0 <= rate <= 100.0
      && (rate == 0.0 <==> failed == 0)
      && (rate == 100.0 <==> failed == |samples| > 0)
  {
    if samples != [] {
      Percentage(CountFailed(samples), |samples|);
    }
  }

  lemma {:induction false} SumBounds(samples: seq<Sample>, lo: int, hi: int)
    requires forall s | s in samples :: lo <= s.elapsedMs <= hi
    ensures lo * |samples| <= SumElapsed(samples) <= hi * |samples|
  {
    if samples != [] {
      var n := |samples| - 1;
      SumBounds(samples[..n], lo, hi);
      assert samples[n] in samples;
      assert lo * |samples| == lo * n + lo && hi * |samples| == hi * n + hi;
    }
  }

  /** The throughput is per second of the window, and a window that is not positive has none. */
  lemma {:induction false} ThroughputIsPerSecond(samples: seq<Sample>, window: real)
    ensures var r := AggregateOf(samples, window);
      && r.sampleCount == |samples|
      && (window > 0.0 ==> r.throughputRPS * window == |samples| as real)
      && (window <= 0.0 ==> r.throughputRPS == 0.0)
  {
    if window > 0.0 && |samples| > 0 {
      assert |samples| as real / window * window == |samples| as real;
    }
  }

  /** Who is counted as failed: exactly the samples that are no success, wherever they stand. */
  lemma {:induction false} FailedAreTheUnsuccessful(samples: seq<Sample>, i: nat)
    requires i < |samples|
    ensures CountFailed(samples) ==
      CountFailed(samples[..i]) + (if samples[i].success then 0 else 1) + CountFailed(samples[i + 1..])
    ensures SumElapsed(samples) == SumElapsed(samples[..i]) + samples[i].elapsedMs + SumElapsed(samples[i + 1..])
  {
    OneSample(samples[i]);
    SumsAppend(samples[..i], [samples[i]]);
    SumsAppend(samples[..i] + [samples[i]], samples[i + 1..]);
    assert samples == samples[..i] + [samples[i]] + samples[i + 1..];
  }

  // ---------- merging the per-poll aggregates ----------

  function Flatten(batches: seq<seq<Sample>>): seq<Sample> {
    if |batches| == 0 then [] else batches[0] + Flatten(batches[1..])
  }

  /** One aggregate a batch, each over a window of one second. */
  function PerBatch(batches: seq<seq<Sample>>): (rs: seq<AggregateResult>)
    ensures |rs| == |batches|
  {
    if |batches| == 0 then [] else [AggregateOf(batches[0], 1.0)] + PerBatch(batches[1..])
  }

  function TotalCount(rs: seq<AggregateResult>): nat {
    if |rs| == 0 then 0 else rs[0].sampleCount + TotalCount(rs[1..])
  }

  /** The elapsed time that an aggregate's average stands for, and its failures times 100. */
  function ElapsedIn(r: AggregateResult): real { r.sampleCount as real * r.avgResponseTimeMs }
  function FailuresIn(r: AggregateResult): real { r.sampleCount as real * r.errorRatePct }

  function TotalElapsed(rs: seq<AggregateResult>): real {
    if |rs| == 0 then 0.0 else ElapsedIn(rs[0]) + TotalElapsed(rs[1..])
  }

  function TotalFailures(rs: seq<AggregateResult>): real {
    if |rs| == 0 then 0.0 else FailuresIn(rs[0]) + TotalFailures(rs[1..])
  }

  function TotalThroughput(rs: seq<AggregateResult>): real {
    if |rs| == 0 then 0.0 else rs[0].throughputRPS + TotalThroughput(rs[1..])
  }

  /** Count-weighted recombination; throughput is averaged over the one-second windows. */
  function Recombine(rs: seq<AggregateResult>): AggregateResult {
    var n := TotalCount(rs);
    if n == 0 then NO_SAMPLES
    else AggregateResult(
      TotalThroughput(rs) / |rs| as real, TotalElapsed(rs) / n as real, TotalFailures(rs) / n as real, n)
  }

  /** The elapsed time the per-batch averages stand for: each batch's sum has wrapped on its own. */
  function SumWrapped(batches: seq<seq<Sample>>): int {
    if |batches| == 0 then 0 else Wrap64(SumElapsed(batches[0])) + SumWrapped(batches[1..])
  }

  lemma {:induction false} BatchTotals(b: seq<Sample>)
    ensures var r := AggregateOf(b, 1.0);
      && r.sampleCount == |b|
      && r.throughputRPS == |b| as real
      && ElapsedIn(r) == Wrap64(SumElapsed(b)) as real
      && FailuresIn(r) == CountFailed(b) as real * 100.0
  {
    if |b| > 0 {
      RatioTimes(Wrap64(SumElapsed(b)), |b|);
      RatioTimes(CountFailed(b), |b|);
      Rescale(Ratio(CountFailed(b), |b|), |b| as real);
    }
  }

  lemma Rescale(q: real, n: real)
    ensures n * (q * 100.0) == q * n * 100.0
  {
  }

  /** Count-weighted sums over the batches are the sums over the stream, but for the wrapping. */
  lemma {:induction false} RecombinedTotals(batches: seq<seq<Sample>>)
    ensures var rs, all := PerBatch(batches), Flatten(batches);
      && TotalCount(rs) == |all|
      && TotalThroughput(rs) == |all| as real
      && TotalElapsed(rs) == SumWrapped(batches) as real
      && TotalFailures(rs) == CountFailed(all) as real * 100.0
  {
    if |batches| > 0 {
      RecombinedTotals(batches[1..]);
      SumsAppend(batches[0], Flatten(batches[1..]));
      BatchTotals(batches[0]);
    }
  }

  /** Wrapping each batch first changes the total by multiples of 2^64 only. */
  lemma {:induction false} WrappingOften(batches: seq<seq<Sample>>)
    ensures Wrap64(SumWrapped(batches)) == Wrap64(SumElapsed(Flatten(batches)))
  {
    if |batches| > 0 {
      var first, rest := SumElapsed(batches[0]), SumElapsed(Flatten(batches[1..]));
      WrappingOften(batches[1..]);
      SumsAppend(batches[0], Flatten(batches[1..]));
      WrapFacts(first, SumWrapped(batches[1..]));
      WrapFacts(SumWrapped(batches[1..]), first);
      WrapFacts(rest, first);
    }
  }

  lemma ScaledRatio(x: int, n: nat)
    requires n > 0
    ensures x as real * 100.0 / n as real == Ratio(x, n) * 100.0
  {
  }

  lemma RatioIsInjective(x: int, y: int, n: nat)
    requires n > 0
    ensures Ratio(x, n) == Ratio(y, n) <==> x == y
  {
    RatioTimes(x, n);
    RatioTimes(y, n);
  }

  lemma {:induction false} RecombinedFields(batches: seq<seq<Sample>>)
    requires Flatten(batches) != []
    ensures var all := Flatten(batches);
      Recombine(PerBatch(batches)) == AggregateResult(
        |all| as real / |batches| as real, Ratio(SumWrapped(batches), |all|), Ratio(CountFailed(all), |all|) * 100.0, |all|)
  {
    RecombinedTotals(batches);
    ScaledRatio(CountFailed(Flatten(batches)), |Flatten(batches)|);
  }

  /** Recombining the per-batch aggregates gives the aggregate of the whole stream, in every field,
      exactly when the sums the batches were averaged from add up within an int64. */
  lemma {:induction false} BatchesRecombine(batches: seq<seq<Sample>>)
    ensures Recombine(PerBatch(batches)) == AggregateOf(Flatten(batches), |batches| as real)
       <==> InInt64(SumWrapped(batches))
  {
    var all := Flatten(batches);
    WrappingOften(batches);
    WrapFacts(SumWrapped(batches), 0);
    if all == [] {
      RecombinedTotals(batches);
      NothingToSum(batches);
    } else {
      RecombinedFields(batches);
      RatioIsInjective(SumWrapped(batches), Wrap64(SumElapsed(all)), |all|);
    }
  }

  lemma {:induction false} NothingToSum(batches: seq<seq<Sample>>)
    requires Flatten(batches) == []
    ensures SumWrapped(batches) == 0
  {
    if |batches| > 0 {
      assert batches[0] == [] && Flatten(batches[1..]) == [];
      NothingToSum(batches[1..]);
    }
  }

  /** When no single batch wraps, that is exactly when the elapsed time of the whole stream fits. */
  lemma {:induction false} FittingBatchesSum(batches: seq<seq<Sample>>)
    requires forall b | b in batches :: InInt64(SumElapsed(b))
    ensures SumWrapped(batches) == SumElapsed(Flatten(batches))
  {
    if |batches| > 0 {
      FittingBatchesSum(batches[1..]);
      SumsAppend(batches[0], Flatten(batches[1..]));
      WrapFacts(SumElapsed(batches[0]), 0);
    }
  }

  /** A stream whose total fits, and yet does not recombine: its first batch wraps. */
  lemma {:induction false} AFittingTotalMayNotRecombine()
    ensures var batches := [[Sample(0, MAX_INT64, true), Sample(0, 1, true)], [Sample(0, -1, true)]];
      && InInt64(SumElapsed(Flatten(batches)))
      && Recombine(PerBatch(batches)) != AggregateOf(Flatten(batches), |batches| as real)
  {
    var a, b, c := Sample(0, MAX_INT64, true), Sample(0, 1, true), Sample(0, -1, true);
    OneSample(a);
    OneSample(b);
    OneSample(c);
    SumsAppend([a], [b]);
    assert [a] + [b] == [a, b];
    TwoBatches([a, b], [c]);
    BatchesRecombine([[a, b], [c]]);
  }

  lemma {:induction false} OneSample(s: Sample)
    ensures SumElapsed([s]) == s.elapsedMs
    ensures CountFailed([s]) == if s.success then 0 else 1
  {
    assert [s][..0] == [];
  }

  lemma {:induction false} TwoBatches(x: seq<Sample>, y: seq<Sample>)
    ensures SumWrapped([x, y]) == Wrap64(SumElapsed(x)) + Wrap64(SumElapsed(y))
    ensures SumElapsed(Flatten([x, y])) == SumElapsed(x) + SumElapsed(y)
  {
    assert [x, y][1..] == [y] && [y][1..] == [];
    assert SumWrapped([y]) == Wrap64(SumElapsed(y)) + SumWrapped([]);
    assert Flatten([y]) == y + Flatten([]) && y + [] == y;
    SumsAppend(x, y);
  }
}
