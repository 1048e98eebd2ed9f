/**
 * The result bookkeeping of the asynchronous load tester: parameter checks,
 * the signed encoding of each request's outcome, the split of the results
 * into successes and errors, and the summary statistics with throughput.
 *
 * What the network and the clock did is an input: `outcome(i)` is what
 * happened to the i-th request task, `totalTime` the measured wall-clock time.
 */
module LoadTest {
  import opened Wrappers
  import Statistics

  /** A reading of a monotonic clock difference: never negative. */
  type Duration = r: real | r >= 0.0

  type Positive = n: int | n > 0 witness 1

  /** The exceptions benchmark_url can raise. */
  datatype BenchmarkError =
    | ValueError         // a non-positive request count or concurrency
    | ZeroDivisionError  // success_count / total_time with total_time == 0.0

  /** A validated run: the target and two positive counts. */
  datatype RunConfig = RunConfig(url: string, nRequests: Positive, maxConcurrent: Positive)

  /** The connection-pool limits handed to the HTTP client. */
  datatype Limits = Limits(maxKeepaliveConnections: nat, maxConnections: nat)

  /** What happened to one request task, and how long it took. */
  datatype Outcome = Success(latency: Duration) | Failure(latency: Duration)

  /** The results split by sign, with the two counts. */
  datatype Aggregate = Aggregate(
    successTimes: seq<real>, errorTimes: seq<real>, successCount: nat, errorsCount: nat)

  /** The statistics block: latency figures over the successes and requests per second. */
  datatype Metrics = Metrics(latency: Statistics.Summary, rps: real)

  /** The outcome of a run that got past validation; `metrics` is None when every request failed. */
  datatype Report = Report(
    config: RunConfig, limits: Limits, totalTime: Duration, agg: Aggregate, metrics: Option<Metrics>)

  /** The parameter check at the top of benchmark_url. */
  function Validate(url: string, nRequests: int, maxConcurrent: int): (r: Result<RunConfig, BenchmarkError>)
    ensures r.Ok? <==> nRequests > 0 && maxConcurrent > 0
    ensures r.Err? ==> r.error == ValueError
    ensures r.Ok? ==> r.value.url == url && r.value.nRequests == nRequests && r.value.maxConcurrent == maxConcurrent
  {
    if nRequests <= 0 || maxConcurrent <= 0 then Err(ValueError)
    else Ok(RunConfig(url, nRequests, maxConcurrent))
  }

  /** The client's pool: one kept-alive connection per admitted request, twice as many in all. */
  function ClientLimits(cfg: RunConfig): (l: Limits)
    ensures l.maxKeepaliveConnections == cfg.maxConcurrent
    ensures l.maxConnections == 2 * cfg.maxConcurrent
    ensures 0 < l.maxKeepaliveConnections < l.maxConnections
  {
    Limits(cfg.maxConcurrent, cfg.maxConcurrent * 2)
  }

  /** fetch_url's return value: the elapsed time, negated when the request raised. */
  function Encode(o: Outcome): (r: real)
    ensures o.Success? ==> r >= 0.0
    ensures o.Failure? ==> r <= 0.0
    ensures r == o.latency || r == -(o.latency as real)
  {
    match o
    case Success(t) => t
    case Failure(t) => -(t as real)
  }

  /** The gathered results: one per task, in task order. */
  function Gather(n: nat, outcome: nat -> Outcome): (results: seq<real>)
    ensures |results| == n
    ensures forall i :: 0 <= i < n ==> results[i] == Encode(outcome(i))
  {
    seq(n, i requires 0 <= i < n => Encode(outcome(i)))
  }

  /** success_times: the strictly positive results, in order. */
  function SuccessTimes(results: seq<real>): seq<real> {
    if results == [] then []
    else (if results[0] > 0.0 then [results[0]] else []) + SuccessTimes(results[1..])
  }

  /** error_times: the strictly negative results, negated, in order. */
  function ErrorTimes(results: seq<real>): seq<real> {
    if results == [] then []
    else (if results[0] < 0.0 then [-results[0]] else []) + ErrorTimes(results[1..])
  }

  /** The number of results that are exactly zero. */
  function Zeros(results: seq<real>): nat {
    multiset(results)[0.0]
  }

  /** The split of the results and the two counts. */
  function Partition(results: seq<real>): (a: Aggregate)
    ensures a.successTimes == SuccessTimes(results) && a.errorTimes == ErrorTimes(results)
    ensures a.successCount == |a.successTimes|
    ensures a.successCount + a.errorsCount == |results|
    ensures a.errorsCount == |a.errorTimes| + Zeros(results)
    ensures forall i :: 0 <= i < |a.successTimes| ==> a.successTimes[i] > 0.0
    ensures forall i :: 0 <= i < |a.errorTimes| ==> a.errorTimes[i] > 0.0
  {
    PartitionCounts(results);
    SplitPositive(results);
    var successes := SuccessTimes(results);
    Aggregate(successes, ErrorTimes(results), |successes|, |results| - |successes|)
  }

  /**
   * benchmark_url once the network and the clock are inputs: validation, one
   * result per task, the split, the all-failed exit and the statistics.
   */
  function Benchmark(url: string, nRequests: int, maxConcurrent: int,
                     outcome: nat -> Outcome, totalTime: Duration): (r: Result<Report, BenchmarkError>)
    ensures r == Err(ValueError) <==> nRequests <= 0 || maxConcurrent <= 0
    ensures r.Ok? ==> r.value.config.nRequests == nRequests && r.value.config.maxConcurrent == maxConcurrent
    ensures r.Ok? ==> r.value.config.url == url && r.value.totalTime == totalTime
    ensures r.Ok? ==> r.value.agg.successCount + r.value.agg.errorsCount == nRequests
    ensures r.Ok? ==> r.value.agg.successTimes == SucceededLatencies(nRequests, outcome)
    ensures r.Ok? ==> r.value.agg.errorTimes == FailedLatencies(nRequests, outcome)
    ensures r.Ok? ==> r.value.limits == Limits(maxConcurrent, 2 * maxConcurrent)
    ensures r.Ok? ==> r.value.agg.successCount == |r.value.agg.successTimes|
    ensures r.Ok? ==> (r.value.metrics.None? <==> r.value.agg.successCount == 0)
    ensures r.Ok? && r.value.metrics.Some? ==>
      var m := r.value.metrics.value;
      && totalTime > 0.0
      && m.rps == r.value.agg.successCount as real / totalTime
      && m.latency == Statistics.Describe(r.value.agg.successTimes)
      && m.latency.min in r.value.agg.successTimes && m.latency.max in r.value.agg.successTimes
      && m.latency.min <= m.latency.mean <= m.latency.max
    ensures r == Err(ZeroDivisionError) <==>
      nRequests > 0 && maxConcurrent > 0 && SucceededLatencies(nRequests, outcome) != [] && totalTime == 0.0
  {
    match Validate(url, nRequests, maxConcurrent)
    case Err(e) => Err(e)
    case Ok(cfg) =>
      GatherSplit(cfg.nRequests, outcome);
      var limits := ClientLimits(cfg);
      var agg := Partition(Gather(cfg.nRequests, outcome));
      if agg.successCount == 0 then
        Ok(Report(cfg, limits, totalTime, agg, None))
      else
        var latency := Statistics.Describe(agg.successTimes);
        if totalTime == 0.0 then Err(ZeroDivisionError)
        else Ok(Report(cfg, limits, totalTime, agg, Some(Metrics(latency, agg.successCount as real / totalTime))))
  }

  // ---------------------------------------------------------------------------
  // The split, stated against the results

  /** Every result is a success, an error or a zero. */
  lemma {:induction false} PartitionCounts(results: seq<real>)
    ensures |SuccessTimes(results)| + |ErrorTimes(results)| + Zeros(results) == |results|
  {
    if results != [] {
      PartitionCounts(results[1..]);
      assert results == [results[0]] + results[1..];
    }
  }

  /** Both lists hold strictly positive times only. */
  lemma {:induction false} SplitPositive(results: seq<real>)
    ensures forall i :: 0 <= i < |SuccessTimes(results)| ==> SuccessTimes(results)[i] > 0.0
    ensures forall i :: 0 <= i < |ErrorTimes(results)| ==> ErrorTimes(results)[i] > 0.0
  {
    if results != [] {
      SplitPositive(results[1..]);
    }
  }

  /** success_times holds each positive value as often as the results do, and nothing else. */
  lemma {:induction false} SuccessTimesExact(results: seq<real>, x: real)
    ensures multiset(SuccessTimes(results))[x] == if x > 0.0 then multiset(results)[x] else 0
  {
    if results != [] {
      SuccessTimesExact(results[1..], x);
      assert results == [results[0]] + results[1..];
    }
  }

  /** error_times holds x as often as the results hold -x, for positive x only. */
  lemma ErrorTimesExact(results: seq<real>, x: real)
    ensures multiset(ErrorTimes(results))[x] == if x > 0.0 then multiset(results)[-x] else 0
  {
    if x > 0.0 {
      ErrorTimesCount(results, x);
    } else {
      SplitPositive(results);
      assert x !in ErrorTimes(results);
    }
  }

  /** The count of a positive x in error_times, by induction over the results. */
  lemma {:induction false} ErrorTimesCount(results: seq<real>, x: real)
    requires x > 0.0
    ensures multiset(ErrorTimes(results))[x] == multiset(results)[-x]
  {
    if results != [] {
      var y, rest := results[0], results[1..];
      ErrorTimesCount(rest, x);
      assert results == [y] + rest;
      MultisetCons(y, rest, -x);
      ErrorTimesStep(y, rest, x);
    }
  }

  /** One result's share of the count of a positive x in error_times. */
  lemma ErrorTimesStep(y: real, rest: seq<real>, x: real)
    requires x > 0.0
    ensures multiset(ErrorTimes([y] + rest))[x] == multiset(ErrorTimes(rest))[x] + (if y == -x then 1 else 0)
  {
    ErrorTimesCons(y, rest);
    if y < 0.0 {
      MultisetCons(-y, ErrorTimes(rest), x);
    }
  }

  /** Counting x in a sequence with a head: the head's share plus the tail's. */
  lemma MultisetCons(a: real, rest: seq<real>, x: real)
    ensures multiset([a] + rest)[x] == multiset(rest)[x] + (if a == x then 1 else 0)
  {
  }

  /** One step of success_times: the head of the results, then the rest. */
  lemma SuccessTimesCons(x: real, rest: seq<real>)
    ensures SuccessTimes([x] + rest) == (if x > 0.0 then [x] else []) + SuccessTimes(rest)
  {
    assert ([x] + rest)[1..] == rest;
  }

  /** One step of error_times: the head of the results, then the rest. */
  lemma ErrorTimesCons(x: real, rest: seq<real>)
    ensures ErrorTimes([x] + rest) == (if x < 0.0 then [-x] else []) + ErrorTimes(rest)
  {
    assert ([x] + rest)[1..] == rest;
  }

  /** success_times keeps the order of the results: it distributes over concatenation. */
  lemma {:induction false} SuccessTimesAppend(a: seq<real>, b: seq<real>)
    ensures SuccessTimes(a + b) == SuccessTimes(a) + SuccessTimes(b)
  {
    if a == [] {
      assert a + b == b;
    } else {
      var x, rest := a[0], a[1..];
      var head := if x > 0.0 then [x] else [];
      calc {
        SuccessTimes(a + b);
        { assert a + b == [x] + (rest + b); }
        SuccessTimes([x] + (rest + b));
        { SuccessTimesCons(x, rest + b); }
        head + SuccessTimes(rest + b);
        { SuccessTimesAppend(rest, b); }
        head + (SuccessTimes(rest) + SuccessTimes(b));
        (head + SuccessTimes(rest)) + SuccessTimes(b);
        { SuccessTimesCons(x, rest); assert a == [x] + rest; }
        SuccessTimes(a) + SuccessTimes(b);
      }
    }
  }


  /** error_times keeps the order of the results: it distributes over concatenation. */
  lemma {:induction false} ErrorTimesAppend(a: seq<real>, b: seq<real>)
    ensures ErrorTimes(a + b) == ErrorTimes(a) + ErrorTimes(b)
  {
    if a == [] {
      assert a + b == b;
    } else {
      var x, rest := a[0], a[1..];
      var head := if x < 0.0 then [-x] else [];
      calc {
        ErrorTimes(a + b);
        { assert a + b == [x] + (rest + b); }
        ErrorTimes([x] + (rest + b));
        { ErrorTimesCons(x, rest + b); }
        head + ErrorTimes(rest + b);
        { ErrorTimesAppend(rest, b); }
        head + (ErrorTimes(rest) + ErrorTimes(b));
        (head + ErrorTimes(rest)) + ErrorTimes(b);
        { ErrorTimesCons(x, rest); assert a == [x] + rest; }
        ErrorTimes(a) + ErrorTimes(b);
      }
    }
  }


  // ---------------------------------------------------------------------------
  // The split, stated against the tasks' outcomes

  /** The latencies of the tasks among the first n that succeeded in positive time, in task order. */
  function SucceededLatencies(n: nat, outcome: nat -> Outcome): seq<real> {
    if n == 0 then []
    else
      var o := outcome(n - 1);
      SucceededLatencies(n - 1, outcome) + (if o.Success? && o.latency > 0.0 then [o.latency as real] else [])
  }

  /** The latencies of the tasks among the first n that failed after a positive time, in task order. */
  function FailedLatencies(n: nat, outcome: nat -> Outcome): seq<real> {
    if n == 0 then []
    else
      var o := outcome(n - 1);
      FailedLatencies(n - 1, outcome) + (if o.Failure? && o.latency > 0.0 then [o.latency as real] else [])
  }

  /**
   * The sign encoding is read back faithfully: success_times are exactly the
   * latencies of the tasks that succeeded (in positive time) and error_times
   * those of the tasks that failed (after a positive time), in task order.
   */
  lemma {:induction false} GatherSplit(n: nat, outcome: nat -> Outcome)
    ensures SuccessTimes(Gather(n, outcome)) == SucceededLatencies(n, outcome)
    ensures ErrorTimes(Gather(n, outcome)) == FailedLatencies(n, outcome)
  {
    if n > 0 {
      GatherSplit(n - 1, outcome);
      var o := outcome(n - 1);
      var h, last := Gather(n - 1, outcome), Encode(o);
      GatherSnoc(n - 1, outcome);
      SuccessTimesAppend(h, [last]);
      ErrorTimesAppend(h, [last]);
      EncodedSplit(o);
    }
  }

  /** The lists one encoded outcome contributes to. */
  lemma EncodedSplit(o: Outcome)
    ensures SuccessTimes([Encode(o)]) == if o.Success? && o.latency > 0.0 then [o.latency as real] else []
    ensures ErrorTimes([Encode(o)]) == if o.Failure? && o.latency > 0.0 then [o.latency as real] else []
  {
    var x := Encode(o);
    assert [x][1..] == [];
  }

  /** Gathering one more task appends its result. */
  lemma GatherSnoc(n: nat, outcome: nat -> Outcome)
    ensures Gather(n + 1, outcome) == Gather(n, outcome) + [Encode(outcome(n))]
  {
    var g, h := Gather(n + 1, outcome), Gather(n, outcome);
    assert forall i :: 0 <= i < n ==> g[i] == h[i];
  }

  /**
   * A request that succeeded in zero time is indistinguishable from a failure:
   * adding it to any results adds one error and leaves both lists and the
   * success count as they were.
   */
  lemma ZeroTimeSuccessCountsAsError(results: seq<real>)
    ensures var before, after := Partition(results), Partition(results + [Encode(Success(0.0))]);
      && after.successTimes == before.successTimes
      && after.errorTimes == before.errorTimes
      && after.successCount == before.successCount
      && after.errorsCount == before.errorsCount + 1
  {
    var z := Encode(Success(0.0));
    assert z == 0.0;
    SuccessTimesAppend(results, [z]);
    ErrorTimesAppend(results, [z]);
    assert SuccessTimes([z]) == [] && ErrorTimes([z]) == [];
  }
}
