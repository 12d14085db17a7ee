/** What a finished stress run says, in terms of the configuration and the draws alone: the gate, by counting, and the
    printed figures, by what they mean. */
module StressGate {
  import opened Prelude
  import opened Arithmetic
  import opened Ordering
  import opened StressModel
  import opened StressAccounts
  import opened StressSchedule
  import L = Latency

  // ---------------------------------------------------------------- the figures

  /** At least `pct` of a hundred values are at most `p`, and fewer are below it. */
  ghost predicate Ranks(values: seq<int>, p: int, pct: int) {
    && p in values
    && 100 * Count(values, L.AtMost(p)) >= pct * |values| && 100 * Count(values, L.Below(p)) < pct * |values|
  }

  ghost predicate Spans(min: int, max: int, values: seq<int>) {
    min in values && max in values && forall v :: v in values ==> min <= v <= max
  }

  ghost predicate Averages(avg: real, values: seq<int>) {
    avg * |values| as real == SumBy(values, Identity()) as real
  }

  ghost predicate Describes(f: L.Figures, values: seq<int>) {
    && Spans(f.min, f.max, values) && Averages(f.avg, values)
    && Ranks(values, f.p50, 50) && Ranks(values, f.p95, 95) && Ranks(values, f.p99, 99)
  }

  lemma RanksPermuted(a: seq<int>, b: seq<int>, p: int, pct: int)
    requires multiset(a) == multiset(b) && Ranks(a, p, pct)
    ensures Ranks(b, p, pct)
  {
    CountPermuted(a, b, L.AtMost(p));
    CountPermuted(a, b, L.Below(p));
    assert p in multiset(b) && |a| == |multiset(a)| == |b|;
  }

  lemma SharesRank(values: seq<int>, p: int, pct: int, share: real)
    requires p in values && share == (pct as real / 100.0) * |values| as real
    requires Count(values, L.AtMost(p)) as real >= share && (Count(values, L.Below(p)) as real) < share
    ensures Ranks(values, p, pct)
  {
    ShareInHundreds(pct, |values|, Count(values, L.AtMost(p)), Count(values, L.Below(p)));
  }

  lemma PercentileRanks(sorted: seq<int>, pct: int)
    requires sorted != [] && 1 <= pct <= 100 && Sorted(sorted, L.ByNumber())
    ensures Ranks(sorted, L.Percentile(sorted, pct), pct)
  {
    L.PercentileIsNearestRank(sorted, pct);
    SharesRank(sorted, L.Percentile(sorted, pct), pct, (pct as real / 100.0) * |sorted| as real);
  }

  lemma ShareInHundreds(pct: int, n: int, least: int, below: int)
    ensures least as real >= (pct as real / 100.0) * n as real <==> 100 * least >= pct * n
    ensures (below as real) < (pct as real / 100.0) * n as real <==> 100 * below < pct * n
  {
    assert (pct as real / 100.0) * n as real == (pct * n) as real / 100.0;
  }

  lemma EndsBound(sorted: seq<int>, v: int)
    requires Sorted(sorted, L.ByNumber()) && v in sorted
    ensures sorted[0] <= v <= sorted[|sorted| - 1]
  {
    var i :| 0 <= i < |sorted| && sorted[i] == v;
    assert i > 0 ==> L.ByNumber()(sorted[0], sorted[i]);
    assert i < |sorted| - 1 ==> L.ByNumber()(sorted[i], sorted[|sorted| - 1]);
  }

  lemma SortedSpans(sorted: seq<int>)
    requires sorted != [] && Sorted(sorted, L.ByNumber())
    ensures Spans(sorted[0], sorted[|sorted| - 1], sorted)
  {
    forall v | v in sorted ensures sorted[0] <= v <= sorted[|sorted| - 1] {
      EndsBound(sorted, v);
    }
  }

  lemma QuotientTimes(a: real, b: real)
    requires b != 0.0
    ensures (a / b) * b == a
  {
  }

  lemma SumAverages(values: seq<int>)
    requires values != []
    ensures Averages(SumBy(values, Identity()) as real / |values| as real, values)
  {
    QuotientTimes(SumBy(values, Identity()) as real, |values| as real);
  }

  lemma SpansPermuted(min: int, max: int, a: seq<int>, b: seq<int>)
    requires multiset(a) == multiset(b) && Spans(min, max, a)
    ensures Spans(min, max, b)
  {
    forall v ensures v in a <==> v in b {
      assert v in multiset(a) <==> v in multiset(b);
    }
  }

  lemma AveragesPermuted(avg: real, a: seq<int>, b: seq<int>)
    requires multiset(a) == multiset(b) && Averages(avg, a)
    ensures Averages(avg, b)
  {
    SumPermuted(a, b, Identity());
    assert |a| == |multiset(a)| == |b|;
  }

  lemma RanksOf(values: seq<int>, pct: int)
    requires values != [] && 1 <= pct <= 100
    ensures Ranks(values, L.Percentile(SortBy(values, L.ByNumber()), pct), pct)
  {
    var sorted := SortBy(values, L.ByNumber());
    L.NumbersSort(values);
    SortPermutes(values, L.ByNumber());
    PercentileRanks(sorted, pct);
    RanksPermuted(sorted, values, L.Percentile(sorted, pct), pct);
  }

  /** The figures of any values, in whatever order they were recorded. */
  lemma FiguresDescribe(values: seq<int>)
    requires values != []
    ensures Describes(L.FiguresOf(values), values)
  {
    var sorted := SortBy(values, L.ByNumber());
    L.NumbersSort(values);
    SortPermutes(values, L.ByNumber());
    SortedSpans(sorted);
    SpansPermuted(sorted[0], sorted[|sorted| - 1], sorted, values);
    SumAverages(sorted);
    AveragesPermuted(SumBy(sorted, Identity()) as real / |sorted| as real, sorted, values);
    RanksOf(values, 50);
    RanksOf(values, 95);
    RanksOf(values, 99);
  }

  // ---------------------------------------------------------------- the gate

  function DrawAtMost(limit: int): Draw -> bool { (d: Draw) => d.latencyMs <= limit }

  ghost predicate TooManyFail(cfg: Config, draws: seq<Draw>) {
    Count(draws, DrawFails()) as real > cfg.maxFailureRate * cfg.jobs as real
  }

  /** There is a limit, and fewer than 95 of 100 drawn latencies are within it. */
  ghost predicate TooSlow(cfg: Config, draws: seq<Draw>) {
    cfg.maxP95Ms > 0 && 100 * Count(draws, DrawAtMost(cfg.maxP95Ms)) < 95 * cfg.jobs
  }

  /** A replacement was required and none fell due. */
  ghost predicate NothingReplaced(cfg: Config) {
    cfg.requireHotReplacement && (cfg.hotReplaceEvery == 0 || cfg.jobs <= cfg.hotReplaceEvery)
  }

  /** Exactly which reasons the gate gives. */
  ghost predicate GateLaws(cfg: Config, draws: seq<Draw>, reasons: seq<GateReason>) {
    && (FailureRateExceeded in reasons <==> TooManyFail(cfg, draws))
    && (LatencyExceeded in reasons <==> TooSlow(cfg, draws))
    && (HotReplacementMissing in reasons <==> NothingReplaced(cfg))
    && (forall t :: NoCompletedJobs(t) in reasons <==> cfg.jobs <= t < cfg.tenants)
    && (forall v :: Violated(v) !in reasons)
    && (forall n :: DrainingContainersRemain(n) !in reasons)
  }

  lemma {:induction false} CountMapped(draws: seq<Draw>, limit: int)
    ensures Count(MapSeq(draws, DrawLatency()), L.AtMost(limit)) == Count(draws, DrawAtMost(limit))
  {
    if draws != [] {
      var n := |draws| - 1;
      CountMapped(draws[..n], limit);
      assert MapSeq(draws, DrawLatency())[..n] == MapSeq(draws[..n], DrawLatency());
    }
  }

  lemma RateTooHighExactly(cfg: Config, failed: int)
    requires cfg.Valid()
    ensures FailureRateTooHigh(cfg, failed, cfg.jobs) <==> failed as real > cfg.maxFailureRate * cfg.jobs as real
  {
    var rate, n := FailureRate(failed, cfg.jobs), cfg.jobs as real;
    assert rate * n == failed as real;
    ScaleStrict(rate, cfg.maxFailureRate, n);
  }

  lemma TooManyExactly(cfg: Config, draws: seq<Draw>)
    requires cfg.Valid()
    ensures FailureRateTooHigh(cfg, Count(draws, DrawFails()), cfg.jobs) <==> TooManyFail(cfg, draws)
  {
    RateTooHighExactly(cfg, Count(draws, DrawFails()));
  }

  lemma ScaleStrict(a: real, b: real, n: real)
    requires n > 0.0
    ensures a > b <==> a * n > b * n
  {
  }

  /** A percentile is above a limit exactly when too few values are within the limit. */
  lemma AboveLimitExactly(values: seq<int>, p: int, pct: int, limit: int)
    requires Ranks(values, p, pct)
    ensures p > limit <==> 100 * Count(values, L.AtMost(limit)) < pct * |values|
  {
    if p > limit {
      CountLess(values, L.AtMost(limit), L.Below(p));
    } else {
      CountLess(values, L.AtMost(p), L.AtMost(limit));
    }
  }

  lemma CountLess(values: seq<int>, p: int -> bool, q: int -> bool)
    requires forall i :: 0 <= i < |values| && p(values[i]) ==> q(values[i])
    ensures Count(values, p) <= Count(values, q)
  {
    CountMonotone(values, values, q, p);
  }

  lemma SlowExactly(cfg: Config, draws: seq<Draw>)
    requires cfg.Valid() && |draws| == cfg.jobs
    ensures LatencyTooHigh(cfg, L.FiguresOf(MapSeq(draws, DrawLatency()))) <==> TooSlow(cfg, draws)
  {
    var values := MapSeq(draws, DrawLatency());
    FiguresDescribe(values);
    AboveLimitExactly(values, L.FiguresOf(values).p95, 95, cfg.maxP95Ms);
    CountMapped(draws, cfg.maxP95Ms);
  }

  lemma NoSlotsExactly(cfg: Config)
    requires cfg.Valid()
    ensures Slots(cfg, cfg.jobs) == 0 <==> cfg.hotReplaceEvery == 0 || cfg.jobs <= cfg.hotReplaceEvery
  {
    if cfg.hotReplaceEvery > 0 {
      DivideSplit(cfg.jobs - 1, cfg.hotReplaceEvery);
      if cfg.jobs <= cfg.hotReplaceEvery {
        DivideUnique(cfg.jobs - 1, cfg.hotReplaceEvery, 0, cfg.jobs - 1);
      }
    }
  }

  lemma IdleTenants(jobs: int, tenants: int, reason: GateReason)
    requires jobs >= 0
    ensures reason in NoJobs(jobs, tenants) <==> reason.NoCompletedJobs? && jobs <= reason.tenant < tenants
  {
    if reason.NoCompletedJobs? && jobs <= reason.tenant < tenants {
      assert NoJobs(jobs, tenants)[reason.tenant - jobs] == reason;
    }
  }

  ghost predicate ReasonGiven(fails: bool, slow: bool, missing: bool, cfg: Config, reasons: seq<GateReason>, reason: GateReason) {
    reason in reasons <==>
      || (reason == FailureRateExceeded && fails) || (reason == LatencyExceeded && slow)
      || (reason == HotReplacementMissing && missing)
      || (reason.NoCompletedJobs? && cfg.jobs <= reason.tenant < cfg.tenants)
  }

  lemma ReasonExpected(cfg: Config, draws: seq<Draw>, latency: L.Figures, reason: GateReason)
    requires cfg.Valid()
    ensures ReasonGiven(FailureRateTooHigh(cfg, Count(draws, DrawFails()), cfg.jobs), LatencyTooHigh(cfg, latency),
                        cfg.requireHotReplacement && Slots(cfg, cfg.jobs) == 0, cfg, ExpectedReasons(cfg, draws, latency), reason)
  {
    IdleTenants(cfg.jobs, cfg.tenants, reason);
  }

  lemma GivenAreLawful(fails: bool, slow: bool, missing: bool, cfg: Config, draws: seq<Draw>, reasons: seq<GateReason>)
    requires forall reason :: ReasonGiven(fails, slow, missing, cfg, reasons, reason)
    requires (fails <==> TooManyFail(cfg, draws)) && (slow <==> TooSlow(cfg, draws)) && (missing <==> NothingReplaced(cfg))
    ensures GateLaws(cfg, draws, reasons)
  {
    assert ReasonGiven(fails, slow, missing, cfg, reasons, FailureRateExceeded);
    assert ReasonGiven(fails, slow, missing, cfg, reasons, LatencyExceeded);
    assert ReasonGiven(fails, slow, missing, cfg, reasons, HotReplacementMissing);
    forall t ensures NoCompletedJobs(t) in reasons <==> cfg.jobs <= t < cfg.tenants {
      assert ReasonGiven(fails, slow, missing, cfg, reasons, NoCompletedJobs(t));
    }
    forall v ensures Violated(v) !in reasons {
      assert ReasonGiven(fails, slow, missing, cfg, reasons, Violated(v));
    }
    forall n ensures DrainingContainersRemain(n) !in reasons {
      assert ReasonGiven(fails, slow, missing, cfg, reasons, DrainingContainersRemain(n));
    }
  }

  /** A finished run passes the gate, or fails it, for exactly these reasons. */
  lemma GateIsLawful(cfg: Config, draws: seq<Draw>, r: Summary)
    requires cfg.Valid() && |draws| == cfg.jobs && r.latency == L.FiguresOf(MapSeq(draws, DrawLatency()))
    requires r.reasons == ExpectedReasons(cfg, draws, r.latency)
    ensures GateLaws(cfg, draws, r.reasons)
  {
    forall reason ensures ReasonGiven(TooManyFail(cfg, draws), TooSlow(cfg, draws), NothingReplaced(cfg), cfg, r.reasons, reason) {
      ReasonLawful(cfg, draws, r, reason);
    }
    GivenAreLawful(TooManyFail(cfg, draws), TooSlow(cfg, draws), NothingReplaced(cfg), cfg, draws, r.reasons);
  }

  lemma ReasonLawful(cfg: Config, draws: seq<Draw>, r: Summary, reason: GateReason)
    requires cfg.Valid() && |draws| == cfg.jobs && r.latency == L.FiguresOf(MapSeq(draws, DrawLatency()))
    requires r.reasons == ExpectedReasons(cfg, draws, r.latency)
    ensures ReasonGiven(TooManyFail(cfg, draws), TooSlow(cfg, draws), NothingReplaced(cfg), cfg, r.reasons, reason)
  {
    ReasonExpected(cfg, draws, r.latency, reason);
    ConditionsAgree(cfg, draws, r.latency);
  }

  lemma ConditionsAgree(cfg: Config, draws: seq<Draw>, latency: L.Figures)
    requires cfg.Valid() && |draws| == cfg.jobs && latency == L.FiguresOf(MapSeq(draws, DrawLatency()))
    ensures FailureRateTooHigh(cfg, Count(draws, DrawFails()), cfg.jobs) <==> TooManyFail(cfg, draws)
    ensures LatencyTooHigh(cfg, latency) <==> TooSlow(cfg, draws)
    ensures cfg.requireHotReplacement && Slots(cfg, cfg.jobs) == 0 <==> NothingReplaced(cfg)
  {
    TooManyExactly(cfg, draws);
    SlowExactly(cfg, draws);
    NoSlotsExactly(cfg);
  }

  /** A run passes its gate exactly when not too many jobs fail, the latencies keep the limit, a required replacement
      fell due, and every tenant has a job. */
  lemma PassesExactly(cfg: Config, draws: seq<Draw>, r: Summary)
    requires cfg.Valid() && |draws| == cfg.jobs && Reports(cfg, draws, r)
    ensures r.reasons == [] <==>
            !TooManyFail(cfg, draws) && !TooSlow(cfg, draws) && !NothingReplaced(cfg) && cfg.jobs >= cfg.tenants
  {
    GateIsLawful(cfg, draws, r);
    if r.reasons != [] {
      assert r.reasons[0] in r.reasons;
    }
    if cfg.jobs < cfg.tenants {
      assert NoCompletedJobs(cfg.jobs) in r.reasons;
    }
  }

  /** A run in which no job fails passes the gate of a configuration that asks for nothing it cannot give. */
  lemma CleanRunPasses(cfg: Config, draws: seq<Draw>, r: Summary)
    requires cfg.Valid() && |draws| == cfg.jobs && Reports(cfg, draws, r)
    requires forall d :: d in draws ==> !d.failed
    requires cfg.maxP95Ms == 0 && cfg.jobs >= cfg.tenants && (cfg.requireHotReplacement ==> 0 < cfg.hotReplaceEvery < cfg.jobs)
    ensures r.reasons == []
  {
    CountPositive(draws, DrawFails());
    PassesExactly(cfg, draws, r);
  }

  // ---------------------------------------------------------------- the other numbers

  ghost predicate RateIs(rate: real, u: TenantStats) {
    if u.finished == 0 then rate == 0.0 else rate * u.finished as real == u.failed as real
  }

  ghost predicate ThroughputIs(throughput: real, jobs: int, makespanMs: int) {
    throughput * (if makespanMs == 0 then 1000.0 else makespanMs as real) == 1000.0 * jobs as real
  }

  /** What the printed rates and figures mean. */
  ghost predicate PrintsTrue(cfg: Config, draws: seq<Draw>, r: Summary) {
    && Describes(r.latency, MapSeq(draws, DrawLatency()))
    && ThroughputIs(r.throughput, cfg.jobs, r.makespanMs)
    && |r.failureRates| == |r.tenants| == cfg.tenants
    && forall t :: 0 <= t < cfg.tenants ==> RateIs(r.failureRates[t], r.tenants[t])
  }

  lemma ThroughputTimes(jobs: int, makespanMs: int)
    ensures ThroughputIs(Throughput(jobs, makespanMs), jobs, makespanMs)
  {
    if makespanMs != 0 {
      var t := makespanMs as real;
      QuotientTimes(jobs as real, t / 1000.0);
      Reassociate(jobs as real / (t / 1000.0), t / 1000.0, jobs as real);
    }
  }

  lemma Reassociate(a: real, b: real, c: real)
    requires a * b == c
    ensures a * (b * 1000.0) == c * 1000.0
  {
  }

  lemma RateTimes(u: TenantStats)
    ensures RateIs(FailureRate(u.failed, u.finished), u)
  {
    if u.finished != 0 {
      QuotientTimes(u.failed as real, u.finished as real);
    }
  }

  /** The printed numbers are what their names say. */
  lemma ReportPrintsTrue(cfg: Config, draws: seq<Draw>, r: Summary)
    requires cfg.Valid() && |draws| == cfg.jobs && r.latency == L.FiguresOf(MapSeq(draws, DrawLatency()))
    requires RatesReported(cfg, draws, r) && r.throughput == Throughput(cfg.jobs, r.makespanMs)
    ensures PrintsTrue(cfg, draws, r)
  {
    FiguresDescribe(MapSeq(draws, DrawLatency()));
    ThroughputTimes(cfg.jobs, r.makespanMs);
    forall t | 0 <= t < cfg.tenants ensures RateIs(r.failureRates[t], r.tenants[t]) {
      RateTimes(r.tenants[t]);
    }
  }
}
