/** The whole run of the compile scheduler: when replacements fall due, why each of them
    finds an active container, and what the finished run must report. */
module StressSchedule {
  import opened Prelude
  import opened Arithmetic
  import opened StressModel
  import opened StressAccounts
  import L = Latency

  /** Job ids at which the run asks for a hot replacement, and the tenant it asks for. */
  predicate IsSlot(cfg: Config, job: int) {
    cfg.hotReplaceEvery > 0 && job > 0 && job % cfg.hotReplaceEvery == 0
  }

  function SlotTenant(cfg: Config, job: int): int
    requires cfg.Valid() && IsSlot(cfg, job)
  {
    (job / cfg.hotReplaceEvery - 1) % cfg.tenants
  }

  /** The number of slots below `job`. */
  function Slots(cfg: Config, job: nat): nat
    requires cfg.Valid()
  {
    if cfg.hotReplaceEvery > 0 && job > 0 then (job - 1) / cfg.hotReplaceEvery else 0
  }

  lemma SlotsNext(cfg: Config, job: nat)
    requires cfg.Valid()
    ensures Slots(cfg, job + 1) == Slots(cfg, job) + if IsSlot(cfg, job) then 1 else 0
    ensures IsSlot(cfg, job) ==> job / cfg.hotReplaceEvery - 1 == Slots(cfg, job)
  {
    if cfg.hotReplaceEvery > 0 {
      if job == 0 {
        DivideUnique(0, cfg.hotReplaceEvery, 0, 0);
      } else {
        DivideNext(job - 1, cfg.hotReplaceEvery);
      }
    }
  }

  /** How many i < n leave remainder t modulo m. */
  function Residues(m: int, t: int, n: nat): nat
    requires m > 0
  {
    if n == 0 then 0 else Residues(m, t, n - 1) + if (n - 1) % m == t then 1 else 0
  }

  lemma {:induction false} ResiduesClosedForm(m: int, t: int, n: nat)
    requires 0 <= t < m
    ensures Residues(m, t, n) == (n + m - 1 - t) / m
  {
    if n == 0 {
      DivideUnique(m - 1 - t, m, 0, m - 1 - t);
    } else {
      ResiduesClosedForm(m, t, n - 1);
      DivideNext(n - 1 + m - 1 - t, m);
      ResidueShift(n - 1, m, t);
    }
  }

  // ---------------------------------------------------------------- a replacement is never refused

  /** Tenant `t` was last replaced at `r`, and none of its jobs has started since. */
  ghost predicate Owed(cfg: Config, r: int, t: int, job: int)
    requires cfg.Valid()
  {
    && IsSlot(cfg, r) && r <= job && SlotTenant(cfg, r) == t
    && forall i :: r <= i < job ==> i % cfg.tenants != t
  }

  ghost predicate Ready(cfg: Config, s: State, job: int, last: seq<int>)
    requires cfg.Valid()
  {
    |last| == cfg.tenants &&
    forall t :: 0 <= t < cfg.tenants ==> HasActive(s, t) || Owed(cfg, last[t], t, job)
  }

  /** Two slots of one tenant are at least as many jobs apart as there are tenants. */
  lemma SlotsAreFar(cfg: Config, r: int, job: int)
    requires cfg.Valid() && IsSlot(cfg, r) && IsSlot(cfg, job) && r < job
    requires SlotTenant(cfg, r) == SlotTenant(cfg, job)
    ensures job - r >= cfg.tenants
  {
    var h := cfg.hotReplaceEvery;
    var a, b := r / h, job / h;
    DivideSplit(r, h);
    DivideSplit(job, h);
    if b <= a {
      MulMonotone(b, a, h);
    } else {
      SameResidueFar(a - 1, b - 1, cfg.tenants);
      MulMonotone(1, h, b - a);
      assert (b - a) * h == b * h - a * h;
    }
  }

  lemma SlotFindsActive(cfg: Config, s: State, job: int, last: seq<int>)
    requires cfg.Valid() && Ready(cfg, s, job, last) && IsSlot(cfg, job)
    requires forall t :: 0 <= t < cfg.tenants ==> last[t] < job
    ensures HasActive(s, SlotTenant(cfg, job))
  {
    var t := SlotTenant(cfg, job);
    if !HasActive(s, t) {
      assert Owed(cfg, last[t], t, job);
      SlotsAreFar(cfg, last[t], job);
      var i := ResidueWithin(last[t], cfg.tenants, t);
      assert false;
    }
  }

  // ---------------------------------------------------------------- progress of the run

  /** Everything the run maintains before job `job` is admitted. */
  ghost predicate Progress(cfg: Config, s: State, job: nat, slots: nat, draws: seq<Draw>)
    requires cfg.Valid()
  {
    && Inv(cfg, s)
    && Balanced(s, draws)
    && Accounted(cfg, s, draws)
    && |draws| == job
    && s.hotReplacements == slots
    && forall t :: 0 <= t < cfg.tenants ==>
         s.tenants[t].started == Residues(cfg.tenants, t, job) && s.tenants[t].hotReplacements == Residues(cfg.tenants, t, slots)
  }

  /** Nothing but waiting happened since the state `s0`. */
  ghost predicate Waited(cfg: Config, s0: State, s: State, draws: seq<Draw>) {
    Inv(cfg, s) && Balanced(s, draws) && Accounted(cfg, s, draws) && Waits(s0, s) && s.inFlight <= s0.inFlight
  }

  lemma AdvanceIsWaiting(cfg: Config, s0: State, s: State, draws: seq<Draw>)
    requires cfg.Valid() && Waited(cfg, s0, s, draws)
    requires s.heap != [] || NextWarmup(s.containers, s.now).Some?
    ensures AdvanceToNextEvent(s).Ok? && Waited(cfg, s0, AdvanceToNextEvent(s).value, draws)
    ensures Pending(AdvanceToNextEvent(s).value) < Pending(s)
  {
    AdvanceKeepsInv(cfg, s);
    AdvanceBalances(s, draws);
    AdvanceAccounted(cfg, s, draws);
    AdvanceWaits(s);
    WaitsTransitive(s0, s, AdvanceToNextEvent(s).value);
  }

  lemma WarmupsAreWaiting(cfg: Config, s0: State, s: State, draws: seq<Draw>)
    requires Waited(cfg, s0, s, draws)
    ensures Waited(cfg, s0, ProcessWarmups(s), draws) && Pending(ProcessWarmups(s)) <= Pending(s)
  {
    WarmupsKeepInv(cfg, s);
    WarmupsProgress(s);
    WarmupsAccounted(cfg, s, draws);
    WarmupsWait(s);
    WaitsTransitive(s0, s, ProcessWarmups(s));
  }

  lemma WaitingKeepsProgress(cfg: Config, s: State, s': State, job: nat, slots: nat, draws: seq<Draw>)
    requires cfg.Valid() && Progress(cfg, s, job, slots, draws)
    requires Inv(cfg, s') && Balanced(s', draws) && Accounted(cfg, s', draws) && Waits(s, s')
    ensures Progress(cfg, s', job, slots, draws)
  {
  }

  lemma WaitingKeepsReady(cfg: Config, s: State, s': State, job: int, last: seq<int>)
    requires cfg.Valid() && Ready(cfg, s, job, last) && Waits(s, s')
    ensures Ready(cfg, s', job, last)
  {
  }

  lemma ReplacementBalances(cfg: Config, s: State, t: int, draws: seq<Draw>)
    requires KnowsTenant(s, t) && Balanced(s, draws)
    ensures Balanced(HotReplace(cfg, s, t), draws)
  {
    var s' := HotReplace(cfg, s, t);
    SumPointwise(s.tenants, s'.tenants, FailedOf(), FailedOf());
    SumPointwise(s.tenants, s'.tenants, FinishedOf(), FinishedOf());
  }

  /** Tenant counters move only for the replaced tenant. */
  ghost predicate Replaced(s: State, s': State, t: int) {
    && s'.hotReplacements == s.hotReplacements + 1
    && |s'.tenants| == |s.tenants|
    && forall u :: 0 <= u < |s.tenants| ==>
         && s'.tenants[u].started == s.tenants[u].started
         && s'.tenants[u].hotReplacements == s.tenants[u].hotReplacements + if u == t then 1 else 0
  }

  lemma HotReplaceReplaces(cfg: Config, s: State, t: int)
    requires KnowsTenant(s, t) && HasActive(s, t)
    ensures Replaced(s, HotReplace(cfg, s, t), t)
  {
    assert HasActive(ProcessWarmups(s), t) by { WarmupsWait(s); }
  }

  lemma ReplacedKeepsProgress(cfg: Config, s: State, s': State, job: nat, draws: seq<Draw>)
    requires cfg.Valid() && IsSlot(cfg, job)
    requires Progress(cfg, s, job, Slots(cfg, job), draws)
    requires Inv(cfg, s') && Balanced(s', draws) && Accounted(cfg, s', draws) && Replaced(s, s', SlotTenant(cfg, job))
    ensures Progress(cfg, s', job, Slots(cfg, job + 1), draws)
  {
    SlotsNext(cfg, job);
  }

  lemma ReplacementKeepsProgress(cfg: Config, s: State, job: nat, draws: seq<Draw>)
    requires cfg.Valid() && IsSlot(cfg, job)
    requires Progress(cfg, s, job, Slots(cfg, job), draws)
    requires HasActive(s, SlotTenant(cfg, job))
    ensures Progress(cfg, HotReplace(cfg, s, SlotTenant(cfg, job)), job, Slots(cfg, job + 1), draws)
  {
    var t := SlotTenant(cfg, job);
    HotReplaceKeepsInv(cfg, s, t);
    ReplacementBalances(cfg, s, t, draws);
    HotReplaceAccounted(cfg, s, t, draws);
    HotReplaceReplaces(cfg, s, t);
    ReplacedKeepsProgress(cfg, s, HotReplace(cfg, s, t), job, draws);
  }

  lemma ReplacementKeepsActive(cfg: Config, s: State, t: int, u: int)
    requires KnowsTenant(s, t) && u != t && HasActive(s, u)
    ensures HasActive(HotReplace(cfg, s, t), u)
  {
    WarmupsWait(s);
    ActiveSurvives(ProcessWarmups(s), HotReplace(cfg, s, t), u);
  }

  lemma ReplacementKeepsReady(cfg: Config, s: State, job: int, last: seq<int>)
    requires cfg.Valid() && IsSlot(cfg, job) && Inv(cfg, s) && Ready(cfg, s, job, last)
    ensures Ready(cfg, HotReplace(cfg, s, SlotTenant(cfg, job)), job, last[SlotTenant(cfg, job) := job])
  {
    var t := SlotTenant(cfg, job);
    forall u | 0 <= u < cfg.tenants && u != t && HasActive(s, u)
      ensures HasActive(HotReplace(cfg, s, t), u)
    {
      ReplacementKeepsActive(cfg, s, t, u);
    }
    assert Owed(cfg, job, t, job);
  }

  lemma StartKeepsProgress(cfg: Config, s: State, job: nat, slots: nat, draws: seq<Draw>, i: int, d: Draw)
    requires cfg.Valid() && Progress(cfg, s, job, slots, draws)
    requires s.inFlight < cfg.concurrency && d.latencyMs >= 0
    requires 0 <= i < |s.containers| && Free(job % cfg.tenants, cfg.slots)(s.containers[i])
    ensures Progress(cfg, StartJob(cfg, s, job, job % cfg.tenants, i, d), job + 1, slots, draws + [d])
  {
    var t := job % cfg.tenants;
    StartKeepsInv(cfg, s, job, t, i, d);
    StartBalances(cfg, s, job, t, i, d, draws);
    StartAccounted(cfg, s, job, i, d, draws);
  }

  lemma StartKeepsReady(cfg: Config, s: State, job: nat, i: int, d: Draw, last: seq<int>)
    requires cfg.Valid() && Inv(cfg, s) && Ready(cfg, s, job, last)
    requires 0 <= i < |s.containers| && Free(job % cfg.tenants, cfg.slots)(s.containers[i])
    ensures Ready(cfg, StartJob(cfg, s, job, job % cfg.tenants, i, d), job + 1, last)
  {
    var t := job % cfg.tenants;
    var s' := StartJob(cfg, s, job, t, i, d);
    assert ActiveOf(t)(s'.containers[i]);
    forall u | 0 <= u < cfg.tenants && HasActive(s, u)
      ensures HasActive(s', u)
    {
      ActiveSurvives(s, s', u);
    }
  }

  // ---------------------------------------------------------------- the initial population

  ghost function Filled(cfg: Config, t: int, k: int, u: int): int {
    if u < t then cfg.containersPerTenant else if u == t then k else 0
  }

  ghost predicate Fresh(cfg: Config, s: State) {
    && Shape(cfg, s)
    && s.heap == [] && s.now == 0 && s.inFlight == 0 && s.latencies == [] && s.violations == []
    && s.hotReplacements == 0 && s.sequence == 0
    && NamesDistinct(s)
    && (forall i :: 0 <= i < |s.containers| ==>
          var c := s.containers[i];
          && 0 <= c.tenant < cfg.tenants && 1 <= c.generation <= s.generations[c.tenant]
          && c.phase.Active? && c.activeJobs == c.acceptedJobs == c.completedJobs == 0)
    && Count(s.containers, Stopped()) == 0
  }

  /** Tenants below `t` have all their containers, tenant `t` has `k`, the rest have none. */
  ghost predicate Filling(cfg: Config, s: State, t: int, k: int) {
    && Fresh(cfg, s)
    && |s.containers| == t * cfg.containersPerTenant + k
    && forall u :: 0 <= u < cfg.tenants ==>
         && Count(s.containers, Serving(u)) == s.generations[u] == Filled(cfg, t, k, u)
         && s.tenants[u] == TenantStats(0, 0, 0, 0, 0, Filled(cfg, t, k, u), 0)
  }

  lemma CreateFills(cfg: Config, s: State, t: int, k: int)
    requires cfg.Valid() && Filling(cfg, s, t, k)
    requires 0 <= t < cfg.tenants && 0 <= k < cfg.containersPerTenant
    ensures Filling(cfg, CreateContainer(s, t, 0, None), t, k + 1)
  {
    CreateCounts(s, t, 0, None);
  }

  lemma InitialIsEmpty(cfg: Config)
    requires cfg.Valid()
    ensures Filling(cfg, Initial(cfg), 0, 0)
  {
  }

  lemma TenantFilled(cfg: Config, s: State, t: int)
    requires cfg.Valid() && Filling(cfg, s, t, cfg.containersPerTenant)
    ensures Filling(cfg, s, t + 1, 0)
  {
    MulNext(t, cfg.containersPerTenant);
  }

  lemma FilledIsActive(cfg: Config, s: State, t: int)
    requires cfg.Valid() && Filling(cfg, s, cfg.tenants, 0) && 0 <= t < cfg.tenants
    ensures HasActive(s, t)
  {
    CountPositive(s.containers, Serving(t));
    var i :| 0 <= i < |s.containers| && Serving(t)(s.containers[i]);
    assert ActiveOf(t)(s.containers[i]);
  }

  lemma FilledIsInv(cfg: Config, s: State)
    requires cfg.Valid() && Filling(cfg, s, cfg.tenants, 0)
    ensures Inv(cfg, s)
  {
    forall i | 0 <= i < |s.containers|
      ensures ContainerOk(cfg, s, i)
    {
    }
    forall t | 0 <= t < cfg.tenants
      ensures TenantOk(cfg, s, t)
    {
    }
  }

  lemma FilledIsReady(cfg: Config, s: State)
    requires cfg.Valid() && Filling(cfg, s, cfg.tenants, 0)
    ensures Progress(cfg, s, 0, 0, [])
    ensures Ready(cfg, s, 0, seq(cfg.tenants, _ => -1))
  {
    FilledIsInv(cfg, s);
    forall t | 0 <= t < cfg.tenants
      ensures HasActive(s, t)
    {
      FilledIsActive(cfg, s, t);
    }
    NothingStarted(cfg, s);
    SumZero(s.tenants, FailedOf());
    SumZero(s.tenants, FinishedOf());
  }

  // ---------------------------------------------------------------- the report

  datatype GateReason =
    | Violated(violation: Violation)
    | FailureRateExceeded
    | LatencyExceeded
    | HotReplacementMissing
    | DrainingContainersRemain(count: int)
    | NoCompletedJobs(tenant: int)

  datatype Summary = Summary(
    finished: int, failed: int, activeContainers: int, warmingContainers: int, drainingContainers: int,
    retiredContainers: int, containersCreated: int, hotReplacements: int,
    latency: L.Figures, makespanMs: int, throughput: real, failureRates: seq<real>, tenants: seq<TenantStats>, reasons: seq<GateReason>)

  function FailureRate(failed: int, finished: int): real {
    if finished == 0 then 0.0 else failed as real / finished as real
  }

  function RateOf(): TenantStats -> real { (u: TenantStats) => FailureRate(u.failed, u.finished) }

  /** Jobs per second; a run that takes no time counts as one second. */
  function Throughput(finished: int, makespanMs: int): real {
    if makespanMs == 0 then finished as real else finished as real / (makespanMs as real / 1000.0)
  }

  predicate FailureRateTooHigh(cfg: Config, failed: int, finished: int) {
    FailureRate(failed, finished) > cfg.maxFailureRate
  }

  /** A limit of zero switches the latency gate off. */
  predicate LatencyTooHigh(cfg: Config, latency: L.Figures) {
    cfg.maxP95Ms != 0 && latency.p95 > cfg.maxP95Ms
  }

  /** The tenants, in order, that completed nothing. */
  function Idle(tenants: seq<TenantStats>): seq<GateReason> {
    if tenants == [] then [] else
      var n := |tenants| - 1;
      Idle(tenants[..n]) + if tenants[n].finished == 0 then [NoCompletedJobs(n)] else []
  }

  /** The tenants that get no job when there are fewer jobs than tenants. */
  function NoJobs(jobs: int, tenants: int): seq<GateReason> {
    if jobs < tenants then seq(tenants - jobs, i => NoCompletedJobs(jobs + i)) else []
  }

  /** The gate reasons of a run in which nothing structural can go wrong: the failure rate, the latency, a
      replacement that never fell due, and the tenants that had no job at all. */
  function ExpectedReasons(cfg: Config, draws: seq<Draw>, latency: L.Figures): seq<GateReason>
    requires cfg.Valid()
  {
    (if FailureRateTooHigh(cfg, Count(draws, DrawFails()), cfg.jobs) then [FailureRateExceeded] else []) +
    (if LatencyTooHigh(cfg, latency) then [LatencyExceeded] else []) +
    (if cfg.requireHotReplacement && Slots(cfg, cfg.jobs) == 0 then [HotReplacementMissing] else []) +
    NoJobs(cfg.jobs, cfg.tenants)
  }

  /** What every completed run reports. */
  ghost predicate Reports(cfg: Config, draws: seq<Draw>, r: Summary)
    requires cfg.Valid()
  {
    && r.finished == cfg.jobs
    && r.failed == Count(draws, DrawFails())
    && r.latency == L.FiguresOf(MapSeq(draws, DrawLatency()))
    && r.hotReplacements == (if cfg.hotReplaceEvery > 0 then (cfg.jobs - 1) / cfg.hotReplaceEvery else 0)
    && r.drainingContainers == 0
    && r.retiredContainers == r.hotReplacements
    && r.activeContainers + r.warmingContainers == cfg.tenants * cfg.containersPerTenant
    && r.containersCreated == cfg.tenants * cfg.containersPerTenant + r.hotReplacements
    && |r.tenants| == cfg.tenants
    && (forall t :: 0 <= t < cfg.tenants ==> TenantReports(cfg, r.hotReplacements, t, r.tenants[t]))
    && RatesReported(cfg, draws, r)
    && Lasts(cfg, draws, r)
    && r.reasons == ExpectedReasons(cfg, draws, r.latency)
  }

  /** The failures of each tenant are those drawn for its jobs, and its rate is their share. */
  ghost predicate RatesReported(cfg: Config, draws: seq<Draw>, r: Summary)
    requires cfg.Valid()
  {
    && |r.tenants| == |r.failureRates| == cfg.tenants
    && forall t :: 0 <= t < cfg.tenants ==>
         && r.tenants[t].failed == TenantFailures(draws, cfg.tenants, t)
         && r.failureRates[t] == FailureRate(r.tenants[t].failed, r.tenants[t].finished)
  }

  /** How long the run takes: as long as its longest job, the compiling time shared out over the allowed concurrency,
      and at most all compiling and all warm-ups one after the other. */
  ghost predicate Lasts(cfg: Config, draws: seq<Draw>, r: Summary) {
    && (forall d :: d in draws ==> d.latencyMs <= r.makespanMs)
    && SumBy(draws, DrawLatency()) <= cfg.concurrency * r.makespanMs
    && r.makespanMs <= SumBy(draws, DrawLatency()) + cfg.warmupMs * r.hotReplacements
    && r.throughput == Throughput(cfg.jobs, r.makespanMs)
  }

  /** The exact share of tenant `t` in the jobs and in the replacements. */
  ghost predicate TenantReports(cfg: Config, hotReplacements: int, t: int, u: TenantStats)
    requires cfg.Valid()
  {
    && u.started == u.finished == (cfg.jobs + cfg.tenants - 1 - t) / cfg.tenants
    && u.hotReplacements == (hotReplacements + cfg.tenants - 1 - t) / cfg.tenants
    && u.created == cfg.containersPerTenant + u.hotReplacements
    && u.inFlight == 0 && u.maxInFlight <= cfg.concurrency
  }

  function AsReason(): Violation -> GateReason { (v: Violation) => Violated(v) }

  function Gate(cfg: Config, s: State, failed: int, finished: int, latency: L.Figures, draining: int): seq<GateReason> {
    MapSeq(s.violations, AsReason()) +
    (if FailureRateTooHigh(cfg, failed, finished) then [FailureRateExceeded] else []) +
    (if LatencyTooHigh(cfg, latency) then [LatencyExceeded] else []) +
    (if cfg.requireHotReplacement && s.hotReplacements == 0 then [HotReplacementMissing] else []) +
    (if draining > 0 then [DrainingContainersRemain(draining)] else []) +
    Idle(s.tenants)
  }

  function Summarize(cfg: Config, s: State): Summary {
    var finished := SumBy(s.tenants, FinishedOf());
    var failed := SumBy(s.tenants, FailedOf());
    var draining := Count(s.containers, InPhase(Draining));
    var latency := L.FiguresOf(s.latencies);
    Summary(finished, failed,
            Count(s.containers, InPhase(Active)), Count(s.containers, InPhase(Warming)), draining,
            Count(s.containers, InPhase(Retired)), |s.containers|, s.hotReplacements, latency, s.now,
            Throughput(finished, s.now), MapSeq(s.tenants, RateOf()), s.tenants,
            Gate(cfg, s, failed, finished, latency, draining))
  }

  /** Only tenants whose number is at least the number of jobs are idle. */
  lemma {:induction false} IdleExactly(cfg: Config, tenants: seq<TenantStats>)
    requires cfg.Valid() && |tenants| <= cfg.tenants
    requires forall t :: 0 <= t < |tenants| ==> tenants[t].finished == (cfg.jobs + cfg.tenants - 1 - t) / cfg.tenants
    ensures Idle(tenants) == NoJobs(cfg.jobs, |tenants|)
  {
    if tenants != [] {
      var n := |tenants| - 1;
      IdleExactly(cfg, tenants[..n]);
      var k := cfg.jobs + cfg.tenants - 1 - n;
      if cfg.jobs <= n {
        DivideUnique(k, cfg.tenants, 0, k);
        assert NoJobs(cfg.jobs, n + 1) == NoJobs(cfg.jobs, n) + [NoCompletedJobs(n)];
      } else {
        DivideSplit(k, cfg.tenants);
        if k / cfg.tenants <= 0 {
          MulMonotone(k / cfg.tenants, 0, cfg.tenants);
        }
      }
    }
  }

  lemma DrainedPhases(cfg: Config, s: State)
    requires cfg.Valid() && Inv(cfg, s) && s.heap == []
    ensures Count(s.containers, InPhase(Draining)) == 0
    ensures Count(s.containers, InPhase(Retired)) == s.hotReplacements
    ensures Count(s.containers, InPhase(Active)) + Count(s.containers, InPhase(Warming)) == cfg.tenants * cfg.containersPerTenant
  {
    var cs := s.containers;
    CountPositive(cs, InPhase(Draining));
    forall i | 0 <= i < |cs|
      ensures !InPhase(Draining)(cs[i])
    {
      assert ContainerOk(cfg, s, i);
    }
    CountSplit(cs, InPhase(Draining), InPhase(Retired), Stopped());
    var serving := (c: Container) => c.phase.Active? || c.phase.Warming?;
    CountSplit(cs, InPhase(Active), InPhase(Warming), serving);
    CountSplit(cs, serving, Stopped(), (c: Container) => true);
    CountAll(cs, (c: Container) => true);
  }

  lemma DrainedTenants(cfg: Config, s: State, draws: seq<Draw>, t: int)
    requires cfg.Valid() && Progress(cfg, s, cfg.jobs, Slots(cfg, cfg.jobs), draws) && s.heap == []
    requires 0 <= t < cfg.tenants
    ensures TenantReports(cfg, s.hotReplacements, t, s.tenants[t])
  {
    assert TenantOk(cfg, s, t);
    ResiduesClosedForm(cfg.tenants, t, cfg.jobs);
    ResiduesClosedForm(cfg.tenants, t, Slots(cfg, cfg.jobs));
  }

  lemma DrainedReasons(cfg: Config, s: State, draws: seq<Draw>, latency: L.Figures)
    requires cfg.Valid() && s.violations == [] && s.hotReplacements == Slots(cfg, cfg.jobs)
    requires Idle(s.tenants) == NoJobs(cfg.jobs, cfg.tenants)
    ensures Gate(cfg, s, Count(draws, DrawFails()), cfg.jobs, latency, 0) == ExpectedReasons(cfg, draws, latency)
  {
    assert MapSeq(s.violations, AsReason()) == [];
  }

  lemma DrainedIdle(cfg: Config, s: State, draws: seq<Draw>)
    requires cfg.Valid() && Progress(cfg, s, cfg.jobs, Slots(cfg, cfg.jobs), draws) && s.heap == []
    ensures Idle(s.tenants) == NoJobs(cfg.jobs, cfg.tenants)
    ensures forall t :: 0 <= t < cfg.tenants ==> TenantReports(cfg, s.hotReplacements, t, s.tenants[t])
  {
    forall t | 0 <= t < cfg.tenants
      ensures TenantReports(cfg, s.hotReplacements, t, s.tenants[t])
    {
      DrainedTenants(cfg, s, draws, t);
    }
    IdleExactly(cfg, s.tenants);
  }

  lemma DrainedLatency(s: State, draws: seq<Draw>)
    requires Balanced(s, draws) && s.heap == []
    ensures L.FiguresOf(s.latencies) == L.FiguresOf(MapSeq(draws, DrawLatency()))
  {
    L.FiguresForgetOrder(s.latencies, MapSeq(draws, DrawLatency()));
  }

  lemma DrainedBounds(s: State, draws: seq<Draw>, d: Draw)
    requires Balanced(s, draws) && Bounded(s) && s.heap == [] && d in draws
    ensures d.latencyMs <= s.now
  {
    var all := MapSeq(draws, DrawLatency());
    var i :| 0 <= i < |draws| && draws[i] == d;
    assert all[i] == d.latencyMs && all[i] in multiset(all);
    assert MapSeq(s.heap, LatencyOf()) == [];
    assert d.latencyMs in multiset(s.latencies);
    assert d.latencyMs in s.latencies;
  }

  lemma DrainedLasts(cfg: Config, s: State, draws: seq<Draw>)
    requires Accounted(cfg, s, draws) && Balanced(s, draws) && |draws| == cfg.jobs && s.heap == []
    ensures Lasts(cfg, draws, Summarize(cfg, s))
  {
    DrainedPace(cfg, s, draws);
    forall d | d in draws ensures d.latencyMs <= s.now {
      DrainedBounds(s, draws, d);
    }
  }

  lemma DrainedRates(cfg: Config, s: State, draws: seq<Draw>)
    requires cfg.Valid() && Attributed(s, draws) && |s.tenants| == cfg.tenants && s.heap == []
    ensures RatesReported(cfg, draws, Summarize(cfg, s))
  {
  }

  lemma DrainedReports(cfg: Config, s: State, draws: seq<Draw>)
    requires cfg.Valid() && Progress(cfg, s, cfg.jobs, Slots(cfg, cfg.jobs), draws) && s.heap == []
    ensures Reports(cfg, draws, Summarize(cfg, s))
  {
    DrainedPhases(cfg, s);
    DrainedIdle(cfg, s, draws);
    DrainedLatency(s, draws);
    DrainedLasts(cfg, s, draws);
    DrainedRates(cfg, s, draws);
    DrainedReasons(cfg, s, draws, L.FiguresOf(s.latencies));
  }

  // ---------------------------------------------------------------- the lives of the containers

  /** Every container of the run went warming, active, draining, retired without a skip, and the report counts the
      phases in which they ended. */
  ghost predicate Lives(r: Summary, phases: seq<seq<Phase>>) {
    && |phases| == r.containersCreated && (forall i :: 0 <= i < |phases| ==> Life(phases[i]))
    && Count(phases, EndsIn(Active)) == r.activeContainers && Count(phases, EndsIn(Warming)) == r.warmingContainers
    && Count(phases, EndsIn(Draining)) == r.drainingContainers && Count(phases, EndsIn(Retired)) == r.retiredContainers
  }

  lemma SummaryLives(cfg: Config, s: State, phases: seq<seq<Phase>>)
    requires Logged(s.containers, phases)
    ensures Lives(Summarize(cfg, s), phases)
  {
    forall i | 0 <= i < |phases| ensures Life(phases[i]) {
      assert LoggedAt(s.containers, phases, i);
    }
    LogCounts(s.containers, phases, Active);
    LogCounts(s.containers, phases, Warming);
    LogCounts(s.containers, phases, Draining);
    LogCounts(s.containers, phases, Retired);
  }
}
