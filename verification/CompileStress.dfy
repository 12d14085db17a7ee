/** The scheduler object itself: its fields change in place, its loops are the program's loops,
    and each method is tied to the step function it performs. */
module CompileStress {
  import opened Prelude
  import M = StressModel
  import S = StressSchedule
  import L = Latency
  import A = StressAccounts
  import G = StressGate

  datatype RunError = InvalidConfig

  class StressRunner {
    const cfg: M.Config
    const draws: seq<M.Draw>
    var containers: seq<M.Container>
    var tenants: seq<M.TenantStats>
    var generations: seq<int>
    var heap: seq<M.Completion>
    var nowMs: int
    var inFlight: int
    var latencies: seq<int>
    var violations: seq<M.Violation>
    var hotReplacements: int
    var sequence: int
    /** The phases that each container was assigned. */
    ghost var phases: seq<seq<M.Phase>>
    /** The numbers of running jobs that each tenant went through. */
    ghost var loads: seq<seq<int>>

    ghost predicate Logged()
      reads this
    {
      M.Logged(containers, phases) && M.Loaded(tenants, loads)
    }

    ghost function View(): M.State
      reads this
    {
      M.State(containers, tenants, generations, heap, nowMs, inFlight, latencies, violations, hotReplacements, sequence)
    }

    constructor (cfg: M.Config, draws: seq<M.Draw>)
      ensures this.cfg == cfg && this.draws == draws
      ensures cfg.Valid() ==> View() == M.Initial(cfg)
      ensures Logged()
    {
      this.cfg, this.draws := cfg, draws;
      var count := if cfg.tenants > 0 then cfg.tenants else 0;
      tenants := seq(count, _ => M.TenantStats(0, 0, 0, 0, 0, 0, 0));
      generations := seq(count, _ => 0);
      containers, heap, latencies, violations := [], [], [], [];
      nowMs, inFlight, hotReplacements, sequence := 0, 0, 0, 0;
      phases, loads := [], seq(count, _ => [0]);
      M.NothingLoaded(count);
    }

    method CreateContainer(t: int, activeAfter: int, replacementOf: Option<int>)
      requires M.KnowsTenant(View(), t)
      requires Logged()
      modifies this
      ensures Logged()
      ensures View() == M.CreateContainer(old(View()), t, activeAfter, replacementOf)
    {
      generations := generations[t := generations[t] + 1];
      var phase := if activeAfter > nowMs then M.Warming else M.Active;
      var c := M.Container(t, generations[t], phase, activeAfter, nowMs, replacementOf, 0, 0, 0);
      M.LogNew(containers, phases, c);
      containers := containers + [c];
      phases := phases + [[phase]];
      M.LoadStays(tenants, loads, t, tenants[t].(created := tenants[t].created + 1));
      tenants := tenants[t := tenants[t].(created := tenants[t].created + 1)];
    }

    method ProcessWarmups()
      requires Logged()
      modifies this`containers, this`phases
      ensures Logged()
      ensures View() == M.ProcessWarmups(old(View()))
    {
      var i := 0;
      while i < |containers|
        invariant 0 <= i <= |containers| == |old(containers)| && Logged()
        invariant forall k :: 0 <= k < i ==> containers[k] == M.WarmUp(old(containers)[k], nowMs)
        invariant forall k :: i <= k < |containers| ==> containers[k] == old(containers)[k]
      {
        if containers[i].phase.Warming? && containers[i].activeAfter <= nowMs {
          M.LogMove(containers, phases, i, containers[i].(phase := M.Active));
          containers := containers[i := containers[i].(phase := M.Active)];
          phases := phases[i := phases[i] + [M.Active]];
        }
        i := i + 1;
      }
    }

    method RetireIfIdle(i: int)
      requires 0 <= i < |containers|
      requires Logged()
      modifies this`containers, this`phases
      ensures Logged()
      ensures View() == M.RetireIfIdle(old(View()), i)
    {
      if containers[i].phase.Draining? && containers[i].activeJobs == 0 {
        M.LogMove(containers, phases, i, containers[i].(phase := M.Retired));
        containers := containers[i := containers[i].(phase := M.Retired)];
        phases := phases[i := phases[i] + [M.Retired]];
      }
    }

    method HotReplace(t: int)
      requires M.KnowsTenant(View(), t)
      requires Logged()
      modifies this
      ensures Logged()
      ensures View() == M.HotReplace(cfg, old(View()), t)
    {
      ProcessWarmups();
      ghost var w := View();
      var retiring := M.Best(containers, M.ActiveOf(t));
      if retiring < 0 {
        violations := violations + [M.NoActiveContainer(t)];
        return;
      }
      M.LogMove(containers, phases, retiring, containers[retiring].(phase := M.Draining));
      containers := containers[retiring := containers[retiring].(phase := M.Draining)];
      phases := phases[retiring := phases[retiring] + [M.Draining]];
      hotReplacements := hotReplacements + 1;
      M.LoadStays(tenants, loads, t, tenants[t].(hotReplacements := tenants[t].hotReplacements + 1));
      tenants := tenants[t := tenants[t].(hotReplacements := tenants[t].hotReplacements + 1)];
      assert View() == M.Drain(w, t, retiring);
      CreateContainer(t, nowMs + cfg.warmupMs, Some(retiring));
      RetireIfIdle(retiring);
    }

    method CountStart(t: int)
      requires M.Loaded(tenants, loads) && 0 <= t < |tenants|
      modifies this`tenants, this`loads
      ensures M.Loaded(tenants, loads)
      ensures var u := old(tenants)[t];
              tenants == old(tenants)[t := u.(started := u.started + 1, inFlight := u.inFlight + 1,
                                              maxInFlight := Max(u.maxInFlight, u.inFlight + 1))]
    {
      var u := tenants[t];
      u := u.(started := u.started + 1, inFlight := u.inFlight + 1, maxInFlight := Max(u.maxInFlight, u.inFlight + 1));
      M.LoadMoves(tenants, loads, t, u);
      tenants := tenants[t := u];
      loads := loads[t := loads[t] + [u.inFlight]];
    }

    method CountFinish(t: int, failed: bool)
      requires M.Loaded(tenants, loads) && 0 <= t < |tenants|
      modifies this`tenants, this`loads
      ensures M.Loaded(tenants, loads)
      ensures var u := old(tenants)[t];
              tenants == old(tenants)[t := u.(finished := u.finished + 1, inFlight := u.inFlight - 1,
                                              failed := u.failed + if failed then 1 else 0)]
    {
      var u := tenants[t];
      u := u.(finished := u.finished + 1, inFlight := u.inFlight - 1);
      if failed {
        u := u.(failed := u.failed + 1);
      }
      M.LoadMoves(tenants, loads, t, u);
      tenants := tenants[t := u];
      loads := loads[t := loads[t] + [u.inFlight]];
    }

    method StartJob(job: int, t: int, i: int, draw: M.Draw)
      requires M.KnowsTenant(View(), t) && 0 <= i < |containers|
      requires Logged()
      modifies this
      ensures Logged()
      ensures View() == M.StartJob(cfg, old(View()), job, t, i, draw)
    {
      var c := containers[i];
      if c.tenant != t {
        violations := violations + [M.TenantIsolation(job, t, i)];
      }
      if c.activeJobs >= cfg.slots {
        violations := violations + [M.CapacityOverflow(job, i)];
      }
      M.LogStay(containers, phases, i, c.(activeJobs := c.activeJobs + 1, acceptedJobs := c.acceptedJobs + 1));
      containers := containers[i := c.(activeJobs := c.activeJobs + 1, acceptedJobs := c.acceptedJobs + 1)];
      CountStart(t);
      inFlight := inFlight + 1;
      sequence := sequence + 1;
      heap := heap + [M.Completion(nowMs + draw.latencyMs, sequence, job, t, i, draw.latencyMs, draw.failed)];
    }

    method FinishJob(e: M.Completion)
      requires M.Addressable(View(), e)
      requires Logged()
      modifies this
      ensures Logged()
      ensures View() == M.FinishJob(old(View()), e)
    {
      var c := containers[e.container];
      M.LogStay(containers, phases, e.container, c.(activeJobs := c.activeJobs - 1, completedJobs := c.completedJobs + 1));
      containers := containers[e.container := c.(activeJobs := c.activeJobs - 1, completedJobs := c.completedJobs + 1)];
      CountFinish(e.tenant, e.failed);
      inFlight := inFlight - 1;
      latencies := latencies + [e.latencyMs];
      RetireIfIdle(e.container);
    }

    method AdvanceToNextEvent() returns (stall: Option<M.Stall>)
      requires forall e :: e in heap ==> M.Addressable(View(), e)
      requires Logged()
      modifies this
      ensures Logged()
      ensures match M.AdvanceToNextEvent(old(View()))
              case Ok(next) => stall.None? && View() == next
              case Err(error) => stall == Some(error) && View() == old(View())
    {
      var nextWarmup := M.NextWarmup(containers, nowMs);
      if nextWarmup.None? && heap == [] {
        return Some(M.NoEventsRemain);
      }
      if heap != [] && (nextWarmup.None? || heap[M.Earliest(heap)].finishedAt <= nextWarmup.value) {
        var m := M.Earliest(heap);
        var completion := heap[m];
        assert M.Addressable(View(), completion);
        heap := M.Without(heap, m);
        nowMs := Max(nowMs, completion.finishedAt);
        FinishJob(completion);
        ProcessWarmups();
        return None;
      }
      nowMs := Max(nowMs, nextWarmup.value);
      ProcessWarmups();
      return None;
    }

    /** Nothing but waiting happened since the state `s`. */
    ghost predicate Waited(s: M.State, started: seq<M.Draw>)
      reads this
    {
      S.Waited(cfg, s, View(), started) && Logged()
    }

    /** One event passes; the scheduler is never stuck and comes strictly closer to the end. */
    method AwaitEvent(ghost s: M.State, ghost started: seq<M.Draw>)
      requires cfg.Valid() && Waited(s, started)
      requires heap != [] || M.NextWarmup(containers, nowMs).Some?
      modifies this
      ensures Waited(s, started)
      ensures M.Pending(View()) < M.Pending(old(View()))
      ensures old(heap) != [] && old(M.NextWarmup(containers, nowMs).None?) ==> |heap| < |old(heap)|
    {
      S.AdvanceIsWaiting(cfg, s, View(), started);
      var stall := AdvanceToNextEvent();
      assert stall.None?;
    }

    /** One look at the tenant's containers; when none is free there is an event to wait for. */
    method TryAcquire(t: int, ghost s: M.State, ghost started: seq<M.Draw>) returns (i: int)
      requires cfg.Valid() && Waited(s, started) && 0 <= t < cfg.tenants
      modifies this`containers, this`phases
      ensures Waited(s, started) && M.Pending(View()) <= M.Pending(old(View()))
      ensures i == M.Best(containers, M.Free(t, cfg.slots))
      ensures i < 0 ==> heap != [] || M.NextWarmup(containers, nowMs).Some?
    {
      S.WarmupsAreWaiting(cfg, s, View(), started);
      M.WarmupsProgress(View());
      ProcessWarmups();
      i := M.Best(containers, M.Free(t, cfg.slots));
      if i < 0 {
        M.AdvanceIsEnabled(cfg, View(), t);
      }
    }

    method AcquireContainer(t: int, ghost started: seq<M.Draw>) returns (i: int)
      requires cfg.Valid() && M.Inv(cfg, View()) && M.Balanced(View(), started) && Logged() && A.Accounted(cfg, View(), started)
      requires 0 <= t < cfg.tenants
      modifies this
      ensures Waited(old(View()), started)
      ensures 0 <= i < |containers| && M.Free(t, cfg.slots)(containers[i])
      ensures i == M.Best(containers, M.Free(t, cfg.slots)) && M.LeastLoaded(containers, M.Free(t, cfg.slots), i)
    {
      M.WaitsReflexive(View());
      i := TryAcquire(t, View(), started);
      while i < 0
        invariant Waited(old(View()), started)
        invariant i == M.Best(containers, M.Free(t, cfg.slots))
        invariant i < 0 ==> heap != [] || M.NextWarmup(containers, nowMs).Some?
        decreases M.Pending(View())
      {
        AwaitEvent(old(View()), started);
        i := TryAcquire(t, old(View()), started);
      }
    }

    method CreateTenantContainers(t: int)
      requires cfg.Valid() && 0 <= t < cfg.tenants && S.Filling(cfg, View(), t, 0)
      requires Logged()
      modifies this
      ensures Logged()
      ensures S.Filling(cfg, View(), t + 1, 0)
    {
      var k := 0;
      while k < cfg.containersPerTenant
        invariant 0 <= k <= cfg.containersPerTenant
        invariant S.Filling(cfg, View(), t, k) && Logged()
      {
        S.CreateFills(cfg, View(), t, k);
        CreateContainer(t, 0, None);
        k := k + 1;
      }
      S.TenantFilled(cfg, View(), t);
    }

    method CreateInitialContainers()
      requires cfg.Valid() && View() == M.Initial(cfg)
      requires Logged()
      modifies this
      ensures Logged()
      ensures S.Filling(cfg, View(), cfg.tenants, 0)
    {
      S.InitialIsEmpty(cfg);
      var t := 0;
      while t < cfg.tenants
        invariant 0 <= t <= cfg.tenants
        invariant S.Filling(cfg, View(), t, 0) && Logged()
      {
        CreateTenantContainers(t);
        t := t + 1;
      }
    }

    /** The run stands before job `job` with `slots` replacements made and `last` recording them. */
    ghost predicate At(job: nat, slots: nat, last: seq<int>)
      requires cfg.Valid()
      reads this
    {
      && job <= |draws| && S.Progress(cfg, View(), job, slots, draws[..job]) && S.Ready(cfg, View(), job, last)
      && Logged()
    }

    method ReplaceWhenDue(job: nat, ghost last: seq<int>) returns (ghost last': seq<int>)
      requires cfg.Valid() && At(job, S.Slots(cfg, job), last)
      requires forall t :: 0 <= t < cfg.tenants ==> last[t] < job
      modifies this
      ensures At(job, S.Slots(cfg, job + 1), last')
      ensures forall t :: 0 <= t < cfg.tenants ==> last'[t] <= job
    {
      last' := last;
      S.SlotsNext(cfg, job);
      if cfg.hotReplaceEvery > 0 && job > 0 && job % cfg.hotReplaceEvery == 0 {
        var t := (job / cfg.hotReplaceEvery - 1) % cfg.tenants;
        S.SlotFindsActive(cfg, View(), job, last);
        S.ReplacementKeepsProgress(cfg, View(), job, draws[..job]);
        S.ReplacementKeepsReady(cfg, View(), job, last);
        last' := last[t := job];
        HotReplace(t);
      }
    }

    method AwaitCapacity(job: nat, ghost slots: nat, ghost last: seq<int>)
      requires cfg.Valid() && At(job, slots, last)
      modifies this
      ensures At(job, slots, last)
      ensures inFlight < cfg.concurrency
    {
      ghost var s := View();
      M.WaitsReflexive(s);
      while inFlight >= cfg.concurrency
        invariant Waited(s, draws[..job])
        decreases M.Pending(View())
      {
        AwaitEvent(s, draws[..job]);
      }
      S.WaitingKeepsProgress(cfg, s, View(), job, slots, draws[..job]);
      S.WaitingKeepsReady(cfg, s, View(), job, last);
    }

    method AcquireFor(job: nat, ghost slots: nat, ghost last: seq<int>) returns (i: int)
      requires cfg.Valid() && At(job, slots, last) && inFlight < cfg.concurrency
      modifies this
      ensures At(job, slots, last) && inFlight < cfg.concurrency
      ensures 0 <= i < |containers| && M.Free(job % cfg.tenants, cfg.slots)(containers[i])
    {
      ghost var s := View();
      i := AcquireContainer(job % cfg.tenants, draws[..job]);
      S.WaitingKeepsProgress(cfg, s, View(), job, slots, draws[..job]);
      S.WaitingKeepsReady(cfg, s, View(), job, last);
    }

    method StartNext(job: nat, i: int, ghost slots: nat, ghost last: seq<int>)
      requires cfg.Valid() && job < |draws| && M.Drawable(cfg, draws[job])
      requires At(job, slots, last) && inFlight < cfg.concurrency
      requires 0 <= i < |containers| && M.Free(job % cfg.tenants, cfg.slots)(containers[i])
      modifies this
      ensures At(job + 1, slots, last)
    {
      ghost var s := View();
      StartJob(job, job % cfg.tenants, i, draws[job]);
      S.StartKeepsProgress(cfg, s, job, slots, draws[..job], i, draws[job]);
      S.StartKeepsReady(cfg, s, job, i, draws[job], last);
      assert draws[..job + 1] == draws[..job] + [draws[job]];
    }

    /** Admits one job: the replacement it may trigger, the concurrency cap, and the start. */
    method AdmitJob(job: nat, ghost last: seq<int>) returns (ghost last': seq<int>)
      requires cfg.Valid() && job < |draws| && M.Drawable(cfg, draws[job])
      requires At(job, S.Slots(cfg, job), last)
      requires forall t :: 0 <= t < cfg.tenants ==> last[t] < job
      modifies this
      ensures At(job + 1, S.Slots(cfg, job + 1), last')
      ensures forall t :: 0 <= t < cfg.tenants ==> last'[t] < job + 1
    {
      ghost var slots := S.Slots(cfg, job + 1);
      last' := ReplaceWhenDue(job, last);
      AwaitCapacity(job, slots, last');
      var i := AcquireFor(job, slots, last');
      StartNext(job, i, slots, last');
    }

    method Drain(ghost last: seq<int>)
      requires cfg.Valid() && |draws| == cfg.jobs && At(cfg.jobs, S.Slots(cfg, cfg.jobs), last)
      modifies this
      ensures At(cfg.jobs, S.Slots(cfg, cfg.jobs), last) && heap == []
    {
      ghost var s := View();
      M.WaitsReflexive(s);
      while heap != []
        invariant Waited(s, draws[..cfg.jobs])
        decreases M.Pending(View())
      {
        AwaitEvent(s, draws[..cfg.jobs]);
      }
      S.WarmupsAreWaiting(cfg, s, View(), draws[..cfg.jobs]);
      ProcessWarmups();
      S.WaitingKeepsProgress(cfg, s, View(), cfg.jobs, S.Slots(cfg, cfg.jobs), draws[..cfg.jobs]);
      S.WaitingKeepsReady(cfg, s, View(), cfg.jobs, last);
    }

    method IdleTenants() returns (idle: seq<S.GateReason>)
      ensures idle == S.Idle(tenants)
    {
      idle := [];
      var t := 0;
      while t < |tenants|
        invariant 0 <= t <= |tenants|
        invariant idle == S.Idle(tenants[..t])
      {
        if tenants[t].finished == 0 {
          idle := idle + [S.NoCompletedJobs(t)];
        }
        t := t + 1;
        assert tenants[..t][..t - 1] == tenants[..t - 1];
      }
      assert tenants[..t] == tenants;
    }

    method GateReasons(failed: int, finished: int, latency: L.Figures, draining: int) returns (reasons: seq<S.GateReason>)
      ensures reasons == S.Gate(cfg, View(), failed, finished, latency, draining)
    {
      reasons := MapSeq(violations, S.AsReason());
      if S.FailureRateTooHigh(cfg, failed, finished) {
        reasons := reasons + [S.FailureRateExceeded];
      }
      if S.LatencyTooHigh(cfg, latency) {
        reasons := reasons + [S.LatencyExceeded];
      }
      if cfg.requireHotReplacement && hotReplacements == 0 {
        reasons := reasons + [S.HotReplacementMissing];
      }
      if draining > 0 {
        reasons := reasons + [S.DrainingContainersRemain(draining)];
      }
      var idle := IdleTenants();
      reasons := reasons + idle;
    }

    method BuildSummary() returns (summary: S.Summary)
      ensures summary == S.Summarize(cfg, View())
    {
      var latency := L.FiguresOf(latencies);
      var finished := SumBy(tenants, M.FinishedOf());
      var failed := SumBy(tenants, M.FailedOf());
      var draining := Count(containers, M.InPhase(M.Draining));
      var reasons := GateReasons(failed, finished, latency, draining);
      summary := S.Summary(finished, failed,
        Count(containers, M.InPhase(M.Active)), Count(containers, M.InPhase(M.Warming)), draining,
        Count(containers, M.InPhase(M.Retired)), |containers|, hotReplacements, latency, nowMs,
        S.Throughput(finished, nowMs), MapSeq(tenants, S.RateOf()), tenants, reasons);
    }

    method Prepare() returns (ghost last: seq<int>)
      requires cfg.Valid() && View() == M.Initial(cfg)
      requires Logged()
      modifies this
      ensures Logged()
      ensures At(0, 0, last) && forall t :: 0 <= t < cfg.tenants ==> last[t] < 0
    {
      CreateInitialContainers();
      ghost var s := View();
      last := seq(cfg.tenants, _ => -1);
      S.FilledIsReady(cfg, s);
      M.WarmupsKeepInv(cfg, s);
      A.WarmupsAccounted(cfg, s, []);
      M.WarmupsWait(s);
      ProcessWarmups();
      S.WaitingKeepsProgress(cfg, s, View(), 0, 0, []);
      S.WaitingKeepsReady(cfg, s, View(), 0, last);
      assert draws[..0] == [];
    }

    method AdmitAll(ghost first: seq<int>) returns (ghost last: seq<int>)
      requires cfg.Valid() && |draws| == cfg.jobs && forall d :: d in draws ==> M.Drawable(cfg, d)
      requires At(0, 0, first) && forall t :: 0 <= t < cfg.tenants ==> first[t] < 0
      modifies this
      ensures At(cfg.jobs, S.Slots(cfg, cfg.jobs), last)
    {
      last := first;
      var job := 0;
      while job < cfg.jobs
        invariant 0 <= job <= cfg.jobs
        invariant At(job, S.Slots(cfg, job), last)
        invariant forall t :: 0 <= t < cfg.tenants ==> last[t] < job
      {
        assert draws[job] in draws;
        last := AdmitJob(job, last);
        job := job + 1;
      }
    }

    method Run() returns (r: Result<S.Summary, RunError>)
      requires cfg.Valid() ==> View() == M.Initial(cfg) && |draws| == cfg.jobs
      requires Logged() && forall d :: d in draws ==> M.Drawable(cfg, d)
      modifies this
      ensures r.Err? <==> !cfg.Valid()
      ensures r.Ok? ==> M.Inv(cfg, View()) && S.Reports(cfg, draws, r.value)
      ensures r.Ok? ==> S.Lives(r.value, phases) && M.Loaded(r.value.tenants, loads)
    {
      if !cfg.Valid() {
        return Err(InvalidConfig);
      }
      ghost var last := Prepare();
      last := AdmitAll(last);
      Drain(last);
      assert draws[..cfg.jobs] == draws;
      S.DrainedReports(cfg, View(), draws);
      S.SummaryLives(cfg, View(), phases);
      var summary := BuildSummary();
      return Ok(summary);
    }
  }

  /** A stress run: rejected for an invalid configuration, otherwise always completed, whatever
      the drawn latencies and failures are, with the report that `Reports` spells out. `phases` are the phases that
      the containers of the run went through, `loads` the numbers of running jobs that each tenant went through. */
  method RunStress(cfg: M.Config, draws: seq<M.Draw>)
    returns (r: Result<S.Summary, RunError>, ghost phases: seq<seq<M.Phase>>, ghost loads: seq<seq<int>>)
    requires cfg.Valid() ==> |draws| == cfg.jobs
    requires forall d :: d in draws ==> M.Drawable(cfg, d)
    ensures r.Err? <==>
              || cfg.tenants < 1 || cfg.containersPerTenant < 1 || cfg.slots < 1 || cfg.jobs < 1 || cfg.concurrency < 1
              || cfg.hotReplaceEvery < 0 || cfg.warmupMs < 0 || cfg.compileMinMs < 0 || cfg.compileMaxMs < cfg.compileMinMs
              || cfg.failureRate < 0.0 || cfg.failureRate > 1.0 || cfg.maxFailureRate < 0.0 || cfg.maxFailureRate > 1.0
              || cfg.maxP95Ms < 0
    ensures r.Ok? ==> S.Reports(cfg, draws, r.value) && S.Lives(r.value, phases) && M.Loaded(r.value.tenants, loads)
    ensures r.Ok? ==> G.GateLaws(cfg, draws, r.value.reasons) && G.PrintsTrue(cfg, draws, r.value)
  {
    var runner := new StressRunner(cfg, draws);
    r := runner.Run();
    phases, loads := runner.phases, runner.loads;
    if r.Ok? {
      G.GateIsLawful(cfg, draws, r.value);
      G.ReportPrintsTrue(cfg, draws, r.value);
    }
  }
}
