/** The hot-replacing compile scheduler: its data, its steps as functions of the
    whole simulation state, and the invariant that every step keeps. */
module StressModel {
  import opened Prelude

  // ---------------------------------------------------------------- data

  datatype Config = Config(
    tenants: int, containersPerTenant: int, slots: int, jobs: int, concurrency: int,
    hotReplaceEvery: int, warmupMs: int, compileMinMs: int, compileMaxMs: int,
    failureRate: real, maxFailureRate: real, maxP95Ms: int, requireHotReplacement: bool)
  {
    predicate Valid() {
      && tenants >= 1 && containersPerTenant >= 1 && slots >= 1 && jobs >= 1 && concurrency >= 1
      && hotReplaceEvery >= 0 && warmupMs >= 0 && compileMinMs >= 0 && compileMaxMs >= compileMinMs
      && 0.0 <= failureRate <= 1.0 && 0.0 <= maxFailureRate <= 1.0 && maxP95Ms >= 0
    }
  }

  /** The outcome of the random draws made when a job starts. */
  datatype Draw = Draw(latencyMs: int, failed: bool)

  predicate Drawable(cfg: Config, d: Draw) {
    && cfg.compileMinMs <= d.latencyMs <= cfg.compileMaxMs
    && (cfg.failureRate == 0.0 ==> !d.failed)
    && (cfg.failureRate == 1.0 ==> d.failed)
  }

  datatype Phase = Warming | Active | Draining | Retired

  datatype Container = Container(
    tenant: int, generation: int, phase: Phase, activeAfter: int, createdAt: int,
    replacementOf: Option<int>, activeJobs: int, acceptedJobs: int, completedJobs: int)

  /** `container` is the position of the container in creation order. */
  datatype Completion = Completion(
    finishedAt: int, sequence: int, job: int, tenant: int, container: int, latencyMs: int, failed: bool)

  datatype TenantStats = TenantStats(
    started: int, finished: int, failed: int, inFlight: int, maxInFlight: int, created: int, hotReplacements: int)

  datatype Violation =
    | NoActiveContainer(tenant: int)
    | TenantIsolation(job: int, tenant: int, container: int)
    | CapacityOverflow(job: int, container: int)

  datatype State = State(
    containers: seq<Container>, tenants: seq<TenantStats>, generations: seq<int>, heap: seq<Completion>,
    now: int, inFlight: int, latencies: seq<int>, violations: seq<Violation>, hotReplacements: int, sequence: int)

  // ---------------------------------------------------------------- selectors

  function OnContainer(i: int): Completion -> bool { (e: Completion) => e.container == i }
  function OfTenant(t: int): Completion -> bool { (e: Completion) => e.tenant == t }
  function Serving(t: int): Container -> bool { (c: Container) => c.tenant == t && (c.phase.Active? || c.phase.Warming?) }
  function ActiveOf(t: int): Container -> bool { (c: Container) => c.tenant == t && c.phase.Active? }
  function Free(t: int, slots: int): Container -> bool {
    (c: Container) => c.tenant == t && c.phase.Active? && c.activeJobs < slots
  }
  function InPhase(p: Phase): Container -> bool { (c: Container) => c.phase == p }
  function Stopped(): Container -> bool { (c: Container) => c.phase.Draining? || c.phase.Retired? }

  // ---------------------------------------------------------------- steps

  function Initial(cfg: Config): State
    requires cfg.Valid()
  {
    State([], seq(cfg.tenants, _ => TenantStats(0, 0, 0, 0, 0, 0, 0)), seq(cfg.tenants, _ => 0),
          [], 0, 0, [], [], 0, 0)
  }

  predicate KnowsTenant(s: State, t: int) {
    0 <= t < |s.tenants| == |s.generations|
  }

  function CreateContainer(s: State, t: int, activeAfter: int, replacementOf: Option<int>): State
    requires KnowsTenant(s, t)
  {
    var generation := s.generations[t] + 1;
    var phase := if activeAfter > s.now then Warming else Active;
    var c := Container(t, generation, phase, activeAfter, s.now, replacementOf, 0, 0, 0);
    s.(containers := s.containers + [c],
       generations := s.generations[t := generation],
       tenants := s.tenants[t := s.tenants[t].(created := s.tenants[t].created + 1)])
  }

  function WarmUp(c: Container, now: int): Container {
    if c.phase.Warming? && c.activeAfter <= now then c.(phase := Active) else c
  }

  function WarmAll(cs: seq<Container>, now: int): (r: seq<Container>)
    ensures |r| == |cs|
    ensures forall i :: 0 <= i < |cs| ==> r[i] == WarmUp(cs[i], now)
  {
    seq(|cs|, i requires 0 <= i < |cs| => WarmUp(cs[i], now))
  }

  function ProcessWarmups(s: State): State {
    s.(containers := WarmAll(s.containers, s.now))
  }

  /** The selection key of the scheduler: fewest running jobs, then fewest accepted, then oldest. */
  predicate Before(a: Container, b: Container) {
    || a.activeJobs < b.activeJobs
    || (a.activeJobs == b.activeJobs && a.acceptedJobs < b.acceptedJobs)
    || (a.activeJobs == b.activeJobs && a.acceptedJobs == b.acceptedJobs && a.generation < b.generation)
  }

  /** Among the containers satisfying `p` none has fewer running jobs than `b`, none with as many has accepted fewer,
      none that is equal in both is older, and none that is equal in all comes before it. */
  ghost predicate LeastLoaded(cs: seq<Container>, p: Container -> bool, b: int)
    requires 0 <= b < |cs|
  {
    forall i :: 0 <= i < |cs| && p(cs[i]) ==>
      && cs[b].activeJobs <= cs[i].activeJobs
      && (cs[b].activeJobs == cs[i].activeJobs ==> cs[b].acceptedJobs <= cs[i].acceptedJobs)
      && (cs[b].activeJobs == cs[i].activeJobs && cs[b].acceptedJobs == cs[i].acceptedJobs ==>
            cs[b].generation <= cs[i].generation && (cs[b].generation == cs[i].generation ==> b <= i))
  }

  /** The first least container satisfying `p`, or -1. */
  function Best(cs: seq<Container>, p: Container -> bool): (b: int)
    ensures -1 <= b < |cs|
    ensures b >= 0 ==> p(cs[b])
    ensures b < 0 ==> forall i :: 0 <= i < |cs| ==> !p(cs[i])
    ensures b >= 0 ==> LeastLoaded(cs, p, b)
  {
    if cs == [] then -1 else
      var n := |cs| - 1;
      var b := Best(cs[..n], p);
      assert forall i :: 0 <= i < n ==> cs[..n][i] == cs[i];
      if p(cs[n]) && (b < 0 || Before(cs[n], cs[b])) then n else b
  }

  function RetireIfIdle(s: State, i: int): State
    requires 0 <= i < |s.containers|
  {
    var c := s.containers[i];
    if c.phase.Draining? && c.activeJobs == 0 then
      s.(containers := s.containers[i := c.(phase := Retired)])
    else s
  }

  function Drain(s: State, t: int, b: int): State
    requires KnowsTenant(s, t) && 0 <= b < |s.containers|
  {
    s.(containers := s.containers[b := s.containers[b].(phase := Draining)],
       hotReplacements := s.hotReplacements + 1,
       tenants := s.tenants[t := s.tenants[t].(hotReplacements := s.tenants[t].hotReplacements + 1)])
  }

  /** The part of a hot replacement that follows the choice of the retiring container `b`. */
  function Replace(cfg: Config, s: State, t: int, b: int): State
    requires KnowsTenant(s, t) && 0 <= b < |s.containers|
  {
    RetireIfIdle(CreateContainer(Drain(s, t, b), t, s.now + cfg.warmupMs, Some(b)), b)
  }

  function HotReplace(cfg: Config, s0: State, t: int): State
    requires KnowsTenant(s0, t)
  {
    var s := ProcessWarmups(s0);
    var b := Best(s.containers, ActiveOf(t));
    if b < 0 then
      s.(violations := s.violations + [NoActiveContainer(t)])
    else
      Replace(cfg, s, t, b)
  }

  function StartViolations(cfg: Config, c: Container, job: int, t: int, i: int): seq<Violation> {
    (if c.tenant != t then [TenantIsolation(job, t, i)] else []) +
    (if c.activeJobs >= cfg.slots then [CapacityOverflow(job, i)] else [])
  }

  function StartJob(cfg: Config, s: State, job: int, t: int, i: int, d: Draw): State
    requires KnowsTenant(s, t) && 0 <= i < |s.containers|
  {
    var c := s.containers[i];
    var u := s.tenants[t];
    var e := Completion(s.now + d.latencyMs, s.sequence + 1, job, t, i, d.latencyMs, d.failed);
    s.(violations := s.violations + StartViolations(cfg, c, job, t, i),
       containers := s.containers[i := c.(activeJobs := c.activeJobs + 1, acceptedJobs := c.acceptedJobs + 1)],
       tenants := s.tenants[t := u.(started := u.started + 1, inFlight := u.inFlight + 1,
                                    maxInFlight := Max(u.maxInFlight, u.inFlight + 1))],
       inFlight := s.inFlight + 1,
       sequence := s.sequence + 1,
       heap := s.heap + [e])
  }

  predicate Addressable(s: State, e: Completion) {
    0 <= e.container < |s.containers| && KnowsTenant(s, e.tenant)
  }

  function FinishJob(s: State, e: Completion): State
    requires Addressable(s, e)
  {
    var c := s.containers[e.container];
    var u := s.tenants[e.tenant];
    var s' := s.(containers := s.containers[e.container :=
                   c.(activeJobs := c.activeJobs - 1, completedJobs := c.completedJobs + 1)],
                 tenants := s.tenants[e.tenant :=
                   u.(finished := u.finished + 1, inFlight := u.inFlight - 1,
                      failed := u.failed + if e.failed then 1 else 0)],
                 inFlight := s.inFlight - 1,
                 latencies := s.latencies + [e.latencyMs]);
    RetireIfIdle(s', e.container)
  }

  function NextWarmup(cs: seq<Container>, now: int): (r: Option<int>)
    ensures r.None? <==> forall i :: 0 <= i < |cs| ==> !(cs[i].phase.Warming? && cs[i].activeAfter > now)
    ensures r.Some? ==> r.value > now
    ensures r.Some? ==> exists i :: 0 <= i < |cs| && cs[i].phase.Warming? && cs[i].activeAfter == r.value
    ensures r.Some? ==> forall i :: 0 <= i < |cs| && cs[i].phase.Warming? && cs[i].activeAfter > now ==> r.value <= cs[i].activeAfter
  {
    if cs == [] then None else
      var n := |cs| - 1;
      var r := NextWarmup(cs[..n], now);
      assert forall i :: 0 <= i < n ==> cs[..n][i] == cs[i];
      var c := cs[n];
      if c.phase.Warming? && c.activeAfter > now && (r.None? || c.activeAfter < r.value) then
        Some(c.activeAfter)
      else r
  }

  predicate Earlier(a: Completion, b: Completion) {
    a.finishedAt < b.finishedAt || (a.finishedAt == b.finishedAt && a.sequence < b.sequence)
  }

  /** The position of the least completion in the order (finish time, sequence). */
  function Earliest(h: seq<Completion>): (m: int)
    requires h != []
    ensures 0 <= m < |h|
    ensures forall i :: 0 <= i < |h| ==> h[m].finishedAt <= h[i].finishedAt
    ensures forall i :: 0 <= i < |h| && h[m].finishedAt == h[i].finishedAt ==> h[m].sequence <= h[i].sequence
  {
    var n := |h| - 1;
    if n == 0 then 0 else
      var m := Earliest(h[..n]);
      assert forall i :: 0 <= i < n ==> h[..n][i] == h[i];
      if Earlier(h[n], h[m]) then n else m
  }

  function Without<T>(h: seq<T>, i: int): seq<T>
    requires 0 <= i < |h|
  {
    h[..i] + h[i + 1..]
  }

  predicate CompletionIsNext(s: State) {
    s.heap != [] &&
    var w := NextWarmup(s.containers, s.now);
    w.None? || s.heap[Earliest(s.heap)].finishedAt <= w.value
  }

  datatype Stall = NoEventsRemain

  function AdvanceToNextEvent(s: State): Result<State, Stall>
    requires forall e :: e in s.heap ==> Addressable(s, e)
  {
    var w := NextWarmup(s.containers, s.now);
    if w.None? && s.heap == [] then
      Err(NoEventsRemain)
    else if CompletionIsNext(s) then
      var m := Earliest(s.heap);
      var e := s.heap[m];
      assert Addressable(s, e);
      Ok(ProcessWarmups(FinishJob(s.(heap := Without(s.heap, m), now := Max(s.now, e.finishedAt)), e)))
    else
      Ok(ProcessWarmups(s.(now := Max(s.now, w.value))))
  }

  // ---------------------------------------------------------------- the invariant

  ghost predicate Shape(cfg: Config, s: State) {
    |s.tenants| == |s.generations| == cfg.tenants
  }

  ghost predicate ContainerOk(cfg: Config, s: State, i: int)
    requires Shape(cfg, s) && 0 <= i < |s.containers|
  {
    var c := s.containers[i];
    && 0 <= c.tenant < cfg.tenants
    && 1 <= c.generation <= s.generations[c.tenant]
    && c.activeJobs == Count(s.heap, OnContainer(i))
    && c.activeJobs <= cfg.slots
    && c.acceptedJobs == c.activeJobs + c.completedJobs
    && 0 <= c.completedJobs
    && (c.phase.Draining? ==> c.activeJobs >= 1)
    && (c.phase.Warming? ==> c.acceptedJobs == 0)
    && (c.phase.Retired? ==> c.activeJobs == 0)
  }

  ghost predicate ContainersOk(cfg: Config, s: State) {
    Shape(cfg, s) && forall i {:trigger s.containers[i]} :: 0 <= i < |s.containers| ==> ContainerOk(cfg, s, i)
  }

  /** Container names (tenant, generation) are never reused. */
  ghost predicate NamesDistinct(s: State) {
    forall i, j :: 0 <= i < j < |s.containers| ==>
      s.containers[i].tenant != s.containers[j].tenant || s.containers[i].generation != s.containers[j].generation
  }

  ghost predicate EventOk(s: State, e: Completion) {
    && Addressable(s, e)
    && s.containers[e.container].tenant == e.tenant
    && e.finishedAt >= s.now
    && e.sequence <= s.sequence
  }

  ghost predicate HeapOk(s: State) {
    forall e :: e in s.heap ==> EventOk(s, e)
  }

  ghost predicate TenantOk(cfg: Config, s: State, t: int)
    requires Shape(cfg, s) && 0 <= t < cfg.tenants
  {
    var u := s.tenants[t];
    && u.inFlight == Count(s.heap, OfTenant(t))
    && u.started == u.finished + u.inFlight
    && u.inFlight <= u.maxInFlight <= cfg.concurrency
    && 0 <= u.failed <= u.finished
    && u.created == s.generations[t] == cfg.containersPerTenant + u.hotReplacements
  }

  ghost predicate TenantsOk(cfg: Config, s: State) {
    Shape(cfg, s) && forall t :: 0 <= t < cfg.tenants ==> TenantOk(cfg, s, t)
  }

  /** Every tenant keeps exactly its configured number of serving containers. */
  ghost predicate Populated(cfg: Config, s: State) {
    && (forall t :: 0 <= t < cfg.tenants ==> Count(s.containers, Serving(t)) == cfg.containersPerTenant)
    && Count(s.containers, Stopped()) == s.hotReplacements
    && |s.containers| == cfg.tenants * cfg.containersPerTenant + s.hotReplacements
  }

  ghost predicate Inv(cfg: Config, s: State) {
    && ContainersOk(cfg, s)
    && NamesDistinct(s)
    && HeapOk(s)
    && TenantsOk(cfg, s)
    && Populated(cfg, s)
    && s.inFlight == |s.heap| <= cfg.concurrency
    && s.violations == []
  }

  ghost predicate HasActive(s: State, t: int) {
    exists i :: 0 <= i < |s.containers| && ActiveOf(t)(s.containers[i])
  }

  /** What bounds the number of events still to come. */
  ghost function Pending(s: State): nat {
    |s.heap| + Count(s.containers, InPhase(Warming))
  }

  // ---------------------------------------------------------------- containers only move forward

  function Rank(p: Phase): nat {
    match p case Warming => 0 case Active => 1 case Draining => 2 case Retired => 3
  }

  /** The allowed transitions warming -> active -> draining -> retired, with the name fixed. */
  ghost predicate MovesForward(s: State, s': State) {
    && |s.containers| <= |s'.containers|
    && s.now <= s'.now
    && forall i :: 0 <= i < |s.containers| ==>
         && s'.containers[i].tenant == s.containers[i].tenant
         && s'.containers[i].generation == s.containers[i].generation
         && s'.containers[i].replacementOf == s.containers[i].replacementOf
         && Rank(s.containers[i].phase) <= Rank(s'.containers[i].phase)
         && s.containers[i].completedJobs <= s'.containers[i].completedJobs
  }

  /** The phases a container went through: warming -> active -> draining -> retired, none skipped and none
      repeated, from warming or, without a warm-up, from active. */
  ghost predicate Life(p: seq<Phase>) {
    && |p| >= 1 && (p[0].Warming? || p[0].Active?)
    && forall i :: 0 <= i < |p| - 1 ==> Rank(p[i + 1]) == Rank(p[i]) + 1
  }

  ghost predicate LoggedAt(cs: seq<Container>, log: seq<seq<Phase>>, i: int) {
    0 <= i < |cs| && i < |log| ==> Life(log[i]) && log[i][|log[i]| - 1] == cs[i].phase
  }

  /** For every container the phases it was ever assigned, in order. */
  ghost predicate Logged(cs: seq<Container>, log: seq<seq<Phase>>) {
    |log| == |cs| && forall i {:trigger LoggedAt(cs, log, i)} :: LoggedAt(cs, log, i)
  }

  lemma LogNew(cs: seq<Container>, log: seq<seq<Phase>>, c: Container)
    requires Logged(cs, log) && (c.phase.Warming? || c.phase.Active?)
    ensures Logged(cs + [c], log + [[c.phase]])
  {
    forall i ensures LoggedAt(cs + [c], log + [[c.phase]], i) {
      assert LoggedAt(cs, log, i);
    }
  }

  lemma LogMove(cs: seq<Container>, log: seq<seq<Phase>>, k: nat, c: Container)
    requires Logged(cs, log) && k < |cs| && Rank(c.phase) == Rank(cs[k].phase) + 1
    ensures Logged(cs[k := c], log[k := log[k] + [c.phase]])
  {
    var cs', log' := cs[k := c], log[k := log[k] + [c.phase]];
    assert LoggedAt(cs, log, k);
    forall i ensures LoggedAt(cs', log', i) {
      assert LoggedAt(cs, log, i);
    }
  }

  lemma LogStay(cs: seq<Container>, log: seq<seq<Phase>>, k: nat, c: Container)
    requires Logged(cs, log) && k < |cs| && c.phase == cs[k].phase
    ensures Logged(cs[k := c], log)
  {
    var cs' := cs[k := c];
    forall i ensures LoggedAt(cs', log, i) {
      assert LoggedAt(cs, log, i);
    }
  }

  ghost function EndsIn(p: Phase): seq<Phase> -> bool { (l: seq<Phase>) => l != [] && l[|l| - 1] == p }

  lemma {:induction false} LogCounts(cs: seq<Container>, log: seq<seq<Phase>>, p: Phase)
    requires Logged(cs, log)
    ensures Count(log, EndsIn(p)) == Count(cs, InPhase(p))
  {
    if cs != [] {
      var n := |cs| - 1;
      assert LoggedAt(cs, log, n);
      forall i ensures LoggedAt(cs[..n], log[..n], i) {
        assert LoggedAt(cs, log, i);
      }
      LogCounts(cs[..n], log[..n], p);
    }
  }

  /** The numbers of running jobs that a tenant went through, one entry for each start and each finish; the tenant's
      record keeps the last of them and the greatest. */
  ghost predicate Loads(u: TenantStats, load: seq<int>) {
    && |load| == 1 + u.started + u.finished >= 1 && load[0] == 0 && load[|load| - 1] == u.inFlight
    && (forall i :: 0 <= i < |load| - 1 ==> load[i + 1] == load[i] + 1 || load[i + 1] == load[i] - 1)
    && u.maxInFlight in load && forall x :: x in load ==> x <= u.maxInFlight
  }

  ghost predicate LoadedAt(tenants: seq<TenantStats>, loads: seq<seq<int>>, t: int) {
    0 <= t < |tenants| && t < |loads| ==> tenants[t].started >= 0 && tenants[t].finished >= 0 && Loads(tenants[t], loads[t])
  }

  ghost predicate Loaded(tenants: seq<TenantStats>, loads: seq<seq<int>>) {
    |loads| == |tenants| && forall t {:trigger LoadedAt(tenants, loads, t)} :: LoadedAt(tenants, loads, t)
  }

  lemma NothingLoaded(n: nat)
    ensures Loaded(seq(n, _ => TenantStats(0, 0, 0, 0, 0, 0, 0)), seq(n, _ => [0]))
  {
  }

  lemma LoadStays(tenants: seq<TenantStats>, loads: seq<seq<int>>, t: int, u: TenantStats)
    requires Loaded(tenants, loads) && 0 <= t < |tenants|
    requires u == tenants[t].(created := u.created, hotReplacements := u.hotReplacements)
    ensures Loaded(tenants[t := u], loads)
  {
    assert LoadedAt(tenants, loads, t);
    var tenants' := tenants[t := u];
    forall k ensures LoadedAt(tenants', loads, k) {
      assert LoadedAt(tenants, loads, k);
    }
  }

  lemma LoadMoves(tenants: seq<TenantStats>, loads: seq<seq<int>>, t: int, u: TenantStats)
    requires Loaded(tenants, loads) && 0 <= t < |tenants|
    requires var was := tenants[t];
             || (&& u.started == was.started + 1 && u.finished == was.finished && u.inFlight == was.inFlight + 1
                 && u.maxInFlight == Max(was.maxInFlight, u.inFlight))
             || (&& u.started == was.started && u.finished == was.finished + 1 && u.inFlight == was.inFlight - 1
                 && u.maxInFlight == was.maxInFlight)
    ensures Loaded(tenants[t := u], loads[t := loads[t] + [u.inFlight]])
  {
    assert LoadedAt(tenants, loads, t);
    LoadGrows(tenants[t], loads[t], u);
    var tenants', loads' := tenants[t := u], loads[t := loads[t] + [u.inFlight]];
    forall k ensures LoadedAt(tenants', loads', k) {
      assert LoadedAt(tenants, loads, k);
    }
  }

  lemma LoadGrows(was: TenantStats, load: seq<int>, u: TenantStats)
    requires was.started >= 0 && was.finished >= 0 && Loads(was, load)
    requires || (&& u.started == was.started + 1 && u.finished == was.finished && u.inFlight == was.inFlight + 1
                 && u.maxInFlight == Max(was.maxInFlight, u.inFlight))
             || (&& u.started == was.started && u.finished == was.finished + 1 && u.inFlight == was.inFlight - 1
                 && u.maxInFlight == was.maxInFlight)
    ensures Loads(u, load + [u.inFlight])
  {
    var load' := load + [u.inFlight];
    assert was.inFlight in load;
    assert u.inFlight == load'[|load|];
    forall x | x in load' ensures x <= u.maxInFlight {
      assert x in load || x == u.inFlight;
    }
    if u.maxInFlight == was.maxInFlight {
      assert was.maxInFlight in load;
    }
  }

  // ---------------------------------------------------------------- steps keep the invariant

  lemma WarmupsKeepPopulation(cfg: Config, s: State)
    requires Populated(cfg, s)
    ensures Populated(cfg, ProcessWarmups(s))
  {
    var s' := ProcessWarmups(s);
    CountMonotone(s.containers, s'.containers, Stopped(), Stopped());
    forall t | 0 <= t < cfg.tenants
      ensures Count(s'.containers, Serving(t)) == cfg.containersPerTenant
    {
      CountMonotone(s.containers, s'.containers, Serving(t), Serving(t));
    }
  }

  lemma WarmupsKeepInv(cfg: Config, s: State)
    requires Inv(cfg, s)
    ensures Inv(cfg, ProcessWarmups(s))
  {
    var s' := ProcessWarmups(s);
    WarmupsKeepPopulation(cfg, s);
    forall t | 0 <= t < cfg.tenants
      ensures TenantOk(cfg, s', t)
    {
      assert TenantOk(cfg, s, t);
    }
    forall i | 0 <= i < |s'.containers|
      ensures ContainerOk(cfg, s', i)
    {
      assert ContainerOk(cfg, s, i);
    }
    forall e | e in s'.heap
      ensures EventOk(s', e)
    {
      assert EventOk(s, e);
    }
  }

  /** After warm-ups nothing due is still warming; a due container makes the measure drop. */
  lemma WarmupsProgress(s: State)
    ensures var s' := ProcessWarmups(s);
            && Pending(s') <= Pending(s)
            && (forall i :: 0 <= i < |s.containers| && s'.containers[i].phase.Warming? ==> s'.containers[i].activeAfter > s.now)
            && ((exists i :: 0 <= i < |s.containers| && s.containers[i].phase.Warming? && s.containers[i].activeAfter <= s.now)
                ==> Pending(s') < Pending(s))
  {
    var s' := ProcessWarmups(s);
    CountMonotone(s.containers, s'.containers, InPhase(Warming), InPhase(Warming));
    if i :| 0 <= i < |s.containers| && s.containers[i].phase.Warming? && s.containers[i].activeAfter <= s.now {
      assert InPhase(Warming)(s.containers[i]) && !InPhase(Warming)(s'.containers[i]);
    }
  }

  lemma ActiveSurvives(s: State, s': State, t: int)
    requires |s.containers| <= |s'.containers|
    requires forall i :: 0 <= i < |s.containers| && ActiveOf(t)(s.containers[i]) ==> ActiveOf(t)(s'.containers[i])
    requires HasActive(s, t)
    ensures HasActive(s', t)
  {
    var i :| 0 <= i < |s.containers| && ActiveOf(t)(s.containers[i]);
    assert ActiveOf(t)(s'.containers[i]);
  }

  // -- starting a job

  lemma StartKeepsInv(cfg: Config, s: State, job: int, t: int, i: int, d: Draw)
    requires cfg.Valid() && Inv(cfg, s)
    requires 0 <= t < cfg.tenants && 0 <= i < |s.containers| && Free(t, cfg.slots)(s.containers[i])
    requires s.inFlight < cfg.concurrency && d.latencyMs >= 0
    ensures Inv(cfg, StartJob(cfg, s, job, t, i, d))
  {
    var s' := StartJob(cfg, s, job, t, i, d);
    var e := s'.heap[|s.heap|];
    StartKeepsPopulation(cfg, s, job, t, i, d);
    assert ContainerOk(cfg, s, i);
    forall k | 0 <= k < |s'.containers|
      ensures ContainerOk(cfg, s', k)
    {
      CountAppend(s.heap, e, OnContainer(k));
      assert ContainerOk(cfg, s, k);
    }
    forall u | 0 <= u < cfg.tenants
      ensures TenantOk(cfg, s', u)
    {
      CountAppend(s.heap, e, OfTenant(u));
      assert TenantOk(cfg, s, u);
    }
    forall f | f in s'.heap
      ensures EventOk(s', f)
    {
      assert f == e || EventOk(s, f);
    }
  }

  lemma StartKeepsPopulation(cfg: Config, s: State, job: int, t: int, i: int, d: Draw)
    requires Shape(cfg, s) && Populated(cfg, s)
    requires 0 <= t < cfg.tenants && 0 <= i < |s.containers|
    ensures Populated(cfg, StartJob(cfg, s, job, t, i, d))
  {
    var s' := StartJob(cfg, s, job, t, i, d);
    CountUpdate(s.containers, i, s'.containers[i], Stopped());
    forall u | 0 <= u < cfg.tenants
      ensures Count(s'.containers, Serving(u)) == cfg.containersPerTenant
    {
      CountUpdate(s.containers, i, s'.containers[i], Serving(u));
    }
  }

  // -- replacing a container

  lemma CreateCounts(s: State, t: int, activeAfter: int, replacementOf: Option<int>)
    requires KnowsTenant(s, t)
    ensures var cs := CreateContainer(s, t, activeAfter, replacementOf).containers;
            && Count(cs, Stopped()) == Count(s.containers, Stopped())
            && forall u :: Count(cs, Serving(u)) == Count(s.containers, Serving(u)) + if u == t then 1 else 0
  {
    var c := CreateContainer(s, t, activeAfter, replacementOf).containers[|s.containers|];
    CountAppend(s.containers, c, Stopped());
    forall u
      ensures Count(s.containers + [c], Serving(u)) == Count(s.containers, Serving(u)) + if u == t then 1 else 0
    {
      CountAppend(s.containers, c, Serving(u));
    }
  }

  lemma RephaseCounts(cs: seq<Container>, i: int, phase: Phase)
    requires 0 <= i < |cs|
    ensures var cs' := cs[i := cs[i].(phase := phase)];
            && Count(cs', Stopped()) == Count(cs, Stopped())
                 + (if phase.Draining? || phase.Retired? then 1 else 0) - (if Stopped()(cs[i]) then 1 else 0)
            && forall u :: Count(cs', Serving(u)) == Count(cs, Serving(u))
                 + (if cs[i].tenant == u && (phase.Active? || phase.Warming?) then 1 else 0)
                 - (if Serving(u)(cs[i]) then 1 else 0)
  {
    var c := cs[i].(phase := phase);
    CountUpdate(cs, i, c, Stopped());
    forall u
      ensures Count(cs[i := c], Serving(u)) == Count(cs, Serving(u))
                + (if cs[i].tenant == u && (phase.Active? || phase.Warming?) then 1 else 0)
                - (if Serving(u)(cs[i]) then 1 else 0)
    {
      CountUpdate(cs, i, c, Serving(u));
    }
  }

  lemma RetireCounts(s: State, i: int)
    requires 0 <= i < |s.containers|
    ensures var cs := RetireIfIdle(s, i).containers;
            && Count(cs, Stopped()) == Count(s.containers, Stopped())
            && forall u :: Count(cs, Serving(u)) == Count(s.containers, Serving(u))
  {
    RephaseCounts(s.containers, i, Retired);
  }

  lemma ReplaceCount(cfg: Config, s: State, t: int, b: int, p: Container -> bool)
    requires KnowsTenant(s, t) && 0 <= b < |s.containers|
    ensures var cs := Replace(cfg, s, t, b).containers;
            Count(cs, p) == Count(s.containers, p) - (if p(s.containers[b]) then 1 else 0)
              + (if p(cs[b]) then 1 else 0) + (if p(cs[|s.containers|]) then 1 else 0)
  {
    var cs := Replace(cfg, s, t, b).containers;
    var x, n := cs[b], cs[|s.containers|];
    assert cs == s.containers[b := x] + [n];
    CountAppend(s.containers[b := x], n, p);
    CountUpdate(s.containers, b, x, p);
  }

  lemma ReplaceKeepsPopulation(cfg: Config, s: State, t: int, b: int)
    requires Shape(cfg, s) && Populated(cfg, s)
    requires 0 <= t < cfg.tenants && 0 <= b < |s.containers| && ActiveOf(t)(s.containers[b])
    ensures Populated(cfg, Replace(cfg, s, t, b))
  {
    ReplaceCount(cfg, s, t, b, Stopped());
    forall u | 0 <= u < cfg.tenants
      ensures Count(Replace(cfg, s, t, b).containers, Serving(u)) == cfg.containersPerTenant
    {
      ReplaceCount(cfg, s, t, b, Serving(u));
    }
  }

  lemma ReplaceKeepsContainers(cfg: Config, s: State, t: int, b: int)
    requires cfg.Valid() && Inv(cfg, s)
    requires 0 <= t < cfg.tenants && 0 <= b < |s.containers| && ActiveOf(t)(s.containers[b])
    ensures ContainersOk(cfg, Replace(cfg, s, t, b))
    ensures NamesDistinct(Replace(cfg, s, t, b))
  {
    var s' := Replace(cfg, s, t, b);
    forall i | 0 <= i < |s'.containers|
      ensures ContainerOk(cfg, s', i)
    {
      if i < |s.containers| {
        assert ContainerOk(cfg, s, i);
      } else {
        NoEventsFor(s, i);
        assert TenantOk(cfg, s, t);
      }
    }
    forall i, j | 0 <= i < j < |s'.containers|
      ensures s'.containers[i].tenant != s'.containers[j].tenant || s'.containers[i].generation != s'.containers[j].generation
    {
      assert ContainerOk(cfg, s, i);
    }
  }

  lemma NoEventsFor(s: State, i: int)
    requires HeapOk(s) && i >= |s.containers|
    ensures Count(s.heap, OnContainer(i)) == 0
  {
    CountPositive(s.heap, OnContainer(i));
    forall k | 0 <= k < |s.heap|
      ensures !OnContainer(i)(s.heap[k])
    {
      assert s.heap[k] in s.heap;
      assert EventOk(s, s.heap[k]);
    }
  }

  lemma ReplaceKeepsTenants(cfg: Config, s: State, t: int, b: int)
    requires cfg.Valid() && TenantsOk(cfg, s)
    requires 0 <= t < cfg.tenants && 0 <= b < |s.containers|
    ensures TenantsOk(cfg, Replace(cfg, s, t, b))
  {
    var s' := Replace(cfg, s, t, b);
    forall u | 0 <= u < cfg.tenants
      ensures TenantOk(cfg, s', u)
    {
      assert TenantOk(cfg, s, u);
    }
  }

  lemma ReplaceKeepsHeap(cfg: Config, s: State, t: int, b: int)
    requires KnowsTenant(s, t) && 0 <= b < |s.containers| && HeapOk(s)
    ensures HeapOk(Replace(cfg, s, t, b))
  {
    forall e | e in s.heap
      ensures EventOk(Replace(cfg, s, t, b), e)
    {
      assert EventOk(s, e);
    }
  }

  lemma ReplaceKeepsInv(cfg: Config, s: State, t: int, b: int)
    requires cfg.Valid() && Inv(cfg, s)
    requires 0 <= t < cfg.tenants && 0 <= b < |s.containers| && ActiveOf(t)(s.containers[b])
    ensures Inv(cfg, Replace(cfg, s, t, b))
  {
    ReplaceKeepsPopulation(cfg, s, t, b);
    ReplaceKeepsContainers(cfg, s, t, b);
    ReplaceKeepsTenants(cfg, s, t, b);
    ReplaceKeepsHeap(cfg, s, t, b);
  }

  lemma HotReplaceKeepsInv(cfg: Config, s: State, t: int)
    requires cfg.Valid() && Inv(cfg, s)
    requires 0 <= t < cfg.tenants && HasActive(s, t)
    ensures Inv(cfg, HotReplace(cfg, s, t))
    ensures HotReplace(cfg, s, t).hotReplacements == s.hotReplacements + 1
  {
    var w := ProcessWarmups(s);
    WarmupsKeepInv(cfg, s);
    assert HasActive(w, t) by { ActiveSurvives(s, w, t); }
    ReplaceKeepsInv(cfg, w, t, Best(w.containers, ActiveOf(t)));
  }

  /** What a replacement does: the least loaded active container `b` of the tenant stops, at once when it is idle, a new
      one that warms up takes its place, and the others stay as they are. */
  ghost predicate Exchanges(cfg: Config, s: State, cs: seq<Container>, cs': seq<Container>, t: int, b: int)
    requires KnowsTenant(s, t)
  {
    && 0 <= b < |cs| && ActiveOf(t)(cs[b]) && LeastLoaded(cs, ActiveOf(t), b)
    && |cs'| == |cs| + 1
    && cs'[b] == cs[b].(phase := if cs[b].activeJobs == 0 then Retired else Draining)
    && (forall i :: 0 <= i < |cs| && i != b ==> cs'[i] == cs[i])
    && cs'[|cs|] == Container(t, s.generations[t] + 1, if cfg.warmupMs > 0 then Warming else Active,
                              s.now + cfg.warmupMs, s.now, Some(b), 0, 0, 0)
  }

  lemma HotReplaceExchanges(cfg: Config, s: State, t: int)
    requires KnowsTenant(s, t) && HasActive(s, t)
    ensures exists b :: Exchanges(cfg, s, WarmAll(s.containers, s.now), HotReplace(cfg, s, t).containers, t, b)
  {
    var w := ProcessWarmups(s);
    assert HasActive(w, t) by { ActiveSurvives(s, w, t); }
    assert Exchanges(cfg, s, w.containers, HotReplace(cfg, s, t).containers, t, Best(w.containers, ActiveOf(t)));
  }

  // -- finishing a job

  function Pop(s: State, m: int): State
    requires 0 <= m < |s.heap| && Addressable(s, s.heap[m])
  {
    FinishJob(s.(heap := Without(s.heap, m), now := Max(s.now, s.heap[m].finishedAt)), s.heap[m])
  }

  lemma PopKeepsInv(cfg: Config, s: State)
    requires cfg.Valid() && Inv(cfg, s) && s.heap != []
    requires Addressable(s, s.heap[Earliest(s.heap)])
    ensures Inv(cfg, Pop(s, Earliest(s.heap)))
  {
    var m := Earliest(s.heap);
    PopKeepsPopulation(cfg, s, m);
    PopKeepsContainers(cfg, s, m);
    PopKeepsTenants(cfg, s, m);
    PopKeepsHeap(s);
  }

  lemma PopKeepsContainers(cfg: Config, s: State, m: int)
    requires ContainersOk(cfg, s) && NamesDistinct(s) && HeapOk(s) && 0 <= m < |s.heap|
    requires Addressable(s, s.heap[m])
    ensures ContainersOk(cfg, Pop(s, m)) && NamesDistinct(Pop(s, m))
  {
    var s' := Pop(s, m);
    CountRemove(s.heap, m, OnContainer(s.heap[m].container));
    forall k | 0 <= k < |s'.containers|
      ensures ContainerOk(cfg, s', k)
    {
      CountRemove(s.heap, m, OnContainer(k));
      assert ContainerOk(cfg, s, k);
    }
  }

  lemma PopKeepsTenants(cfg: Config, s: State, m: int)
    requires TenantsOk(cfg, s) && 0 <= m < |s.heap| && Addressable(s, s.heap[m])
    ensures TenantsOk(cfg, Pop(s, m))
  {
    var s' := Pop(s, m);
    forall u | 0 <= u < cfg.tenants
      ensures TenantOk(cfg, s', u)
    {
      CountRemove(s.heap, m, OfTenant(u));
      assert TenantOk(cfg, s, u);
    }
  }

  lemma PopKeepsHeap(s: State)
    requires HeapOk(s) && s.heap != []
    requires Addressable(s, s.heap[Earliest(s.heap)])
    ensures HeapOk(Pop(s, Earliest(s.heap)))
  {
    var m := Earliest(s.heap);
    forall f | f in Without(s.heap, m)
      ensures EventOk(Pop(s, m), f)
    {
      var k :| 0 <= k < |s.heap| && s.heap[k] == f;
      assert EventOk(s, f);
    }
  }

  lemma PopKeepsPopulation(cfg: Config, s: State, m: int)
    requires Shape(cfg, s) && Populated(cfg, s)
    requires 0 <= m < |s.heap| && Addressable(s, s.heap[m])
    ensures Populated(cfg, Pop(s, m))
  {
    var e := s.heap[m];
    var c := s.containers[e.container];
    var c' := c.(activeJobs := c.activeJobs - 1, completedJobs := c.completedJobs + 1);
    var cs := s.containers[e.container := c'];
    CountUpdate(s.containers, e.container, c', Stopped());
    forall u
      ensures Count(cs, Serving(u)) == Count(s.containers, Serving(u))
    {
      CountUpdate(s.containers, e.container, c', Serving(u));
    }
    RetireCounts(s.(containers := cs), e.container);
  }

  // -- advancing time

  /** There is always an event to advance to when the scheduler has to wait for one. */
  lemma AdvanceIsEnabled(cfg: Config, s: State, t: int)
    requires cfg.Valid() && Inv(cfg, s) && 0 <= t < cfg.tenants
    requires forall i :: 0 <= i < |s.containers| && s.containers[i].phase.Warming? ==> s.containers[i].activeAfter > s.now
    requires Best(s.containers, Free(t, cfg.slots)) < 0
    ensures s.heap != [] || NextWarmup(s.containers, s.now).Some?
  {
    CountPositive(s.containers, Serving(t));
    var i :| 0 <= i < |s.containers| && Serving(t)(s.containers[i]);
    assert ContainerOk(cfg, s, i);
    assert !Free(t, cfg.slots)(s.containers[i]);
  }

  /** Advancing keeps the invariant and strictly lowers the number of events to come. */
  lemma AdvanceKeepsInv(cfg: Config, s: State)
    requires cfg.Valid() && Inv(cfg, s)
    requires s.heap != [] || NextWarmup(s.containers, s.now).Some?
    ensures AdvanceToNextEvent(s).Ok?
    ensures Inv(cfg, AdvanceToNextEvent(s).value)
    ensures Pending(AdvanceToNextEvent(s).value) < Pending(s)
  {
    if CompletionIsNext(s) {
      var m := Earliest(s.heap);
      assert EventOk(s, s.heap[m]) by { assert s.heap[m] in s.heap; }
      PopKeepsInv(cfg, s);
      WarmupsKeepInv(cfg, Pop(s, m));
      WarmupsProgress(Pop(s, m));
      PopProgress(s, m);
    } else {
      var s1 := s.(now := Max(s.now, NextWarmup(s.containers, s.now).value));
      SkipKeepsInv(cfg, s);
      WarmupsKeepInv(cfg, s1);
      WarmupsProgress(s1);
    }
  }

  /** No container is to become active before this time. */
  ghost predicate QuietUntil(s: State, time: int) {
    forall i :: 0 <= i < |s.containers| && s.containers[i].phase.Warming? && s.containers[i].activeAfter > s.now ==>
      time <= s.containers[i].activeAfter
  }

  /** The completion at `m` is first by time, and among those of its time by number. */
  ghost predicate IsFirst(h: seq<Completion>, m: int) {
    && 0 <= m < |h| && (forall i :: 0 <= i < |h| ==> h[m].finishedAt <= h[i].finishedAt)
    && forall i :: 0 <= i < |h| && h[i].finishedAt == h[m].finishedAt ==> h[m].sequence <= h[i].sequence
  }

  ghost predicate Consumes(s: State, s': State, m: int) {
    && IsFirst(s.heap, m) && s'.now == Max(s.now, s.heap[m].finishedAt) && s'.heap == Without(s.heap, m)
    && s'.latencies == s.latencies + [s.heap[m].latencyMs]
  }

  /** Which event comes next: the first completion, unless some container becomes active strictly before it; otherwise
      time moves to the next moment at which one does, and nothing finishes. */
  lemma AdvanceChooses(s: State)
    requires forall e :: e in s.heap ==> Addressable(s, e)
    requires AdvanceToNextEvent(s).Ok?
    ensures var s' := AdvanceToNextEvent(s).value;
            if exists e :: e in s.heap && QuietUntil(s, e.finishedAt) then exists m :: Consumes(s, s', m)
            else s'.heap == s.heap && s'.latencies == s.latencies && s'.now > s.now && QuietUntil(s, s'.now)
                 && exists i :: 0 <= i < |s.containers| && s.containers[i].phase.Warming? && s.containers[i].activeAfter == s'.now
  {
    var w, s' := NextWarmup(s.containers, s.now), AdvanceToNextEvent(s).value;
    if s.heap != [] {
      var m := Earliest(s.heap);
      assert IsFirst(s.heap, m) && s.heap[m] in s.heap;
      if w.None? || s.heap[m].finishedAt <= w.value {
        assert QuietUntil(s, s.heap[m].finishedAt);
        assert Consumes(s, s', m);
      } else {
        forall e | e in s.heap ensures !QuietUntil(s, e.finishedAt) {
          var i :| 0 <= i < |s.containers| && s.containers[i].phase.Warming? && s.containers[i].activeAfter == w.value;
        }
      }
    }
  }

  lemma PopProgress(s: State, m: int)
    requires 0 <= m < |s.heap| && Addressable(s, s.heap[m])
    ensures Pending(Pop(s, m)) < Pending(s)
  {
    CountMonotone(s.containers, Pop(s, m).containers, InPhase(Warming), InPhase(Warming));
  }

  lemma SkipKeepsInv(cfg: Config, s: State)
    requires cfg.Valid() && Inv(cfg, s)
    requires !CompletionIsNext(s) && NextWarmup(s.containers, s.now).Some?
    ensures Inv(cfg, s.(now := Max(s.now, NextWarmup(s.containers, s.now).value)))
  {
    var s' := s.(now := Max(s.now, NextWarmup(s.containers, s.now).value));
    forall i | 0 <= i < |s'.containers|
      ensures ContainerOk(cfg, s', i)
    {
      assert ContainerOk(cfg, s, i);
    }
    forall t | 0 <= t < cfg.tenants
      ensures TenantOk(cfg, s', t)
    {
      assert TenantOk(cfg, s, t);
    }
    forall e | e in s'.heap
      ensures EventOk(s', e)
    {
      var k :| 0 <= k < |s.heap| && s.heap[k] == e;
      assert EventOk(s, e);
    }
  }

  // ---------------------------------------------------------------- conserved quantities

  function ContainerKey(): Completion -> int { (e: Completion) => e.container }
  function TenantKey(): Completion -> int { (e: Completion) => e.tenant }
  function Running(): Container -> int { (c: Container) => c.activeJobs }
  function InFlightOf(): TenantStats -> int { (u: TenantStats) => u.inFlight }
  function FinishedOf(): TenantStats -> int { (u: TenantStats) => u.finished }
  function FailedOf(): TenantStats -> int { (u: TenantStats) => u.failed }
  function LatencyOf(): Completion -> int { (e: Completion) => e.latencyMs }
  function Fails(): Completion -> bool { (e: Completion) => e.failed }
  function DrawLatency(): Draw -> int { (d: Draw) => d.latencyMs }
  function DrawFails(): Draw -> bool { (d: Draw) => d.failed }

  /** In every reachable state the four ways to count running jobs agree. */
  lemma InFlightAgrees(cfg: Config, s: State)
    requires Inv(cfg, s)
    ensures s.inFlight == |s.heap| == SumBy(s.containers, Running()) == SumBy(s.tenants, InFlightOf())
  {
    var byContainer := Tally(s.heap, ContainerKey(), |s.containers|);
    var byTenant := Tally(s.heap, TenantKey(), |s.tenants|);
    forall e | e in s.heap
      ensures 0 <= ContainerKey()(e) < |s.containers| && 0 <= TenantKey()(e) < |s.tenants|
    {
      assert EventOk(s, e);
    }
    TallyTotal(s.heap, ContainerKey(), |s.containers|);
    TallyTotal(s.heap, TenantKey(), |s.tenants|);
    forall i | 0 <= i < |s.containers|
      ensures Running()(s.containers[i]) == byContainer[i]
    {
      assert ContainerOk(cfg, s, i);
      CountMonotone(s.heap, s.heap, OnContainer(i), KeyIs(ContainerKey(), i));
    }
    SumPointwise(s.containers, byContainer, Running(), Identity());
    forall t | 0 <= t < |s.tenants|
      ensures InFlightOf()(s.tenants[t]) == byTenant[t]
    {
      assert TenantOk(cfg, s, t);
      CountMonotone(s.heap, s.heap, OfTenant(t), KeyIs(TenantKey(), t));
    }
    SumPointwise(s.tenants, byTenant, InFlightOf(), Identity());
  }

  /** What was drawn for the started jobs is either still in the heap or recorded as finished. */
  ghost predicate Balanced(s: State, draws: seq<Draw>) {
    && multiset(s.latencies) + multiset(MapSeq(s.heap, LatencyOf())) == multiset(MapSeq(draws, DrawLatency()))
    && SumBy(s.tenants, FailedOf()) + Count(s.heap, Fails()) == Count(draws, DrawFails())
    && SumBy(s.tenants, FinishedOf()) + |s.heap| == |draws|
  }

  lemma StartBalances(cfg: Config, s: State, job: int, t: int, i: int, d: Draw, draws: seq<Draw>)
    requires KnowsTenant(s, t) && 0 <= i < |s.containers| && Balanced(s, draws)
    ensures Balanced(StartJob(cfg, s, job, t, i, d), draws + [d])
  {
    var s' := StartJob(cfg, s, job, t, i, d);
    var e := s'.heap[|s.heap|];
    assert MapSeq(s'.heap, LatencyOf()) == MapSeq(s.heap, LatencyOf()) + [d.latencyMs];
    assert MapSeq(draws + [d], DrawLatency()) == MapSeq(draws, DrawLatency()) + [d.latencyMs];
    CountAppend(s.heap, e, Fails());
    CountAppend(draws, d, DrawFails());
    SumUpdate(s.tenants, t, s'.tenants[t], FailedOf());
    SumUpdate(s.tenants, t, s'.tenants[t], FinishedOf());
  }

  lemma PopBalances(s: State, m: int, draws: seq<Draw>)
    requires 0 <= m < |s.heap| && Addressable(s, s.heap[m]) && Balanced(s, draws)
    ensures Balanced(Pop(s, m), draws)
  {
    var s' := Pop(s, m);
    var e := s.heap[m];
    var lat := MapSeq(s.heap, LatencyOf());
    assert MapSeq(s'.heap, LatencyOf()) == lat[..m] + lat[m + 1..];
    assert lat == lat[..m] + [lat[m]] + lat[m + 1..];
    CountRemove(s.heap, m, Fails());
    SumUpdate(s.tenants, e.tenant, s'.tenants[e.tenant], FailedOf());
    SumUpdate(s.tenants, e.tenant, s'.tenants[e.tenant], FinishedOf());
  }

  lemma AdvanceBalances(s: State, draws: seq<Draw>)
    requires forall e :: e in s.heap ==> Addressable(s, e)
    requires AdvanceToNextEvent(s).Ok? && Balanced(s, draws)
    ensures Balanced(AdvanceToNextEvent(s).value, draws)
  {
    if CompletionIsNext(s) {
      var m := Earliest(s.heap);
      assert Addressable(s, s.heap[m]);
      PopBalances(s, m, draws);
    }
  }

  // ---------------------------------------------------------------- what waiting leaves alone

  /** Waiting starts no job and replaces nothing; active containers stay active. */
  ghost predicate Waits(s: State, s': State) {
    && s'.hotReplacements == s.hotReplacements && s'.sequence == s.sequence
    && |s'.tenants| == |s.tenants|
    && (forall t :: 0 <= t < |s.tenants| ==>
          s'.tenants[t].started == s.tenants[t].started && s'.tenants[t].hotReplacements == s.tenants[t].hotReplacements)
    && (forall t :: HasActive(s, t) ==> HasActive(s', t))
    && MovesForward(s, s')
  }

  lemma WarmupsWait(s: State)
    ensures Waits(s, ProcessWarmups(s))
  {
    forall t | HasActive(s, t)
      ensures HasActive(ProcessWarmups(s), t)
    {
      ActiveSurvives(s, ProcessWarmups(s), t);
    }
  }

  lemma PopWaits(s: State, m: int)
    requires 0 <= m < |s.heap| && Addressable(s, s.heap[m])
    ensures Waits(s, Pop(s, m))
  {
    forall t | HasActive(s, t)
      ensures HasActive(Pop(s, m), t)
    {
      ActiveSurvives(s, Pop(s, m), t);
    }
  }

  lemma WaitsTransitive(s: State, s': State, s'': State)
    requires Waits(s, s') && Waits(s', s'')
    ensures Waits(s, s'')
  {
  }

  lemma WaitsReflexive(s: State)
    ensures Waits(s, s)
  {
  }

  lemma AdvanceWaits(s: State)
    requires forall e :: e in s.heap ==> Addressable(s, e)
    requires AdvanceToNextEvent(s).Ok?
    ensures Waits(s, AdvanceToNextEvent(s).value)
  {
    if CompletionIsNext(s) {
      var m := Earliest(s.heap);
      assert Addressable(s, s.heap[m]);
      PopWaits(s, m);
      WarmupsWait(Pop(s, m));
      WaitsTransitive(s, Pop(s, m), ProcessWarmups(Pop(s, m)));
    } else {
      var s1 := s.(now := Max(s.now, NextWarmup(s.containers, s.now).value));
      assert Waits(s, s1) by {
        assert forall t :: HasActive(s, t) ==> HasActive(s1, t);
      }
      WarmupsWait(s1);
      WaitsTransitive(s, s1, ProcessWarmups(s1));
    }
  }
}
