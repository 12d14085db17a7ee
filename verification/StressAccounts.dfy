/** The accounts of a run: how much compiling and warming up its time was spent on, and whose jobs failed. */
module StressAccounts {
  import opened Prelude
  import opened Arithmetic
  import opened StressModel

  // ---------------------------------------------------------------- sums

  /** Terms that only fall lower the sum, by at least what any one of them falls. */
  lemma {:induction false} SumFalls<T>(s: seq<T>, f: T -> int, g: T -> int, i: nat)
    requires i < |s| && forall x :: x in s ==> g(x) <= f(x)
    ensures SumBy(s, g) <= SumBy(s, f) - (f(s[i]) - g(s[i]))
  {
    var n := |s| - 1;
    if i < n {
      SumFalls(s[..n], f, g, i);
    } else if n > 0 {
      SumFalls(s[..n], f, g, 0);
    }
  }

  lemma SumAppend<T>(s: seq<T>, x: T, f: T -> int)
    ensures SumBy(s + [x], f) == SumBy(s, f) + f(x)
  {
    assert (s + [x])[..|s|] == s;
  }

  // ---------------------------------------------------------------- where the time goes

  /** The compiling still to do for a running job, and the time a warming container still needs. */
  function Remaining(now: int): Completion -> int { (e: Completion) => e.finishedAt - now }
  function Warmth(now: int): Container -> int { (c: Container) => if c.phase.Warming? then c.activeAfter - now else 0 }

  /** The compiling done so far. */
  ghost function Work(s: State, draws: seq<Draw>): int {
    SumBy(draws, DrawLatency()) - SumBy(s.heap, Remaining(s.now))
  }

  /** The warming up done so far. */
  ghost function WarmedUp(cfg: Config, s: State): int {
    cfg.warmupMs * s.hotReplacements - SumBy(s.containers, Warmth(s.now))
  }

  /** No more than `concurrency` jobs compile at a time, and at any time one compiles or some container warms up. */
  ghost predicate Paced(cfg: Config, s: State, draws: seq<Draw>) {
    Work(s, draws) <= cfg.concurrency * s.now && s.now <= Work(s, draws) + WarmedUp(cfg, s)
  }

  /** No job compiles longer than the run lasts. */
  ghost predicate Bounded(s: State) {
    0 <= s.now && (forall l :: l in s.latencies ==> l <= s.now) && (forall e :: e in s.heap ==> e.latencyMs <= e.finishedAt)
  }

  /** Whatever is still warming is not due before `now`. */
  ghost predicate NotDueBefore(s: State, now: int) {
    forall i :: 0 <= i < |s.containers| && s.containers[i].phase.Warming? ==> now <= s.containers[i].activeAfter
  }

  ghost predicate SomeWarming(s: State) {
    exists i :: 0 <= i < |s.containers| && s.containers[i].phase.Warming?
  }

  // ---------------------------------------------------------------- whose jobs failed

  function FailsFor(t: int): Completion -> bool { (e: Completion) => e.tenant == t && e.failed }

  /** The failures drawn for the jobs of tenant `t`, which gets every job whose number leaves remainder `t`. */
  function TenantFailures(draws: seq<Draw>, tenants: int, t: int): nat
    requires tenants > 0
  {
    if draws == [] then 0 else
      var n := |draws| - 1;
      TenantFailures(draws[..n], tenants, t) + if n % tenants == t && draws[n].failed then 1 else 0
  }

  ghost predicate Attributed(s: State, draws: seq<Draw>) {
    |s.tenants| > 0 &&
    forall t :: 0 <= t < |s.tenants| ==>
      s.tenants[t].failed + Count(s.heap, FailsFor(t)) == TenantFailures(draws, |s.tenants|, t)
  }

  ghost predicate Accounted(cfg: Config, s: State, draws: seq<Draw>) {
    Paced(cfg, s, draws) && Bounded(s) && Attributed(s, draws) && NotDueBefore(s, s.now + 1)
  }

  // ---------------------------------------------------------------- time passes

  lemma {:induction false} RemainingFalls(h: seq<Completion>, now: int, now': int)
    ensures SumBy(h, Remaining(now')) == SumBy(h, Remaining(now)) - |h| * (now' - now)
  {
    if h != [] {
      RemainingFalls(h[..|h| - 1], now, now');
      MulNext(|h| - 1, now' - now);
    }
  }

  lemma WarmthFalls(s: State, now: int, now': int)
    requires now <= now'
    ensures SumBy(s.containers, Warmth(now')) <= SumBy(s.containers, Warmth(now)) - if SomeWarming(s) then now' - now else 0
  {
    if s.containers != [] {
      var i := if SomeWarming(s) then var i :| 0 <= i < |s.containers| && s.containers[i].phase.Warming?; i else 0;
      SumFalls(s.containers, Warmth(now), Warmth(now'), i);
    }
  }

  lemma TimePasses(cfg: Config, s: State, draws: seq<Draw>, now': int)
    requires Paced(cfg, s, draws) && s.now <= now' && |s.heap| <= cfg.concurrency && (s.heap != [] || SomeWarming(s))
    ensures Paced(cfg, s.(now := now'), draws)
  {
    var step := now' - s.now;
    RemainingFalls(s.heap, s.now, now');
    WarmthFalls(s, s.now, now');
    PaceStep(cfg.concurrency, s.now, step, |s.heap|);
  }

  lemma PaceStep(limit: int, now: int, step: nat, busy: nat)
    requires busy <= limit
    ensures limit * now + busy * step <= limit * (now + step)
    ensures busy > 0 ==> busy * step >= step
  {
    MulMonotone(busy, limit, step);
    if busy > 0 {
      MulMonotone(1, busy, step);
    }
  }

  lemma WarmupsPaced(cfg: Config, s: State, draws: seq<Draw>)
    requires Paced(cfg, s, draws) && NotDueBefore(s, s.now)
    ensures Paced(cfg, ProcessWarmups(s), draws)
  {
    SumPointwise(s.containers, WarmAll(s.containers, s.now), Warmth(s.now), Warmth(s.now));
  }

  lemma WarmupsAccounted(cfg: Config, s: State, draws: seq<Draw>)
    requires Paced(cfg, s, draws) && Bounded(s) && Attributed(s, draws) && NotDueBefore(s, s.now)
    ensures Accounted(cfg, ProcessWarmups(s), draws)
  {
    WarmupsPaced(cfg, s, draws);
  }

  // ---------------------------------------------------------------- a job finishes

  lemma FinishKeepsWarmth(s: State, e: Completion)
    requires Addressable(s, e)
    ensures SumBy(FinishJob(s, e).containers, Warmth(s.now)) == SumBy(s.containers, Warmth(s.now))
    ensures forall now :: NotDueBefore(s, now) ==> NotDueBefore(FinishJob(s, e), now)
  {
    SumPointwise(s.containers, FinishJob(s, e).containers, Warmth(s.now), Warmth(s.now));
  }

  lemma FinishPaced(cfg: Config, s: State, draws: seq<Draw>, m: nat)
    requires Paced(cfg, s, draws) && m < |s.heap| && Addressable(s, s.heap[m]) && s.heap[m].finishedAt == s.now
    ensures Paced(cfg, FinishJob(s.(heap := Without(s.heap, m)), s.heap[m]), draws)
  {
    SumRemove(s.heap, m, Remaining(s.now));
    FinishKeepsWarmth(s.(heap := Without(s.heap, m)), s.heap[m]);
  }

  lemma FinishAttributed(s: State, draws: seq<Draw>, m: nat)
    requires Attributed(s, draws) && m < |s.heap| && Addressable(s, s.heap[m])
    ensures Attributed(FinishJob(s.(heap := Without(s.heap, m)), s.heap[m]), draws)
  {
    forall t ensures Count(Without(s.heap, m), FailsFor(t)) == Count(s.heap, FailsFor(t)) - if FailsFor(t)(s.heap[m]) then 1 else 0 {
      CountRemove(s.heap, m, FailsFor(t));
    }
  }

  lemma FinishBounded(s: State, m: nat)
    requires Bounded(s) && m < |s.heap| && Addressable(s, s.heap[m]) && s.heap[m].finishedAt == s.now
    ensures Bounded(FinishJob(s.(heap := Without(s.heap, m)), s.heap[m]))
  {
    assert s.heap[m] in s.heap;
  }

  lemma PopIsLate(s: State, m: nat)
    requires m < |s.heap| && Addressable(s, s.heap[m]) && s.heap[m].finishedAt >= s.now
    ensures var late := s.(now := s.heap[m].finishedAt); Pop(s, m) == FinishJob(late.(heap := Without(s.heap, m)), s.heap[m])
  {
  }

  lemma PopAccounted(cfg: Config, s: State, draws: seq<Draw>)
    requires Accounted(cfg, s, draws) && |s.heap| <= cfg.concurrency && CompletionIsNext(s)
    requires var e := s.heap[Earliest(s.heap)]; Addressable(s, e) && e.finishedAt >= s.now
    ensures var p := Pop(s, Earliest(s.heap)); Paced(cfg, p, draws) && Bounded(p) && Attributed(p, draws) && NotDueBefore(p, p.now)
  {
    var m := Earliest(s.heap);
    var late := s.(now := s.heap[m].finishedAt);
    PopIsLate(s, m);
    TimePasses(cfg, s, draws, late.now);
    FinishPaced(cfg, late, draws, m);
    FinishBounded(late, m);
    FinishAttributed(late, draws, m);
    FinishKeepsWarmth(late.(heap := Without(s.heap, m)), s.heap[m]);
  }

  lemma SkipAccounted(cfg: Config, s: State, draws: seq<Draw>)
    requires Accounted(cfg, s, draws) && |s.heap| <= cfg.concurrency && NextWarmup(s.containers, s.now).Some?
    ensures var s' := s.(now := NextWarmup(s.containers, s.now).value);
            Paced(cfg, s', draws) && Bounded(s') && Attributed(s', draws) && NotDueBefore(s', s'.now)
  {
    TimePasses(cfg, s, draws, NextWarmup(s.containers, s.now).value);
  }

  lemma AdvanceAccounted(cfg: Config, s: State, draws: seq<Draw>)
    requires HeapOk(s) && Accounted(cfg, s, draws) && |s.heap| <= cfg.concurrency && AdvanceToNextEvent(s).Ok?
    ensures Accounted(cfg, AdvanceToNextEvent(s).value, draws)
  {
    if CompletionIsNext(s) {
      assert EventOk(s, s.heap[Earliest(s.heap)]);
      PopAccounted(cfg, s, draws);
      WarmupsAccounted(cfg, Pop(s, Earliest(s.heap)), draws);
    } else {
      SkipAccounted(cfg, s, draws);
      WarmupsAccounted(cfg, s.(now := NextWarmup(s.containers, s.now).value), draws);
    }
  }

  // ---------------------------------------------------------------- a job starts

  lemma StartPaced(cfg: Config, s: State, job: int, t: int, i: int, d: Draw, draws: seq<Draw>)
    requires KnowsTenant(s, t) && 0 <= i < |s.containers| && Paced(cfg, s, draws)
    ensures Paced(cfg, StartJob(cfg, s, job, t, i, d), draws + [d])
  {
    var s' := StartJob(cfg, s, job, t, i, d);
    SumAppend(s.heap, s'.heap[|s.heap|], Remaining(s.now));
    SumAppend(draws, d, DrawLatency());
    SumPointwise(s.containers, s'.containers, Warmth(s.now), Warmth(s.now));
  }

  lemma StartAttributed(cfg: Config, s: State, job: int, i: int, d: Draw, draws: seq<Draw>)
    requires Attributed(s, draws) && KnowsTenant(s, |draws| % |s.tenants|) && 0 <= i < |s.containers|
    ensures Attributed(StartJob(cfg, s, job, |draws| % |s.tenants|, i, d), draws + [d])
  {
    var s' := StartJob(cfg, s, job, |draws| % |s.tenants|, i, d);
    assert (draws + [d])[..|draws|] == draws;
    forall t ensures Count(s'.heap, FailsFor(t)) == Count(s.heap, FailsFor(t)) + if FailsFor(t)(s'.heap[|s.heap|]) then 1 else 0 {
      CountAppend(s.heap, s'.heap[|s.heap|], FailsFor(t));
    }
  }

  lemma StartAccounted(cfg: Config, s: State, job: int, i: int, d: Draw, draws: seq<Draw>)
    requires Accounted(cfg, s, draws) && KnowsTenant(s, |draws| % |s.tenants|) && 0 <= i < |s.containers|
    ensures Accounted(cfg, StartJob(cfg, s, job, |draws| % |s.tenants|, i, d), draws + [d])
  {
    StartPaced(cfg, s, job, |draws| % |s.tenants|, i, d, draws);
    StartAttributed(cfg, s, job, i, d, draws);
  }

  // ---------------------------------------------------------------- a container is replaced

  lemma ReplaceWarmth(cfg: Config, s: State, t: int, b: int)
    requires KnowsTenant(s, t) && 0 <= b < |s.containers| && s.containers[b].phase.Active? && cfg.warmupMs >= 0
    ensures SumBy(Replace(cfg, s, t, b).containers, Warmth(s.now)) == SumBy(s.containers, Warmth(s.now)) + cfg.warmupMs
  {
    var cs := Replace(cfg, s, t, b).containers;
    var n := |s.containers|;
    assert cs == cs[..n] + [cs[n]];
    SumAppend(cs[..n], cs[n], Warmth(s.now));
    SumPointwise(s.containers, cs[..n], Warmth(s.now), Warmth(s.now));
  }

  lemma ReplacePaced(cfg: Config, s: State, t: int, b: int, draws: seq<Draw>)
    requires KnowsTenant(s, t) && 0 <= b < |s.containers| && s.containers[b].phase.Active? && cfg.warmupMs >= 0
    requires Paced(cfg, s, draws)
    ensures Paced(cfg, Replace(cfg, s, t, b), draws)
  {
    ReplaceWarmth(cfg, s, t, b);
    MulNext(s.hotReplacements, cfg.warmupMs);
  }

  lemma ReplaceAccounted(cfg: Config, s: State, t: int, b: int, draws: seq<Draw>)
    requires KnowsTenant(s, t) && 0 <= b < |s.containers| && s.containers[b].phase.Active? && cfg.warmupMs >= 0
    requires Accounted(cfg, s, draws)
    ensures Accounted(cfg, Replace(cfg, s, t, b), draws)
  {
    ReplacePaced(cfg, s, t, b, draws);
  }

  lemma HotReplaceAccounted(cfg: Config, s: State, t: int, draws: seq<Draw>)
    requires cfg.Valid() && KnowsTenant(s, t) && HasActive(s, t) && Accounted(cfg, s, draws)
    ensures Accounted(cfg, HotReplace(cfg, s, t), draws)
  {
    var w := ProcessWarmups(s);
    WarmupsAccounted(cfg, s, draws);
    assert HasActive(w, t) by { ActiveSurvives(s, w, t); }
    ReplaceAccounted(cfg, w, t, Best(w.containers, ActiveOf(t)), draws);
  }

  lemma NothingStarted(cfg: Config, s: State)
    requires s.heap == [] && s.now == 0 && s.latencies == [] && s.hotReplacements == 0 && !SomeWarming(s)
    requires |s.tenants| > 0 && forall t :: 0 <= t < |s.tenants| ==> s.tenants[t].failed == 0
    ensures Accounted(cfg, s, [])
  {
    SumZero(s.containers, Warmth(0));
  }

  // ---------------------------------------------------------------- the end of a run

  /** When nothing runs any more the run took at least the compiling time shared out over `concurrency`, and at most all
      the compiling and all the warm-ups one after the other. */
  lemma DrainedPace(cfg: Config, s: State, draws: seq<Draw>)
    requires Accounted(cfg, s, draws) && s.heap == []
    ensures SumBy(draws, DrawLatency()) <= cfg.concurrency * s.now
    ensures s.now <= SumBy(draws, DrawLatency()) + cfg.warmupMs * s.hotReplacements
  {
    WarmthIsPositive(s.containers, s.now);
  }

  lemma {:induction false} WarmthIsPositive(cs: seq<Container>, now: int)
    requires forall i :: 0 <= i < |cs| && cs[i].phase.Warming? ==> now <= cs[i].activeAfter
    ensures SumBy(cs, Warmth(now)) >= 0
  {
    if cs != [] {
      WarmthIsPositive(cs[..|cs| - 1], now);
    }
  }
}
