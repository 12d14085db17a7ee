/** What a restart of the control plane costs: when the logs of all publications form a tree, exactly, and a run in which
    they do not. */
module RegistryRestarts {
  import opened Prelude
  import opened RegistryTree
  import opened RegistryProtocol
  import opened RegistryRuns
  import opened RegistryLogs

  /** After a restart a release is accepted exactly when the live tree does not hold it and the database does not know
      it, although it may have been published before and lost by a rollback. */
  lemma RestartForgets(h: Hasher, s: State, d: Draft, env: Env)
    requires Inv(h, s) && Numbered(s.live.log.leaves)
    ensures Publishes(h, Forgotten(s), Publish(d, env)) ==
            if Released(s.live.index, d.package, d.version) || env.releaseInDatabase then {} else {(d.package, d.version)}
  {
    MemoryIsFree(h, s, Forgotten(s));
    PublishWorks(h, Forgotten(s), d, env);
  }

  // ---------------------------------------------------------------- exactly when the logs form a tree

  /** Any two logs that agree on a leaf agree on all earlier ones. */
  ghost predicate Forest(s: State) {
    forall id, id' {:trigger Branches(s, id, id')} :: Branches(s, id, id')
  }

  /** A publication that already holds the very leaf that a publish would add. */
  ghost predicate Repeats(h: Hasher, s: State, d: Draft, time: string, id: int) {
    var n := |s.live.log.leaves| + 1;
    id in s.publications && n in LogOf(s, id) && LogOf(s, id)[n] == NewLeaf(h, s, d, time)
  }

  /** Only a log that extends the live one already holds the leaf. */
  ghost predicate Harmless(h: Hasher, s: State, d: Draft, time: string) {
    forall id {:trigger Repeats(h, s, d, time, id)} :: Repeats(h, s, d, time, id) ==> Extends(s.live.log.leaves, LogOf(s, id))
  }

  /** A leaf added to `a` that `b` already holds keeps them in agreement exactly when `b` extends `a`. */
  lemma AppendAgreesExactly(a: Leaves, b: Leaves, leaf: Leaf)
    requires Numbered(a) && AgreeBelow(a, b)
    ensures var n := |a| + 1;
            AgreeBelow(a[n := leaf], b) <==> (n in b && b[n] == leaf ==> Extends(a, b))
  {
    var n := |a| + 1;
    var a' := a[n := leaf];
    if n in b && b[n] == leaf {
      assert Same(a', b, n);
      if AgreeBelow(a', b) {
        forall k | k in a ensures Same(a, b, k) {
          assert Same(a', b, k);
        }
      }
      if Extends(a, b) {
        forall j, k | 1 <= j <= k && Same(a', b, k) ensures Same(a', b, j) {
          assert j < n ==> Same(a, b, j);
        }
      }
    } else {
      AgreeAppend(a, b, n, leaf);
    }
  }

  lemma CreatedForest(s: State, s': State, leaves: Leaves)
    requires Forest(s) && NewLog(s, s', leaves) && Numbered(leaves)
    ensures Forest(s') <==> forall id :: id in s.publications ==> AgreeBelow(leaves, LogOf(s, id))
  {
    var made := s'.distributions[DEFAULT].current;
    if Forest(s') {
      forall id | id in s.publications ensures AgreeBelow(leaves, LogOf(s, id)) {
        assert Branches(s', made, id);
      }
    }
    if forall id :: id in s.publications ==> AgreeBelow(leaves, LogOf(s, id)) {
      forall id, id' ensures Branches(s', id, id') {
        assert Branches(s, id, id');
        if id == made && id' == made {
          AgreeSelf(leaves);
        } else if id' == made && id in s.publications {
          AgreeSymmetric(leaves, LogOf(s, id));
        }
      }
    }
  }

  lemma LiveAgrees(h: Hasher, s: State, id: int)
    requires Inv(h, s) && Forest(s) && id in s.publications
    ensures AgreeBelow(s.live.log.leaves, LogOf(s, id))
  {
    assert Branches(s, s.distributions[DEFAULT].current, id);
  }

  /** A publish keeps the logs a tree exactly when every log that already holds the new leaf extends the live log. */
  lemma PublishKeepsForestExactly(h: Hasher, s: State, d: Draft, env: Env)
    requires Inv(h, s) && Forest(s) && Numbered(s.live.log.leaves) && PublishStep(h, s, d, env).Ok?
    ensures Forest(PublishStep(h, s, d, env).value) <==> Harmless(h, s, d, env.time)
  {
    var live, leaf := s.live.log.leaves, NewLeaf(h, s, d, env.time);
    PublishLog(h, s, d, env);
    NumberedAppend(live, leaf);
    CreatedForest(s, PublishStep(h, s, d, env).value, live[|live| + 1 := leaf]);
    HarmlessExactly(h, s, d, env.time);
  }

  lemma HarmlessExactly(h: Hasher, s: State, d: Draft, time: string)
    requires Inv(h, s) && Forest(s) && Numbered(s.live.log.leaves)
    ensures var made := s.live.log.leaves[|s.live.log.leaves| + 1 := NewLeaf(h, s, d, time)];
            Harmless(h, s, d, time) <==> forall id :: id in s.publications ==> AgreeBelow(made, LogOf(s, id))
  {
    var made := s.live.log.leaves[|s.live.log.leaves| + 1 := NewLeaf(h, s, d, time)];
    forall id | id in s.publications
      ensures AgreeBelow(made, LogOf(s, id)) <==> (Repeats(h, s, d, time, id) ==> Extends(s.live.log.leaves, LogOf(s, id)))
    {
      RepeatsExactly(h, s, d, time, id);
    }
    if forall id :: id in s.publications ==> AgreeBelow(made, LogOf(s, id)) {
      forall id | Repeats(h, s, d, time, id) ensures Extends(s.live.log.leaves, LogOf(s, id)) {
        assert AgreeBelow(made, LogOf(s, id));
      }
    }
    if Harmless(h, s, d, time) {
      forall id | id in s.publications ensures AgreeBelow(made, LogOf(s, id)) {
        assert Repeats(h, s, d, time, id) ==> Extends(s.live.log.leaves, LogOf(s, id));
      }
    }
  }

  lemma RepeatsExactly(h: Hasher, s: State, d: Draft, time: string, id: int)
    requires Inv(h, s) && Forest(s) && Numbered(s.live.log.leaves) && id in s.publications
    ensures var live := s.live.log.leaves;
            AgreeBelow(live[|live| + 1 := NewLeaf(h, s, d, time)], LogOf(s, id)) <==>
              (Repeats(h, s, d, time, id) ==> Extends(live, LogOf(s, id)))
  {
    LiveAgrees(h, s, id);
    AppendAgreesExactly(s.live.log.leaves, LogOf(s, id), NewLeaf(h, s, d, time));
  }

  lemma YankKeepsForest(h: Hasher, s: State, p: Package, version: string, yanked: bool, reason: string, env: Env)
    requires Inv(h, s) && Forest(s) && Numbered(s.live.log.leaves) && YankStep(h, s, p, version, yanked, reason, env).Ok?
    ensures Forest(YankStep(h, s, p, version, yanked, reason, env).value)
  {
    YankLog(h, s, p, version, yanked, reason, env);
    forall id | id in s.publications ensures AgreeBelow(s.live.log.leaves, LogOf(s, id)) {
      LiveAgrees(h, s, id);
    }
    CreatedForest(s, YankStep(h, s, p, version, yanked, reason, env).value, s.live.log.leaves);
  }

  lemma SameForest(s: State, s': State)
    requires Forest(s) && s'.publications == s.publications
    ensures Forest(s')
  {
    forall id, id' ensures Branches(s', id, id') {
      assert Branches(s, id, id');
    }
  }

  /** Publications stay, so logs that do not form a tree never do again. */
  lemma ForestBefore(s: State, s': State)
    requires Preserves(s, s') && Forest(s')
    ensures Forest(s)
  {
    forall id, id' ensures Branches(s, id, id') {
      assert Branches(s', id, id');
    }
  }

  ghost predicate HarmlessStep(h: Hasher, s: State, op: Op)
    requires Numbered(s.live.log.leaves)
  {
    op.Publish? && Step(h, s, op).Ok? ==> Harmless(h, s, op.draft, op.env.time)
  }

  lemma StepKeepsForestExactly(h: Hasher, s: State, op: Op)
    requires Inv(h, s) && Forest(s) && Numbered(s.live.log.leaves)
    ensures Forest(Next(h, s, op)) <==> HarmlessStep(h, s, op)
  {
    if Step(h, s, op).Ok? {
      match op
      case Publish(d, env) => PublishKeepsForestExactly(h, s, d, env);
      case SetYanked(p, v, yanked, reason, env) => YankKeepsForest(h, s, p, v, yanked, reason, env);
      case _ => SameForest(s, Next(h, s, op));
    }
  }

  /** Every publish of the run was harmless when it was made. */
  ghost predicate HarmlessRun(h: Hasher, ops: seq<Op>)
    requires Inv(h, START)
  {
    if ops == [] then true else
      var n := |ops| - 1;
      InvLive(h, Run(h, START, ops[..n]));
      HarmlessRun(h, ops[..n]) && HarmlessStep(h, Run(h, START, ops[..n]), ops[n])
  }

  /** After any run, restarts included, the logs of all publications form a tree exactly when every publish was
      harmless. */
  lemma {:induction false} RunForestExactly(h: Hasher, ops: seq<Op>)
    requires Inv(h, START)
    ensures Forest(Run(h, START, ops)) <==> HarmlessRun(h, ops)
  {
    if ops != [] {
      var n := |ops| - 1;
      var before := Run(h, START, ops[..n]);
      RunForestExactly(h, ops[..n]);
      InvLive(h, before);
      StepKeepsInv(h, before, ops[n]);
      if Forest(before) {
        StepKeepsForestExactly(h, before, ops[n]);
      } else if Forest(Run(h, START, ops)) {
        ForestBefore(before, Run(h, START, ops));
      }
    }
  }

  // ---------------------------------------------------------------- a run that breaks the tree

  ghost predicate Logs(leaves: Leaves, d: Draft) {
    exists k :: LeafFor(leaves, k, d.package, d.version)
  }

  predicate Different(c: Draft, d: Draft) { c.package != d.package || c.version != d.version }

  ghost function LeafAt(h: Hasher, n: int, d: Draft, time: string): Leaf {
    Leaf(n, d.package, d.version, h.record(NewRecord(h, d, time)), h.bytes(d.archive))
  }

  /** A publish of a release that is neither remembered nor in the live log. */
  lemma PublishFresh(h: Hasher, s: State, d: Draft, env: Env)
    requires Inv(h, s) && Numbered(s.live.log.leaves) && !env.releaseInDatabase
    requires (d.package, d.version) !in s.published && !Logs(s.live.log.leaves, d)
    ensures var s' := Next(h, s, Publish(d, env)); var n := |s.live.log.leaves| + 1;
            && s'.live.log.leaves == s.live.log.leaves[n := LeafAt(h, n, d, env.time)] && DEFAULT in s'.distributions
            && s'.published == s.published + {(d.package, d.version)}
  {
    InvLive(h, s);
    assert !Released(s.live.index, d.package, d.version);
    PublishWorks(h, s, d, env);
    PublishLog(h, s, d, env);
    var s' := PublishStep(h, s, d, env).value;
    NewLogIsLive(h, s, s', s.live.log.leaves[|s.live.log.leaves| + 1 := NewLeaf(h, s, d, env.time)]);
  }

  /** The state after one operation of a run. */
  ghost function After(h: Hasher, s: State, op: Op): (s': State)
    requires Inv(h, s)
    ensures Inv(h, s')
  {
    InvLive(h, s);
    StepKeepsInv(h, s, op);
    Next(h, s, op)
  }

  lemma RunAfter(h: Hasher, s: State, ops: seq<Op>, op: Op)
    requires Inv(h, s)
    ensures Run(h, s, ops + [op]) == After(h, Run(h, s, ops), op)
  {
    assert (ops + [op])[..|ops|] == ops;
  }

  /** The live log is that of the current publication. */
  ghost predicate Saved(s: State) {
    && DEFAULT in s.distributions && s.distributions[DEFAULT].current in s.publications
    && LogOf(s, s.distributions[DEFAULT].current) == s.live.log.leaves
  }

  /** Every publication stays, with its log. */
  ghost predicate LogsStay(s: State, s': State) {
    forall id :: id in s.publications ==> id in s'.publications && LogOf(s', id) == LogOf(s, id)
  }

  lemma AfterPublish(h: Hasher, s: State, d: Draft, env: Env)
    requires Inv(h, s) && !env.releaseInDatabase && (d.package, d.version) !in s.published && !Logs(s.live.log.leaves, d)
    ensures var s' := After(h, s, Publish(d, env)); var n := |s.live.log.leaves| + 1;
            && s'.live.log.leaves == s.live.log.leaves[n := LeafAt(h, n, d, env.time)] && |s'.live.log.leaves| == n
            && Saved(s') && LogsStay(s, s') && s'.published == s.published + {(d.package, d.version)}
  {
    InvLive(h, s);
    PublishFresh(h, s, d, env);
    StepKeepsInv(h, s, Publish(d, env));
  }

  lemma AfterPromote(h: Hasher, s: State, id: int)
    requires Inv(h, s) && id in s.publications
    ensures var s' := After(h, s, Promote(DEFAULT, id));
            s'.live.log.leaves == LogOf(s, id) && LogsStay(s, s') && s'.published == s.published
  {
    InvLive(h, s);
    CopyIsExact(s.publications[id].tree);
  }

  lemma AfterRestart(h: Hasher, s: State)
    requires Inv(h, s)
    ensures After(h, s, Restart) == Forgotten(s)
  {
    InvLive(h, s);
  }

  lemma NotLogged(leaves: Leaves, n: int, leaf: Leaf, x: Draft)
    requires !Logs(leaves, x) && (leaf.package != x.package || leaf.version != x.version)
    ensures !Logs(leaves[n := leaf], x)
  {
    var made := leaves[n := leaf];
    if Logs(made, x) {
      var k :| LeafFor(made, k, x.package, x.version);
      var before := LeafFor(leaves, k, x.package, x.version);
      assert false;
    }
  }

  lemma SplitLogs(s: State, a: int, b: int, n: int)
    requires a in s.publications && b in s.publications && n >= 1
    requires n in LogOf(s, a) && n in LogOf(s, b) && LogOf(s, a)[n] != LogOf(s, b)[n] && Same(LogOf(s, a), LogOf(s, b), n + 1)
    ensures !Forest(s)
  {
    assert !Same(LogOf(s, a), LogOf(s, b), n);
    assert !Branches(s, a, b);
  }

  /** The two leaves that a publish of `c` and one of `x` add. */
  ghost predicate Adds(h: Hasher, log: Leaves, n: int, c: Draft, x: Draft, t1: string, t2: string) {
    n + 1 in log && n + 2 in log && log[n + 1] == LeafAt(h, n + 1, c, t1) && log[n + 2] == LeafAt(h, n + 2, x, t2)
  }

  lemma AfterBoth(h: Hasher, s: State, c: Draft, x: Draft, e1: Env, e2: Env) returns (s': State)
    requires Inv(h, s) && !e1.releaseInDatabase && !e2.releaseInDatabase && Different(c, x)
    requires (c.package, c.version) !in s.published && (x.package, x.version) !in s.published
    requires !Logs(s.live.log.leaves, c) && !Logs(s.live.log.leaves, x)
    ensures s' == After(h, After(h, s, Publish(c, e1)), Publish(x, e2))
    ensures Adds(h, s'.live.log.leaves, |s.live.log.leaves|, c, x, e1.time, e2.time) && Saved(s') && LogsStay(s, s')
  {
    var n := |s.live.log.leaves|;
    AfterPublish(h, s, c, e1);
    var s1 := After(h, s, Publish(c, e1));
    NotLogged(s.live.log.leaves, n + 1, LeafAt(h, n + 1, c, e1.time), x);
    AfterPublish(h, s1, x, e2);
    s' := After(h, s1, Publish(x, e2));
  }

  lemma AfterMove(h: Hasher, s: State, id: int) returns (s': State)
    requires Inv(h, s) && id in s.publications
    ensures s' == After(h, After(h, s, Restart), Promote(DEFAULT, id))
    ensures s'.live.log.leaves == LogOf(s, id) && LogsStay(s, s') && s'.published == {}
  {
    AfterRestart(h, s);
    AfterPromote(h, Forgotten(s), id);
    s' := After(h, Forgotten(s), Promote(DEFAULT, id));
  }

  /** From any state with a publication, for any three new releases: publish two, restart, move the default distribution
      back, publish the third and, with the time at which it was published first, the second again. The logs are no
      tree any more. */
  lemma RestartBreaks(h: Hasher, s: State, c: Draft, x: Draft, d: Draft, e1: Env, e2: Env, e3: Env, e4: Env)
    returns (s1: State, s2: State, s3: State)
    requires Inv(h, s) && Saved(s) && Different(c, x) && Different(d, c) && Different(d, x)
    requires !e1.releaseInDatabase && !e2.releaseInDatabase && !e3.releaseInDatabase && !e4.releaseInDatabase && e4.time == e2.time
    requires (c.package, c.version) !in s.published && (x.package, x.version) !in s.published
    requires !Logs(s.live.log.leaves, c) && !Logs(s.live.log.leaves, x) && !Logs(s.live.log.leaves, d)
    ensures s1 == After(h, After(h, s, Publish(c, e1)), Publish(x, e2))
    ensures s2 == After(h, After(h, s1, Restart), Promote(DEFAULT, s.distributions[DEFAULT].current))
    ensures s3 == After(h, After(h, s2, Publish(d, e3)), Publish(x, e4))
    ensures !Forest(s3)
  {
    var n := |s.live.log.leaves|;
    s1 := AfterBoth(h, s, c, x, e1, e2);
    s2 := AfterMove(h, s1, s.distributions[DEFAULT].current);
    s3 := AfterBoth(h, s2, d, x, e3, e4);
    SplitLogs(s3, s1.distributions[DEFAULT].current, s3.distributions[DEFAULT].current, n + 1);
  }
}
