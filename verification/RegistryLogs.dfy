/** How the transparency logs of different publications are related over a run. */
module RegistryLogs {
  import opened Prelude
  import opened RegistryTree
  import opened RegistryProtocol
  import opened RegistryRuns

  type Leaves = map<int, Leaf>
  type Keys = set<(Package, string)>

  ghost predicate Same(a: Leaves, b: Leaves, k: int) { k in a && k in b && a[k] == b[k] }

  /** Every leaf of `a` is in `b`, under the same number. */
  ghost predicate Extends(a: Leaves, b: Leaves) {
    forall k {:trigger Same(a, b, k)} :: k in a ==> Same(a, b, k)
  }

  ghost function LogOf(s: State, id: int): Leaves
    requires id in s.publications
  {
    s.publications[id].tree.log.leaves
  }

  // ---------------------------------------------------------------- what a step does to the logs

  ghost predicate NewLog(s: State, s': State, leaves: Leaves) {
    Created(s, s') && LogOf(s', s'.distributions[DEFAULT].current) == leaves
  }

  lemma ReleaseLog(h: Hasher, s: State, tree: Tree, env: Env)
    requires Inv(h, s) && TreeOk(h, tree)
    ensures CreatePublication(h, s.(live := tree), env).Ok?
    ensures var s' := CreatePublication(h, s.(live := tree), env).value;
            NewLog(s, s', tree.log.leaves) && s'.published == s.published
  {
    CreateWorks(h, s, tree, env);
    CopyIsExact(tree);
  }

  ghost function NewLeaf(h: Hasher, s: State, d: Draft, time: string): Leaf {
    Leaf(|s.live.log.leaves| + 1, d.package, d.version, h.record(NewRecord(h, d, time)), h.bytes(d.archive))
  }

  lemma InitializeLog(h: Hasher, tree: Tree, time: string, root: string)
    ensures Initialize(h, tree, time, root).log.leaves == tree.log.leaves
  {
  }

  /** The tree that a publish stages: the live tree with the release, its leaf and fresh metadata. */
  ghost predicate Stages(h: Hasher, s: State, d: Draft, env: Env, staged: Tree) {
    var appended := Append(h, Initialize(h, s.live, env.time, env.root), d, env.time);
    && appended.Ok? && Numbered(appended.value.log.leaves) && staged == Refresh(h, appended.value, env.time)
  }

  lemma StageTree(h: Hasher, s: State, d: Draft, env: Env) returns (staged: Tree)
    requires s.live == EMPTY_TREE || TreeOk(h, s.live)
    requires !HasVersion(RecordsOf(s.live.index, d.package), d.version)
    ensures Stages(h, s, d, env, staged) && TreeOk(h, staged)
  {
    var tree := Initialize(h, s.live, env.time, env.root);
    InitializeWorks(h, s.live, env.time, env.root);
    AppendWorks(h, tree, d, env.time);
    staged := Refresh(h, Append(h, tree, d, env.time).value, env.time);
  }

  lemma StagedLeaves(h: Hasher, s: State, d: Draft, env: Env, staged: Tree)
    requires Stages(h, s, d, env, staged)
    ensures staged.log.leaves == s.live.log.leaves[|s.live.log.leaves| + 1 := NewLeaf(h, s, d, env.time)]
  {
    InitializeLog(h, s.live, env.time, env.root);
  }

  /** A publish appends one leaf to the live log, for a release that was never published before. */
  lemma PublishLog(h: Hasher, s: State, d: Draft, env: Env)
    requires Inv(h, s) && Numbered(s.live.log.leaves) && PublishStep(h, s, d, env).Ok?
    ensures var s' := PublishStep(h, s, d, env).value;
            && NewLog(s, s', s.live.log.leaves[|s.live.log.leaves| + 1 := NewLeaf(h, s, d, env.time)])
            && (d.package, d.version) !in s.published && s'.published == s.published + {(d.package, d.version)}
  {
    InvLive(h, s);
    var staged := StageTree(h, s, d, env);
    StagedLeaves(h, s, d, env, staged);
    PublishUnfolds(h, s, d, env, staged);
    ReleaseLog(h, s, staged, env);
  }

  /** A yank or unyank leaves the log as it is. */
  lemma YankLog(h: Hasher, s: State, p: Package, version: string, yanked: bool, reason: string, env: Env)
    requires Inv(h, s) && Numbered(s.live.log.leaves) && YankStep(h, s, p, version, yanked, reason, env).Ok?
    ensures var s' := YankStep(h, s, p, version, yanked, reason, env).value;
            NewLog(s, s', s.live.log.leaves) && s'.published == s.published
  {
    InvLive(h, s);
    MarkWorks(h, s.live, p, version, yanked, reason, env.time);
    var records := MarkRecords(RecordsOf(s.live.index, p), version, yanked, reason, env.time);
    ReleaseLog(h, s, Refresh(h, s.live.(index := s.live.index[p := records]), env.time), env);
  }

  // ---------------------------------------------------------------- the logs form a tree

  ghost predicate KnownAt(leaves: Leaves, published: Keys, k: int) {
    k in leaves ==> (leaves[k].package, leaves[k].version) in published
  }

  /** Every leaf is of one of the releases. */
  ghost predicate Known(leaves: Leaves, published: Keys) {
    forall k {:trigger KnownAt(leaves, published, k)} :: KnownAt(leaves, published, k)
  }

  ghost predicate Remembered(s: State, ever: Keys, id: int) {
    id in s.publications ==> Known(LogOf(s, id), ever)
  }

  lemma KnownGrows(leaves: Leaves, published: Keys, more: Keys)
    requires Known(leaves, published) && published <= more
    ensures Known(leaves, more)
  {
    forall k ensures KnownAt(leaves, more, k) {
      assert KnownAt(leaves, published, k);
    }
  }

  /** Logs that agree on one leaf agree on all earlier ones. */
  ghost predicate AgreeBelow(a: Leaves, b: Leaves) {
    forall j, k {:trigger Same(a, b, j), Same(a, b, k)} :: 1 <= j <= k && Same(a, b, k) ==> Same(a, b, j)
  }

  ghost predicate Branches(s: State, id: int, id': int) {
    id in s.publications && id' in s.publications ==> AgreeBelow(LogOf(s, id), LogOf(s, id'))
  }

  /** The logs form a tree, and their leaves are of the releases that were ever published. */
  ghost predicate Traced(s: State, ever: Keys) {
    && (forall id {:trigger Remembered(s, ever, id)} :: Remembered(s, ever, id))
    && (forall id, id' {:trigger Branches(s, id, id')} :: Branches(s, id, id'))
  }

  lemma AgreeSymmetric(a: Leaves, b: Leaves)
    requires AgreeBelow(a, b)
    ensures AgreeBelow(b, a)
  {
    forall j, k | 1 <= j <= k && Same(b, a, k) ensures Same(b, a, j) {
      assert Same(a, b, k);
      assert Same(a, b, j);
    }
  }

  lemma AgreeSelf(a: Leaves)
    requires Numbered(a)
    ensures AgreeBelow(a, a)
  {
  }

  /** A new leaf that the other log does not hold changes nothing about where they agree. */
  lemma AgreeAppend(a: Leaves, b: Leaves, n: int, leaf: Leaf)
    requires AgreeBelow(a, b) && n !in a && (n in b ==> b[n] != leaf) && (forall k :: k in a ==> k < n)
    ensures AgreeBelow(a[n := leaf], b)
  {
    var a' := a[n := leaf];
    forall j, k | 1 <= j <= k && Same(a', b, k) ensures Same(a', b, j) {
      assert k != n;
      assert Same(a, b, k);
      assert Same(a, b, j);
    }
  }

  /** The live log and any publication's log are related as two publications are. */
  lemma LiveBranches(h: Hasher, s: State, ever: Keys, id: int)
    requires Inv(h, s) && Traced(s, ever) && id in s.publications
    ensures AgreeBelow(s.live.log.leaves, LogOf(s, id))
  {
    var current := s.distributions[DEFAULT].current;
    assert Branches(s, current, id);
  }

  lemma CreatedKeepsTraced(s: State, s': State, leaves: Leaves, ever: Keys, ever': Keys)
    requires Traced(s, ever) && NewLog(s, s', leaves) && ever <= ever' && Numbered(leaves)
    requires Known(leaves, ever')
    requires forall id :: id in s.publications ==> AgreeBelow(leaves, LogOf(s, id))
    ensures Traced(s', ever')
  {
    var new' := s'.distributions[DEFAULT].current;
    forall id ensures Remembered(s', ever', id) {
      assert Remembered(s, ever, id);
      if id in s.publications {
        KnownGrows(LogOf(s, id), ever, ever');
      }
    }
    forall id, id' ensures Branches(s', id, id') {
      assert Branches(s, id, id');
      if id == new' && id' == new' {
        AgreeSelf(leaves);
      } else if id' == new' && id in s.publications {
        AgreeSymmetric(leaves, LogOf(s, id));
      }
    }
  }

  lemma FreshLeaf(leaves: Leaves, published: Keys, leaf: Leaf, k: int)
    requires Known(leaves, published) && (leaf.package, leaf.version) !in published && k in leaves
    ensures leaves[k] != leaf
  {
    assert KnownAt(leaves, published, k);
  }

  lemma PublishedKnown(live: Leaves, published: Keys, n: int, leaf: Leaf, more: Keys)
    requires Known(live, published) && more == published + {(leaf.package, leaf.version)}
    ensures Known(live[n := leaf], more)
  {
    var made := live[n := leaf];
    forall k ensures KnownAt(made, more, k) {
      assert KnownAt(live, published, k);
    }
  }

  lemma AppendedAgrees(h: Hasher, s: State, ever: Keys, leaf: Leaf, id: int)
    requires Inv(h, s) && Traced(s, ever) && Numbered(s.live.log.leaves) && id in s.publications
    requires (leaf.package, leaf.version) !in ever
    ensures AgreeBelow(s.live.log.leaves[|s.live.log.leaves| + 1 := leaf], LogOf(s, id))
  {
    var n := |s.live.log.leaves| + 1;
    LiveBranches(h, s, ever, id);
    assert Remembered(s, ever, id);
    if n in LogOf(s, id) {
      FreshLeaf(LogOf(s, id), ever, leaf, n);
    }
    AgreeAppend(s.live.log.leaves, LogOf(s, id), n, leaf);
  }

  lemma NumberedAppend(live: Leaves, leaf: Leaf)
    requires Numbered(live) && leaf.sequence == |live| + 1
    ensures Numbered(live[leaf.sequence := leaf])
  {
  }

  lemma NewLeafKeepsTraced(h: Hasher, s: State, s': State, ever: Keys, leaf: Leaf)
    requires Inv(h, s) && Traced(s, ever) && Numbered(s.live.log.leaves) && leaf.sequence == |s.live.log.leaves| + 1
    requires NewLog(s, s', s.live.log.leaves[leaf.sequence := leaf])
    requires (leaf.package, leaf.version) !in ever
    ensures Traced(s', ever + {(leaf.package, leaf.version)})
  {
    var made, ever' := s.live.log.leaves[leaf.sequence := leaf], ever + {(leaf.package, leaf.version)};
    forall id | id in s.publications ensures AgreeBelow(made, LogOf(s, id)) {
      AppendedAgrees(h, s, ever, leaf, id);
    }
    LiveRemembered(h, s, ever);
    PublishedKnown(s.live.log.leaves, ever, leaf.sequence, leaf, ever');
    NumberedAppend(s.live.log.leaves, leaf);
    CreatedKeepsTraced(s, s', made, ever, ever');
  }

  lemma LiveRemembered(h: Hasher, s: State, ever: Keys)
    requires Inv(h, s) && Traced(s, ever)
    ensures Known(s.live.log.leaves, ever)
  {
    if DEFAULT in s.distributions {
      assert Remembered(s, ever, s.distributions[DEFAULT].current);
    }
  }

  lemma PublishKeepsTraced(h: Hasher, s: State, ever: Keys, d: Draft, env: Env)
    requires Inv(h, s) && Traced(s, ever) && Numbered(s.live.log.leaves) && PublishStep(h, s, d, env).Ok?
    requires (d.package, d.version) !in ever
    ensures Traced(PublishStep(h, s, d, env).value, ever + {(d.package, d.version)})
  {
    PublishLog(h, s, d, env);
    NewLeafKeepsTraced(h, s, PublishStep(h, s, d, env).value, ever, NewLeaf(h, s, d, env.time));
  }

  lemma YankKeepsTraced(h: Hasher, s: State, ever: Keys, p: Package, version: string, yanked: bool, reason: string, env: Env)
    requires Inv(h, s) && Traced(s, ever) && Numbered(s.live.log.leaves)
    requires YankStep(h, s, p, version, yanked, reason, env).Ok?
    ensures Traced(YankStep(h, s, p, version, yanked, reason, env).value, ever)
  {
    YankLog(h, s, p, version, yanked, reason, env);
    forall id | id in s.publications ensures AgreeBelow(s.live.log.leaves, LogOf(s, id)) {
      LiveBranches(h, s, ever, id);
    }
    LiveRemembered(h, s, ever);
    CreatedKeepsTraced(s, YankStep(h, s, p, version, yanked, reason, env).value, s.live.log.leaves, ever, ever);
  }

  lemma PointKeepsTraced(s: State, s': State, ever: Keys)
    requires Traced(s, ever) && s'.publications == s.publications
    ensures Traced(s', ever)
  {
    forall id ensures Remembered(s', ever, id) {
      assert Remembered(s, ever, id);
    }
    forall id, id' ensures Branches(s', id, id') {
      assert Branches(s, id, id');
    }
  }

  /** The releases that a call publishes: the one of a publish that is not rejected. */
  ghost function Publishes(h: Hasher, s: State, op: Op): Keys
    requires Numbered(s.live.log.leaves)
  {
    if op.Publish? && Step(h, s, op).Ok? then {(op.draft.package, op.draft.version)} else {}
  }

  lemma MovesKeepTraced(h: Hasher, s: State, ever: Keys, op: Op)
    requires Inv(h, s) && Traced(s, ever) && Numbered(s.live.log.leaves) && !op.Publish? && !op.SetYanked?
    ensures Traced(Next(h, s, op), ever)
  {
    PointKeepsTraced(s, Next(h, s, op), ever);
  }

  lemma PublishingKeepsTraced(h: Hasher, s: State, ever: Keys, op: Op)
    requires Inv(h, s) && Traced(s, ever) && Numbered(s.live.log.leaves) && Publishes(h, s, op) !! ever && op.Publish?
    ensures Traced(Next(h, s, op), ever + Publishes(h, s, op))
  {
    if Step(h, s, op).Ok? {
      PublishKeepsTraced(h, s, ever, op.draft, op.env);
    } else {
      assert ever + {} == ever;
    }
  }

  lemma YankingKeepsTraced(h: Hasher, s: State, ever: Keys, op: Op)
    requires Inv(h, s) && Traced(s, ever) && Numbered(s.live.log.leaves) && op.SetYanked?
    ensures Traced(Next(h, s, op), ever)
  {
    if Step(h, s, op).Ok? {
      YankKeepsTraced(h, s, ever, op.package, op.version, op.yanked, op.reason, op.env);
    }
  }

  lemma StepKeepsTraced(h: Hasher, s: State, ever: Keys, op: Op)
    requires Inv(h, s) && Traced(s, ever) && Numbered(s.live.log.leaves) && Publishes(h, s, op) !! ever
    ensures Traced(Next(h, s, op), ever + Publishes(h, s, op))
  {
    if op.Publish? {
      PublishingKeepsTraced(h, s, ever, op);
    } else {
      if op.SetYanked? {
        YankingKeepsTraced(h, s, ever, op);
      } else {
        MovesKeepTraced(h, s, ever, op);
      }
      assert ever + Publishes(h, s, op) == ever;
    }
  }

  /** Everything published in a run, on whatever branch. */
  ghost function Ever(h: Hasher, ops: seq<Op>): Keys
    requires Inv(h, START)
  {
    if ops == [] then {} else
      var n := |ops| - 1;
      InvLive(h, Run(h, START, ops[..n]));
      Ever(h, ops[..n]) + Publishes(h, Run(h, START, ops[..n]), ops[n])
  }

  /** No release is published twice. */
  ghost predicate NeverRepeats(h: Hasher, ops: seq<Op>)
    requires Inv(h, START)
  {
    if ops == [] then true else
      var n := |ops| - 1;
      InvLive(h, Run(h, START, ops[..n]));
      NeverRepeats(h, ops[..n]) && Publishes(h, Run(h, START, ops[..n]), ops[n]) !! Ever(h, ops[..n])
  }

  lemma StepRemembers(h: Hasher, s: State, op: Op)
    requires Inv(h, s) && Numbered(s.live.log.leaves) && op != Restart
    ensures s.published + Publishes(h, s, op) <= Next(h, s, op).published && Publishes(h, s, op) !! s.published
  {
    if Step(h, s, op).Ok? {
      match op
      case Publish(d, env) => PublishLog(h, s, d, env);
      case SetYanked(p, v, yanked, reason, env) => YankLog(h, s, p, v, yanked, reason, env);
      case _ =>
    }
  }

  /** As long as the control plane is not restarted it remembers everything, so nothing is published twice. */
  lemma {:induction false} UninterruptedNeverRepeats(h: Hasher, ops: seq<Op>)
    requires Inv(h, START) && Restart !in ops
    ensures NeverRepeats(h, ops) && Ever(h, ops) <= Run(h, START, ops).published
  {
    if ops != [] {
      var n := |ops| - 1;
      var before := Run(h, START, ops[..n]);
      UninterruptedNeverRepeats(h, ops[..n]);
      InvLive(h, before);
      StepRemembers(h, before, ops[n]);
    }
  }

  /** After any run, restarts included, in which no release is published twice the logs form a tree. */
  lemma {:induction false} RunTraced(h: Hasher, ops: seq<Op>)
    requires Inv(h, START) && NeverRepeats(h, ops)
    ensures Traced(Run(h, START, ops), Ever(h, ops))
  {
    if ops != [] {
      var n := |ops| - 1;
      var before := Run(h, START, ops[..n]);
      RunTraced(h, ops[..n]);
      InvLive(h, before);
      StepKeepsTraced(h, before, Ever(h, ops[..n]), ops[n]);
    }
  }

  /** After any run: one log extends another exactly when they agree on the last leaf of the shorter. */
  lemma ExtendsExactly(h: Hasher, ops: seq<Op>, id: int, id': int)
    requires Inv(h, START) && NeverRepeats(h, ops)
    requires id in Run(h, START, ops).publications && id' in Run(h, START, ops).publications
    ensures var a, b := LogOf(Run(h, START, ops), id), LogOf(Run(h, START, ops), id');
            Extends(a, b) <==> |a| == 0 || Same(a, b, |a|)
  {
    var s := Run(h, START, ops);
    var a, b := LogOf(s, id), LogOf(s, id');
    RunTraced(h, ops);
    assert Kept(h, s, id) && Branches(s, id, id');
    if |a| > 0 && Same(a, b, |a|) {
      forall k | k in a ensures Same(a, b, k) {
      }
    }
    if Extends(a, b) && |a| > 0 {
      assert |a| in a;
      assert Same(a, b, |a|);
    }
  }

  // ---------------------------------------------------------------- when a log forks

  /** A leaf that a log does not hold, added to another: who extends whom. */
  lemma AppendExtends(live: Leaves, log: Leaves, n: int, leaf: Leaf)
    requires n !in live && (n in log ==> log[n] != leaf)
    ensures Extends(log, live[n := leaf]) <==> Extends(log, live)
    ensures !Extends(live[n := leaf], log)
  {
    var made := live[n := leaf];
    assert !Same(made, log, n);
    if Extends(log, live) {
      forall k | k in log ensures Same(log, made, k) {
        assert Same(log, live, k);
      }
    }
    if Extends(log, made) {
      forall k | k in log ensures Same(log, live, k) {
        assert Same(log, made, k);
      }
    }
  }

  /** A publish makes a log that extends exactly those that the live log extends, and that none extends. */
  lemma PublishExtends(h: Hasher, s: State, ever: Keys, d: Draft, env: Env, id: int)
    requires Inv(h, s) && Traced(s, ever) && Numbered(s.live.log.leaves) && PublishStep(h, s, d, env).Ok?
    requires id in s.publications && (d.package, d.version) !in ever
    ensures var s' := PublishStep(h, s, d, env).value;
            && NewLog(s, s', LogOf(s', s'.distributions[DEFAULT].current))
            && var made := LogOf(s', s'.distributions[DEFAULT].current);
            && (Extends(LogOf(s, id), made) <==> Extends(LogOf(s, id), s.live.log.leaves))
            && !Extends(made, LogOf(s, id))
  {
    var n, leaf := |s.live.log.leaves| + 1, NewLeaf(h, s, d, env.time);
    PublishLog(h, s, d, env);
    assert Remembered(s, ever, id);
    if n in LogOf(s, id) {
      FreshLeaf(LogOf(s, id), ever, leaf, n);
    }
    AppendExtends(s.live.log.leaves, LogOf(s, id), n, leaf);
  }

  ghost predicate MovesLive(op: Op) {
    (op.Promote? || op.Rollback?) && op.distribution == DEFAULT
  }

  /** A promotion or rollback of the default distribution, then a publish: the new log extends the log that was live
      before the move exactly when the publication moved to does, so it forks exactly when the move lost a leaf. */
  lemma MoveForksExactly(h: Hasher, s: State, ever: Keys, op: Op, d: Draft, env: Env)
    requires Inv(h, s) && Traced(s, ever) && (d.package, d.version) !in ever && Numbered(s.live.log.leaves) && DEFAULT in s.distributions
    requires MovesLive(op) && Step(h, s, op).Ok? && Numbered(Step(h, s, op).value.live.log.leaves)
    requires PublishStep(h, Step(h, s, op).value, d, env).Ok?
    ensures var s1 := Step(h, s, op).value; var s2 := PublishStep(h, s1, d, env).value;
            && DEFAULT in s2.distributions && s2.distributions[DEFAULT].current in s2.publications
            && var made := LogOf(s2, s2.distributions[DEFAULT].current);
            && (Extends(s.live.log.leaves, made) <==> Extends(s.live.log.leaves, s1.live.log.leaves))
            && !Extends(made, s.live.log.leaves)
  {
    var s1 := Step(h, s, op).value;
    MoveKeepsPublications(h, s, op);
    PointKeepsTraced(s, s1, ever);
    ForksFrom(h, s.live.log.leaves, s1, PublishStep(h, s1, d, env).value, ever, d, env, s.distributions[DEFAULT].current);
  }

  lemma MoveKeepsPublications(h: Hasher, s: State, op: Op)
    requires Inv(h, s) && Numbered(s.live.log.leaves) && DEFAULT in s.distributions && MovesLive(op) && Step(h, s, op).Ok?
    ensures var s1 := Step(h, s, op).value; Inv(h, s1) && s1.publications == s.publications
    ensures s.distributions[DEFAULT].current in s.publications && s.live.log.leaves == LogOf(s, s.distributions[DEFAULT].current)
  {
    StepKeepsInv(h, s, op);
    assert Pointed(s, DEFAULT);
  }

  /** `live` is the log of some publication. */
  lemma ForksFrom(h: Hasher, live: Leaves, s1: State, s2: State, ever: Keys, d: Draft, env: Env, id: int)
    requires Inv(h, s1) && Traced(s1, ever) && Numbered(s1.live.log.leaves) && (d.package, d.version) !in ever
    requires PublishStep(h, s1, d, env) == Ok(s2) && id in s1.publications && live == LogOf(s1, id)
    ensures DEFAULT in s2.distributions && s2.distributions[DEFAULT].current in s2.publications
    ensures var made := LogOf(s2, s2.distributions[DEFAULT].current);
            (Extends(live, made) <==> Extends(live, s1.live.log.leaves)) && !Extends(made, live)
  {
    PublishExtends(h, s1, ever, d, env, id);
  }

  lemma ExtendsTransitive(a: Leaves, b: Leaves, c: Leaves)
    requires Extends(a, b) && Extends(b, c)
    ensures Extends(a, c)
  {
    forall k | k in a ensures Same(a, c, k) {
      assert Same(a, b, k) && Same(b, c, k);
    }
  }

  lemma AppendedExtends(live: Leaves, n: int, leaf: Leaf)
    requires n !in live
    ensures Extends(live, live[n := leaf])
  {
  }

  /** After a new publication the live log is its log. */
  lemma NewLogIsLive(h: Hasher, s: State, s': State, leaves: Leaves)
    requires NewLog(s, s', leaves) && Inv(h, s')
    ensures s'.live.log.leaves == leaves
  {
  }

  lemma PublishGrowsLog(h: Hasher, s: State, d: Draft, env: Env)
    requires Inv(h, s) && Numbered(s.live.log.leaves) && PublishStep(h, s, d, env).Ok?
    ensures Extends(s.live.log.leaves, PublishStep(h, s, d, env).value.live.log.leaves)
  {
    var n, leaf := |s.live.log.leaves| + 1, NewLeaf(h, s, d, env.time);
    PublishLog(h, s, d, env);
    PublishWorks(h, s, d, env);
    NewLogIsLive(h, s, PublishStep(h, s, d, env).value, s.live.log.leaves[n := leaf]);
    AppendedExtends(s.live.log.leaves, n, leaf);
  }

  lemma YankKeepsLog(h: Hasher, s: State, p: Package, version: string, yanked: bool, reason: string, env: Env)
    requires Inv(h, s) && Numbered(s.live.log.leaves) && YankStep(h, s, p, version, yanked, reason, env).Ok?
    ensures YankStep(h, s, p, version, yanked, reason, env).value.live.log.leaves == s.live.log.leaves
  {
    YankLog(h, s, p, version, yanked, reason, env);
    YankWorks(h, s, p, version, yanked, reason, env);
    NewLogIsLive(h, s, YankStep(h, s, p, version, yanked, reason, env).value, s.live.log.leaves);
  }

  lemma StepGrowsLog(h: Hasher, s: State, op: Op)
    requires Inv(h, s) && Numbered(s.live.log.leaves) && !MovesLive(op)
    ensures Extends(s.live.log.leaves, Next(h, s, op).live.log.leaves)
  {
    if Step(h, s, op).Ok? {
      match op
      case Publish(d, env) => PublishGrowsLog(h, s, d, env);
      case SetYanked(p, v, yanked, reason, env) => YankKeepsLog(h, s, p, v, yanked, reason, env);
      case _ => assert Next(h, s, op).live == s.live;
    }
  }

  /** As long as the default distribution is neither promoted nor rolled back the live log only grows. */
  lemma {:induction false} LogGrows(h: Hasher, s: State, ops: seq<Op>)
    requires Inv(h, s) && forall op :: op in ops ==> !MovesLive(op)
    ensures Extends(s.live.log.leaves, Run(h, s, ops).live.log.leaves)
  {
    if ops != [] {
      var n := |ops| - 1;
      var before := Run(h, s, ops[..n]);
      LogGrows(h, s, ops[..n]);
      InvLive(h, before);
      StepGrowsLog(h, before, ops[n]);
      ExtendsTransitive(s.live.log.leaves, before.live.log.leaves, Run(h, s, ops).live.log.leaves);
    }
  }

  // ---------------------------------------------------------------- checkpoints commit to logs

  ghost predicate LeafInjective(h: Hasher) {
    forall a, b :: h.leaf(a) == h.leaf(b) ==> a == b
  }

  /** After any run, two publications whose checkpoints show one size and one root have the same log. */
  lemma CheckpointsCommit(h: Hasher, ops: seq<Op>, id: int, id': int)
    requires Inv(h, START) && LinkInjective(h) && LeafInjective(h)
    requires id in Run(h, START, ops).publications && id' in Run(h, START, ops).publications
    ensures var a, b := Run(h, START, ops).publications[id].tree.log, Run(h, START, ops).publications[id'].tree.log;
            && a.checkpoint.Some? && b.checkpoint.Some?
            && ((a.checkpoint.value.treeSize == b.checkpoint.value.treeSize && a.checkpoint.value.rootHash == b.checkpoint.value.rootHash)
                <==> a.leaves == b.leaves)
  {
    var s := Run(h, START, ops);
    assert Kept(h, s, id) && Kept(h, s, id');
    CheckpointCommits(h, s.publications[id].tree, s.publications[id'].tree);
  }

  lemma CheckpointCommits(h: Hasher, t: Tree, t': Tree)
    requires LinkInjective(h) && LeafInjective(h) && CheckpointOk(h, t) && CheckpointOk(h, t')
    ensures (t.log.checkpoint.value.treeSize == t'.log.checkpoint.value.treeSize
             && t.log.checkpoint.value.rootHash == t'.log.checkpoint.value.rootHash)
            <==> t.log.leaves == t'.log.leaves
  {
    var a, b := t.log.leaves, t'.log.leaves;
    if t.log.checkpoint.value.treeSize == t'.log.checkpoint.value.treeSize
       && t.log.checkpoint.value.rootHash == t'.log.checkpoint.value.rootHash {
      ChainCommits(h, LeafHashes(h, a), LeafHashes(h, b));
      forall k | k in a ensures k in b && a[k] == b[k] {
        assert LeafHashes(h, a)[k - 1] == LeafHashes(h, b)[k - 1];
      }
      assert a.Keys == b.Keys;
    }
  }
}
