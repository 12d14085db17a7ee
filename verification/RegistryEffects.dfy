/** What an accepted call leaves behind, field by field: the index, the artifacts, the log, the versions of the metadata
    and the publication that is made. */
module RegistryEffects {
  import opened Prelude
  import opened RegistryTree
  import opened RegistryProtocol
  import opened RegistryRuns
  import opened RegistryLogs
  import opened RegistryMarks

  // ---------------------------------------------------------------- the publication

  ghost predicate ManifestTells(h: Hasher, p: Publication, id: int, time: string) {
    && p.manifest.id == id && p.manifest.generatedAt == time
    && p.manifest.treeSize == |p.tree.log.leaves| && p.manifest.artifactCount == |p.tree.artifacts|
    && p.manifest.indexDigest == h.indexDirectory(p.tree.index) && p.manifest.trustDigest == h.trustDirectory(p.tree.trust)
  }

  /** One new publication: a copy of the new live tree, named in its config, described by its manifest, and pointed at by
      the default distribution, which remembers the one before. */
  ghost predicate MakesPublication(h: Hasher, s: State, s': State, time: string) {
    && DEFAULT in s'.distributions
    && var id := Current(s');
       && (forall k :: k in s.publications ==> k < id)
       && id in s'.publications && s'.publications == s.publications[id := s'.publications[id]]
       && s'.publications[id].tree == s'.live && ManifestTells(h, s'.publications[id], id, time)
       && s'.live.config == Some(Config(time, Some(id)))
       && s'.distributions ==
            s.distributions[DEFAULT := Pointer(id, if DEFAULT in s.distributions then Some(Current(s)) else None)]
  }

  /** The number that the publication takes: the least that is at least 1 and what the database says, and above every
      number on disk and in memory. It is remembered. */
  ghost predicate TakesNumber(s: State, s': State, database: int) {
    && DEFAULT in s'.distributions
    && var id := Current(s');
       && id >= 1 && id >= database && id > s.memorySequence && (forall k :: k in s.publications ==> id > k)
       && (id == 1 || id == database || id == s.memorySequence + 1 || id - 1 in s.publications)
       && s'.memorySequence == id
  }

  lemma ReleasePlane(h: Hasher, s: State, id: int, time: string)
    requires s.live.config.Some? && s.live.trust.root.Some? && forall k :: k in s.publications ==> k < id
    ensures RegistryRuns.Release(h, s, id, time).Ok?
    ensures var s' := RegistryRuns.Release(h, s, id, time).value;
            && s'.live == s.live.(config := Some(Config(time, Some(id)))) && s'.published == s.published
            && MakesPublication(h, s, s', time) && s'.memorySequence == Max(s.memorySequence, id)
  {
    CopyIsExact(s.live);
  }

  lemma CreatedPlane(h: Hasher, s: State, tree: Tree, env: Env)
    requires tree.config.Some? && tree.trust.root.Some?
    ensures CreatePublication(h, s.(live := tree), env).Ok?
    ensures var s' := CreatePublication(h, s.(live := tree), env).value;
            && MakesPublication(h, s, s', env.time) && s'.live == tree.(config := s'.live.config) && s'.published == s.published
            && TakesNumber(s, s', env.databaseSequence)
  {
    var s1 := s.(live := tree);
    var id := PublicationSequence(s1, env.databaseSequence);
    SequenceIsNew(s1, env.databaseSequence);
    ReleasePlane(h, s1, id, env.time);
    LiveIsFree(h, s, s1, RegistryRuns.Release(h, s1, id, env.time).value, env.time);
  }

  lemma LiveIsFree(h: Hasher, s: State, s1: State, s': State, time: string)
    requires MakesPublication(h, s1, s', time) && s1.publications == s.publications && s1.distributions == s.distributions
    ensures MakesPublication(h, s, s', time)
  {
  }

  // ---------------------------------------------------------------- the metadata

  /** A file that is missing is written first, with version 1. */
  ghost function CheckpointVersion(tree: Tree): int {
    if tree.log.checkpoint.Some? then tree.log.checkpoint.value.version else 1
  }

  ghost function SnapshotVersion(tree: Tree): int {
    if tree.trust.snapshot.Some? then tree.trust.snapshot.value.version else 1
  }

  ghost function TimestampVersion(tree: Tree): int {
    if tree.trust.timestamp.Some? then tree.trust.timestamp.value.version else 1
  }

  ghost function TargetsVersion(tree: Tree, ns: string): int {
    if ns in tree.trust.targets then tree.trust.targets[ns].version else 0
  }

  /** Checkpoint, snapshot and timestamp are one version on, the checkpoint is of now, and so is every targets file that
      the index has a namespace for. */
  ghost predicate VersionsAdvance(tree: Tree, tree': Tree, time: string) {
    && tree'.log.checkpoint.Some? && tree'.trust.snapshot.Some? && tree'.trust.timestamp.Some?
    && CheckpointVersion(tree') == CheckpointVersion(tree) + 1 && tree'.log.checkpoint.value.generatedAt == time
    && SnapshotVersion(tree') == SnapshotVersion(tree) + 1 && TimestampVersion(tree') == TimestampVersion(tree) + 1
    && (forall ns :: ns in tree'.trust.targets <==> ns in tree.trust.targets || ns in Namespaces(tree'.index))
    && forall ns :: ns in tree'.trust.targets ==>
         TargetsVersion(tree', ns) == TargetsVersion(tree, ns) + if ns in Namespaces(tree'.index) then 1 else 0
  }

  /** Only the metadata that is renewed changes. */
  ghost predicate Refreshed(tree: Tree, t: Tree, time: string) {
    && VersionsAdvance(tree, t, time) && t.index == tree.index && t.artifacts == tree.artifacts
    && t.log.leaves == tree.log.leaves && t.trust.root == tree.trust.root
  }

  lemma RefreshAdvances(h: Hasher, tree: Tree, time: string)
    requires Numbered(tree.log.leaves) && tree.log.checkpoint.Some? && tree.trust.snapshot.Some? && tree.trust.timestamp.Some?
    ensures Refreshed(tree, Refresh(h, tree, time), time)
  {
    var renewed, t := RenewedTargets(h, tree), Refresh(h, tree, time);
    forall ns | ns in t.trust.targets
      ensures TargetsVersion(t, ns) == TargetsVersion(tree, ns) + if ns in Namespaces(tree.index) then 1 else 0
    {
      assert ns in renewed ==> renewed[ns] == NextTargets(h, tree, ns);
    }
  }

  // ---------------------------------------------------------------- the checkpoint

  ghost function RootOf(h: Hasher, tree: Tree): string {
    if tree.log.checkpoint.Some? then tree.log.checkpoint.value.rootHash else h.zero
  }

  /** The checkpoint links the hash of the newest leaf to the root before. */
  ghost predicate CheckpointExtends(h: Hasher, tree: Tree, tree': Tree) {
    var n := |tree'.log.leaves|;
    && n in tree'.log.leaves && tree'.log.checkpoint.Some? && tree'.log.checkpoint.value.treeSize == n
    && RootOf(h, tree') == h.link(RootOf(h, tree), h.leaf(tree'.log.leaves[n]))
  }

  lemma LogExtends(h: Hasher, tree: Tree, tree': Tree)
    requires CheckpointOk(h, tree) && CheckpointOk(h, tree')
    requires var n := |tree.log.leaves| + 1; n in tree'.log.leaves && tree'.log.leaves == tree.log.leaves[n := tree'.log.leaves[n]]
    ensures CheckpointExtends(h, tree, tree')
  {
    var n := |tree.log.leaves| + 1;
    var was, now := LeafHashes(h, tree.log.leaves), LeafHashes(h, tree'.log.leaves);
    assert now[..|now| - 1] == was && now[|now| - 1] == h.leaf(tree'.log.leaves[n]);
  }

  // ---------------------------------------------------------------- a yank or unyank

  /** Only the records of the release are marked; artifacts and log stay; one publication is made. */
  ghost predicate YankedRight(h: Hasher, s: State, s': State, p: Package, version: string, m: Mark) {
    && OnlyMarked(s.live.index, s'.live.index, p, version, m)
    && s'.live.artifacts == s.live.artifacts && s'.live.log.leaves == s.live.log.leaves
    && VersionsAdvance(s.live, s'.live, m.time) && s'.live.trust.root == s.live.trust.root
    && MakesPublication(h, s, s', m.time) && s'.published == s.published
  }

  lemma MarkIsYank(h: Hasher, s: State, s': State, marked: Tree, staged: Tree, p: Package, version: string, m: Mark)
    requires OnlyMarked(s.live.index, marked.index, p, version, m) && marked == s.live.(index := marked.index)
    requires Refreshed(marked, staged, m.time) && s'.live == staged.(config := s'.live.config)
    requires MakesPublication(h, s, s', m.time) && s'.published == s.published
    ensures YankedRight(h, s, s', p, version, m)
  {
    forall ns ensures TargetsVersion(marked, ns) == TargetsVersion(s.live, ns) && TargetsVersion(s'.live, ns) == TargetsVersion(staged, ns) {
    }
  }

  /** An accepted yank or unyank does exactly this. */
  lemma YankEffect(h: Hasher, s: State, p: Package, version: string, yanked: bool, reason: string, env: Env)
    requires Inv(h, s) && Numbered(s.live.log.leaves) && YankStep(h, s, p, version, yanked, reason, env).Ok?
    ensures YankedRight(h, s, YankStep(h, s, p, version, yanked, reason, env).value, p, version, Mark(yanked, reason, env.time))
    ensures TakesNumber(s, YankStep(h, s, p, version, yanked, reason, env).value, env.databaseSequence)
  {
    InvLive(h, s);
    MarkWorks(h, s.live, p, version, yanked, reason, env.time);
    var marked := s.live.(index := MarkIndex(s.live.index, p, version, yanked, reason, env.time));
    MarkIndexMarks(s.live.index, p, version, yanked, reason, env.time);
    RefreshAdvances(h, marked, env.time);
    var staged := Refresh(h, marked, env.time);
    CreatedPlane(h, s, staged, env);
    var s' := CreatePublication(h, s.(live := staged), env).value;
    YankUnfolds(h, s, p, version, yanked, reason, env);
    MarkIsYank(h, s, s', marked, staged, p, version, Mark(yanked, reason, env.time));
  }

  // ---------------------------------------------------------------- a publish

  /** The record, the artifact and the leaf of a new release. */
  ghost predicate ReleaseAdded(h: Hasher, tree: Tree, tree': Tree, d: Draft, time: string) {
    var was := RecordsOf(tree.index, d.package); var digest := h.bytes(d.archive); var n := |tree.log.leaves| + 1;
    && d.package in tree'.index && |tree'.index[d.package]| == |was| + 1 && was <= tree'.index[d.package]
    && tree'.index.Keys == tree.index.Keys + {d.package}
    && (forall p :: p in tree.index && p != d.package ==> tree'.index[p] == tree.index[p])
    && var r := tree'.index[d.package][|was|];
       && r.package == d.package && r.version == d.version && r.publisher == d.publisher && r.publishedAt == time
       && r.artifact == digest && Unmarked(r)
       && digest in tree'.artifacts && h.bytes(tree'.artifacts[digest]) == digest
       && (digest !in tree.artifacts ==> tree'.artifacts[digest] == d.archive)
       && tree'.artifacts.Keys == tree.artifacts.Keys + {digest}
       && (forall a :: a in tree.artifacts ==> tree'.artifacts[a] == tree.artifacts[a])
       && n in tree'.log.leaves && tree'.log.leaves == tree.log.leaves[n := tree'.log.leaves[n]]
       && var leaf := tree'.log.leaves[n];
          && leaf.sequence == n && leaf.package == d.package && leaf.version == d.version
          && leaf.record == h.record(r) && leaf.artifact == digest
  }

  /** What the call does to the live tree. */
  ghost predicate TreePublished(h: Hasher, tree: Tree, tree': Tree, d: Draft, env: Env) {
    && ReleaseAdded(h, tree, tree', d, env.time)
    && VersionsAdvance(tree, tree', env.time) && CheckpointExtends(h, tree, tree')
    && tree'.trust.root == Some(if tree.trust.root.Some? then tree.trust.root.value else env.root)
  }

  ghost predicate PublishedRight(h: Hasher, s: State, s': State, d: Draft, env: Env) {
    && TreePublished(h, s.live, s'.live, d, env)
    && MakesPublication(h, s, s', env.time) && TakesNumber(s, s', env.databaseSequence)
    && s'.published == s.published + {(d.package, d.version)}
  }

  lemma AppendAdds(h: Hasher, tree: Tree, d: Draft, time: string)
    requires ArtifactsOk(h, tree.artifacts) && Append(h, tree, d, time).Ok?
    ensures ReleaseAdded(h, tree, Append(h, tree, d, time).value, d, time)
  {
  }

  /** The same content, versions and root hash. */
  ghost predicate SameStart(h: Hasher, tree: Tree, t: Tree) {
    && t.index == tree.index && t.artifacts == tree.artifacts && t.log.leaves == tree.log.leaves
    && t.trust.targets == tree.trust.targets && RootOf(h, t) == RootOf(h, tree)
    && CheckpointVersion(t) == CheckpointVersion(tree) && SnapshotVersion(t) == SnapshotVersion(tree)
    && TimestampVersion(t) == TimestampVersion(tree)
  }

  lemma InitializeKeeps(h: Hasher, live: Tree, time: string, root: string)
    requires live == EMPTY_TREE || TreeOk(h, live)
    ensures var t := Initialize(h, live, time, root);
            && SameStart(h, live, t) && TreeOk(h, t) && t.trust.timestamp.Some?
            && t.trust.root == Some(if live.trust.root.Some? then live.trust.root.value else root)
  {
    if live != EMPTY_TREE {
      InitializeIsIdle(h, live, time, root);
    } else {
      InitializeEmpty(h, time, root);
    }
  }

  lemma AppendKeepsMetadata(h: Hasher, tree: Tree, d: Draft, time: string)
    requires Append(h, tree, d, time).Ok?
    ensures var t := Append(h, tree, d, time).value; t.trust == tree.trust && t.log.checkpoint == tree.log.checkpoint
  {
  }

  /** Refreshing after the release was added to a consistent tree. */
  lemma AddedIsPublished(h: Hasher, tree: Tree, added: Tree, tree': Tree, d: Draft, env: Env)
    requires ReleaseAdded(h, tree, added, d, env.time) && added.trust == tree.trust && added.log.checkpoint == tree.log.checkpoint
    requires Refreshed(added, tree', env.time) && CheckpointExtends(h, tree, tree') && tree.trust.root.Some?
    ensures TreePublished(h, tree, tree', d, env)
  {
    forall ns ensures TargetsVersion(added, ns) == TargetsVersion(tree, ns) {
    }
  }

  lemma RefreshedRight(h: Hasher, tree: Tree, added: Tree, tree': Tree, d: Draft, env: Env)
    requires TreeOk(h, tree) && Append(h, tree, d, env.time) == Ok(added) && tree.trust.timestamp.Some?
    requires Numbered(added.log.leaves) && tree' == Refresh(h, added, env.time) && TreeOk(h, tree')
    ensures TreePublished(h, tree, tree', d, env)
  {
    AppendAdds(h, tree, d, env.time);
    AppendKeepsMetadata(h, tree, d, env.time);
    RefreshAdvances(h, added, env.time);
    LogExtends(h, tree, tree');
    AddedIsPublished(h, tree, added, tree', d, env);
  }

  lemma StartsAlike(h: Hasher, tree: Tree, t: Tree, tree': Tree, d: Draft, env: Env)
    requires SameStart(h, tree, t) && TreePublished(h, t, tree', d, env)
    requires t.trust.root == Some(if tree.trust.root.Some? then tree.trust.root.value else env.root)
    ensures TreePublished(h, tree, tree', d, env)
  {
    forall ns ensures TargetsVersion(t, ns) == TargetsVersion(tree, ns) {
    }
  }

  lemma StagedWorks(h: Hasher, live: Tree, d: Draft, time: string, root: string)
    requires (live == EMPTY_TREE || TreeOk(h, live)) && !HasVersion(RecordsOf(live.index, d.package), d.version)
    ensures var appended := Append(h, Initialize(h, live, time, root), d, time);
            appended.Ok? && Numbered(appended.value.log.leaves) && TreeOk(h, Refresh(h, appended.value, time))
  {
    InitializeWorks(h, live, time, root);
    AppendWorks(h, Initialize(h, live, time, root), d, time);
  }

  /** What the staged tree of a publish holds. */
  lemma StagedEffect(h: Hasher, live: Tree, d: Draft, env: Env)
    requires live == EMPTY_TREE || TreeOk(h, live)
    requires var appended := Append(h, Initialize(h, live, env.time, env.root), d, env.time);
             appended.Ok? && Numbered(appended.value.log.leaves) && TreeOk(h, Refresh(h, appended.value, env.time))
    ensures TreePublished(h, live, Refresh(h, Append(h, Initialize(h, live, env.time, env.root), d, env.time).value, env.time), d, env)
  {
    var tree := Initialize(h, live, env.time, env.root);
    InitializeKeeps(h, live, env.time, env.root);
    var added := Append(h, tree, d, env.time).value;
    var staged := Refresh(h, added, env.time);
    RefreshedRight(h, tree, added, staged, d, env);
    StartsAlike(h, live, tree, staged, d, env);
  }

  lemma RememberIsPublished(h: Hasher, s: State, created: State, d: Draft, env: Env)
    requires TreePublished(h, s.live, created.live, d, env) && created.published == s.published
    requires MakesPublication(h, s, created, env.time) && TakesNumber(s, created, env.databaseSequence)
    ensures PublishedRight(h, s, created.(published := created.published + {(d.package, d.version)}), d, env)
  {
  }

  /** Making the publication of a staged tree. */
  lemma StagedIsPublished(h: Hasher, s: State, staged: Tree, created: State, d: Draft, env: Env)
    requires TreePublished(h, s.live, staged, d, env) && staged.config.Some?
    requires Ok(created) == CreatePublication(h, s.(live := staged), env)
    ensures PublishedRight(h, s, created.(published := created.published + {(d.package, d.version)}), d, env)
  {
    CreatedPlane(h, s, staged, env);
    ConfigIsNoContent(h, s.live, staged, created.live, d, env);
    RememberIsPublished(h, s, created, d, env);
  }

  lemma ConfigIsNoContent(h: Hasher, live: Tree, staged: Tree, live': Tree, d: Draft, env: Env)
    requires TreePublished(h, live, staged, d, env) && live' == staged.(config := live'.config)
    ensures TreePublished(h, live, live', d, env)
  {
    forall ns ensures TargetsVersion(live', ns) == TargetsVersion(staged, ns) {
    }
  }

  /** An accepted publish does exactly this. */
  lemma PublishEffect(h: Hasher, s: State, d: Draft, env: Env)
    requires Inv(h, s) && Numbered(s.live.log.leaves) && PublishStep(h, s, d, env).Ok?
    ensures PublishedRight(h, s, PublishStep(h, s, d, env).value, d, env)
  {
    InvLive(h, s);
    StagedWorks(h, s.live, d, env.time, env.root);
    StagedEffect(h, s.live, d, env);
    var staged := Refresh(h, Append(h, Initialize(h, s.live, env.time, env.root), d, env.time).value, env.time);
    PublishUnfolds(h, s, d, env, staged);
    StagedIsPublished(h, s, staged, CreatePublication(h, s.(live := staged), env).value, d, env);
  }

  /** When a publish is accepted, and what it then does. */
  lemma PublishAnswer(h: Hasher, s: State, d: Draft, env: Env)
    requires Inv(h, s) && Numbered(s.live.log.leaves)
    ensures var r := PublishStep(h, s, d, env);
            && (r.Ok? <==> (d.package, d.version) !in s.published && !env.releaseInDatabase
                           && !Released(s.live.index, d.package, d.version))
            && (r.Ok? ==> PublishedRight(h, s, r.value, d, env))
  {
    PublishWorks(h, s, d, env);
    if PublishStep(h, s, d, env).Ok? {
      PublishEffect(h, s, d, env);
    }
  }

  /** When a yank or unyank is accepted, and what it then does. */
  lemma YankAnswer(h: Hasher, s: State, p: Package, version: string, yanked: bool, reason: string, env: Env)
    requires Inv(h, s) && Numbered(s.live.log.leaves)
    ensures var r := YankStep(h, s, p, version, yanked, reason, env);
            && (r.Ok? <==> Released(s.live.index, p, version))
            && (r.Ok? ==> YankedRight(h, s, r.value, p, version, Mark(yanked, reason, env.time))
                          && TakesNumber(s, r.value, env.databaseSequence))
  {
    YankWorks(h, s, p, version, yanked, reason, env);
    if YankStep(h, s, p, version, yanked, reason, env).Ok? {
      YankEffect(h, s, p, version, yanked, reason, env);
    }
  }

  // ---------------------------------------------------------------- moving a distribution

  /** The distribution points at the publication and remembers `previous`; the default one brings its tree back. */
  ghost predicate MovedTo(s: State, s': State, distribution: string, id: int, previous: Option<int>) {
    && id in s.publications && s'.publications == s.publications && s'.published == s.published
    && s'.memorySequence == s.memorySequence
    && s'.distributions == s.distributions[distribution := Pointer(id, previous)]
    && s'.live == if distribution == "default" then s.publications[id].tree else s.live
  }

  lemma PointMoves(s: State, distribution: string, id: int, previous: Option<int>)
    requires id in s.publications
    ensures MovedTo(s, Point(s, distribution, id, previous), distribution, id, previous)
  {
    CopyIsExact(s.publications[id].tree);
  }

  /** A promotion is refused exactly for an unknown publication. */
  lemma PromoteAnswer(s: State, distribution: string, id: int)
    ensures var r := PromoteStep(s, distribution, id);
            && (r.Ok? <==> id in s.publications)
            && (r.Ok? ==> MovedTo(s, r.value, distribution, id,
                  if distribution in s.distributions then Some(s.distributions[distribution].current) else None))
  {
    if id in s.publications {
      PointMoves(s, distribution, id, if distribution in s.distributions then Some(s.distributions[distribution].current) else None);
    }
  }

  /** A rollback is refused exactly when nothing is remembered; otherwise the two ends of the pointer change places. */
  lemma RollbackAnswer(h: Hasher, s: State, distribution: string)
    requires Inv(h, s)
    ensures var r := RollbackStep(s, distribution);
            && (r.Ok? <==> distribution in s.distributions && s.distributions[distribution].previous.Some?)
            && (r.Ok? ==> MovedTo(s, r.value, distribution, s.distributions[distribution].previous.value,
                                  Some(s.distributions[distribution].current)))
  {
    assert Pointed(s, distribution);
    if distribution in s.distributions && s.distributions[distribution].previous.Some? {
      PointMoves(s, distribution, s.distributions[distribution].previous.value, Some(s.distributions[distribution].current));
    }
  }
}
