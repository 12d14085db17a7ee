/** Runs of the registry: publish, yank, unyank, promote and rollback in any order. */
module RegistryRuns {
  import opened Prelude
  import opened RegistryTree
  import opened RegistryProtocol

  datatype Manifest = Manifest(
    id: int, generatedAt: string, treeSize: int, indexDigest: string, trustDigest: string, artifactCount: int)

  datatype Publication = Publication(tree: Tree, manifest: Manifest)

  datatype Pointer = Pointer(current: int, previous: Option<int>)

  /** The registry root on disk and what the control plane remembers in memory. */
  datatype State = State(
    live: Tree, publications: map<int, Publication>, distributions: map<string, Pointer>,
    published: set<(Package, string)>, memorySequence: int)

  const DEFAULT := "default"

  /** Answers of the database and the clock during one call; nothing is assumed about them. */
  datatype Env = Env(time: string, root: string, releaseInDatabase: bool, databaseSequence: int)

  datatype Op =
    | Publish(draft: Draft, env: Env)
    | SetYanked(package: Package, version: string, yanked: bool, reason: string, env: Env)
    | Promote(distribution: string, publication: int)
    | Rollback(distribution: string)
    | Restart

  // ---------------------------------------------------------------- publication numbers

  /** One more than the largest number in use, and at least 1. */
  ghost predicate IsNext(keys: set<int>, n: int) {
    n >= 1 && (forall k :: k in keys ==> k < n) && (n == 1 || n - 1 in keys)
  }

  lemma NextWith(keys: set<int>, n: int, x: int)
    requires IsNext(keys, n)
    ensures IsNext(keys + {x}, Max(n, x + 1))
  {
    forall k | k in keys + {x}
      ensures k < Max(n, x + 1)
    {
      assert k == x || k in keys;
    }
  }

  lemma {:induction false} NextExists(keys: set<int>)
    ensures exists n :: IsNext(keys, n)
    decreases |keys|
  {
    if keys == {} {
      assert IsNext(keys, 1);
    } else {
      SomeInt(keys);
      var x: int :| x in keys;
      NextExists(keys - {x});
      var n :| IsNext(keys - {x}, n);
      NextWith(keys - {x}, n, x);
      assert keys - {x} + {x} == keys;
    }
  }

  ghost function NextOnDisk(keys: set<int>): (n: int)
    ensures IsNext(keys, n)
  {
    NextExists(keys);
    var n :| IsNext(keys, n);
    n
  }

  ghost function PublicationSequence(s: State, databaseSequence: int): int {
    Max(Max(NextOnDisk(s.publications.Keys), s.memorySequence + 1), databaseSequence)
  }

  // ---------------------------------------------------------------- the operations

  function Describe(h: Hasher, tree: Tree, id: int, time: string): Manifest {
    Manifest(id, time, |tree.log.leaves|, h.indexDirectory(tree.index), h.trustDirectory(tree.trust), |tree.artifacts|)
  }

  /** Copies the live tree into a new publication `id` and points the default distribution at it. */
  function Release(h: Hasher, s: State, id: int, time: string): Result<State, Rejection> {
    var tree := CopyPlane(s.live, EMPTY_TREE).(config := Some(Config(time, Some(id))));
    if tree.config.None? || tree.trust.root.None? then Err(VerificationFailed)
    else if id in s.publications then Err(PublicationExists)
    else
      var previous := if DEFAULT in s.distributions then Some(s.distributions[DEFAULT].current) else None;
      Ok(s.(live := s.live.(config := tree.config),
            publications := s.publications[id := Publication(tree, Describe(h, tree, id, time))],
            distributions := s.distributions[DEFAULT := Pointer(id, previous)],
            memorySequence := Max(s.memorySequence, id)))
  }

  ghost function CreatePublication(h: Hasher, s: State, env: Env): Result<State, Rejection> {
    Release(h, s, PublicationSequence(s, env.databaseSequence), env.time)
  }

  ghost function PublishStep(h: Hasher, s: State, d: Draft, env: Env): Result<State, Rejection>
    requires Numbered(s.live.log.leaves)
  {
    if (d.package, d.version) in s.published || env.releaseInDatabase || HasVersion(RecordsOf(s.live.index, d.package), d.version) then
      Err(Duplicate)
    else
      var appended := Append(h, Initialize(h, s.live, env.time, env.root), d, env.time);
      if appended.Err? then Err(appended.error)
      else
        AppendKeepsLeaves(h, Initialize(h, s.live, env.time, env.root), d, env.time);
        var created := CreatePublication(h, s.(live := Refresh(h, appended.value, env.time)), env);
        if created.Err? then created
        else Ok(created.value.(published := created.value.published + {(d.package, d.version)}))
  }

  ghost function YankStep(h: Hasher, s: State, p: Package, version: string, yanked: bool, reason: string, env: Env)
    : Result<State, Rejection>
    requires Numbered(s.live.log.leaves)
  {
    var records := RecordsOf(s.live.index, p);
    if !HasVersion(records, version) then Err(ReleaseNotFound)
    else
      var marked := s.live.(index := s.live.index[p := MarkRecords(records, version, yanked, reason, env.time)]);
      CreatePublication(h, s.(live := Refresh(h, marked, env.time)), env)
  }

  /** Points a distribution at a publication; the default distribution also replaces the live tree. */
  function Point(s: State, distribution: string, id: int, previous: Option<int>): State
    requires id in s.publications
  {
    s.(live := if distribution == DEFAULT then CopyPlane(s.publications[id].tree, EMPTY_TREE) else s.live,
       distributions := s.distributions[distribution := Pointer(id, previous)])
  }

  function PromoteStep(s: State, distribution: string, id: int): Result<State, Rejection> {
    if id !in s.publications then Err(PublicationNotFound)
    else
      Ok(Point(s, distribution, id,
               if distribution in s.distributions then Some(s.distributions[distribution].current) else None))
  }

  function RollbackStep(s: State, distribution: string): Result<State, Rejection> {
    if distribution !in s.distributions || s.distributions[distribution].previous.None? then Err(NoPreviousPublication)
    else
      var pointer := s.distributions[distribution];
      if pointer.previous.value !in s.publications then Err(PublicationNotFound)
      else Ok(Point(s, distribution, pointer.previous.value, Some(pointer.current)))
  }

  ghost function Step(h: Hasher, s: State, op: Op): Result<State, Rejection>
    requires Numbered(s.live.log.leaves)
  {
    match op
    case Publish(d, env) => PublishStep(h, s, d, env)
    case SetYanked(p, v, yanked, reason, env) => YankStep(h, s, p, v, yanked, reason, env)
    case Promote(distribution, id) => PromoteStep(s, distribution, id)
    case Rollback(distribution) => RollbackStep(s, distribution)
    case Restart => Ok(Forgotten(s))
  }

  /** A restart of the control plane: what is on disk stays, what was remembered in memory is lost. */
  function Forgotten(s: State): State { s.(published := {}, memorySequence := 0) }

  /** A rejected operation leaves everything as it was. */
  ghost function Next(h: Hasher, s: State, op: Op): State
    requires Numbered(s.live.log.leaves)
  {
    var r := Step(h, s, op);
    if r.Ok? then r.value else s
  }

  // ---------------------------------------------------------------- the invariant

  ghost predicate PublicationOk(h: Hasher, id: int, p: Publication) {
    && TreeOk(h, p.tree)
    && p.tree.config.Some? && p.tree.config.value.publication == Some(id)
    && p.manifest == Describe(h, p.tree, id, p.manifest.generatedAt)
  }

  ghost predicate PointerOk(s: State, p: Pointer) {
    p.current in s.publications && (p.previous.Some? ==> p.previous.value in s.publications)
  }

  /** The live read plane is the publication named by the default pointer. */
  ghost predicate LiveOk(s: State) {
    if DEFAULT in s.distributions then
      s.distributions[DEFAULT].current in s.publications && s.live == s.publications[s.distributions[DEFAULT].current].tree
    else
      s.live == EMPTY_TREE && s.publications == map[]
  }

  ghost predicate Kept(h: Hasher, s: State, id: int) {
    id in s.publications ==> PublicationOk(h, id, s.publications[id])
  }

  ghost predicate Pointed(s: State, d: string) {
    d in s.distributions ==> PointerOk(s, s.distributions[d])
  }

  ghost predicate AllKept(h: Hasher, s: State) {
    forall id {:trigger Kept(h, s, id)} :: Kept(h, s, id)
  }

  ghost predicate AllPointed(s: State) {
    forall d {:trigger Pointed(s, d)} :: Pointed(s, d)
  }

  /** All publications are consistent, all pointers name publications, and the live tree is current. */
  ghost predicate Inv(h: Hasher, s: State) {
    AllKept(h, s) && AllPointed(s) && LiveOk(s)
  }

  const START := State(EMPTY_TREE, map[], map[], {}, 0)

  lemma StartInv(h: Hasher)
    ensures Inv(h, START)
  {
  }

  lemma InvLive(h: Hasher, s: State)
    requires Inv(h, s)
    ensures Numbered(s.live.log.leaves)
    ensures s.live == EMPTY_TREE || TreeOk(h, s.live)
  {
    if DEFAULT in s.distributions {
      var id := s.distributions[DEFAULT].current;
      assert Kept(h, s, id);
    }
  }

  // ---------------------------------------------------------------- publications

  /** What making the publication `id` out of a consistent live tree achieves. */
  lemma ReleaseWorks(h: Hasher, s: State, id: int, time: string)
    requires TreeOk(h, s.live) && id !in s.publications
    requires AllKept(h, s) && AllPointed(s)
    ensures Release(h, s, id, time).Ok?
    ensures Inv(h, Release(h, s, id, time).value)
    ensures var s' := Release(h, s, id, time).value;
            && s'.publications == s.publications[id := s'.publications[id]]
            && s'.live == s.live.(config := Some(Config(time, Some(id))))
            && s'.distributions == s.distributions[DEFAULT :=
                 Pointer(id, if DEFAULT in s.distributions then Some(s.distributions[DEFAULT].current) else None)]
  {
    CopyIsExact(s.live);
    var tree := s.live.(config := Some(Config(time, Some(id))));
    assert TreeOk(h, tree);
    var s' := Release(h, s, id, time).value;
    forall k
      ensures Kept(h, s', k)
    {
      assert Kept(h, s, k);
    }
    forall d
      ensures Pointed(s', d)
    {
      assert Pointed(s, d) && Pointed(s, DEFAULT);
    }
  }

  /** The number is new, whatever the database answers: an existing publication is never met. */
  lemma SequenceIsNew(s: State, databaseSequence: int)
    ensures var n := PublicationSequence(s, databaseSequence);
            && n !in s.publications && (forall k :: k in s.publications ==> k < n) && n >= 1
  {
  }

  // ---------------------------------------------------------------- every operation

  lemma NamespacesGrow(index: map<Package, seq<Record>>, p: Package, records: seq<Record>)
    ensures Namespaces(index[p := records]) == Namespaces(index) + {p.namespace}
  {
    var index' := index[p := records];
    forall ns
      ensures ns in Namespaces(index') <==> ns in Namespaces(index) || ns == p.namespace
    {
      if ns in Namespaces(index) {
        var q :| q in index && q.namespace == ns;
        assert q in index';
      }
      assert p in index';
    }
  }

  lemma InitializeWorks(h: Hasher, live: Tree, time: string, root: string)
    requires live == EMPTY_TREE || TreeOk(h, live)
    ensures TreeOk(h, Initialize(h, live, time, root)) && Initialize(h, live, time, root).index == live.index
  {
    if live == EMPTY_TREE {
      InitializeEmpty(h, time, root);
    } else {
      InitializeIsIdle(h, live, time, root);
    }
  }

  /** Neither failure of the append can happen on a consistent tree without that release. */
  lemma AppendWorks(h: Hasher, tree: Tree, d: Draft, time: string)
    requires TreeOk(h, tree) && !HasVersion(RecordsOf(tree.index, d.package), d.version)
    ensures Append(h, tree, d, time).Ok?
    ensures var t := Append(h, tree, d, time).value; Numbered(t.log.leaves) && TreeOk(h, Refresh(h, t, time))
  {
    AppendKeepsContent(h, tree, d, time);
    var t := Append(h, tree, d, time).value;
    NamespacesGrow(tree.index, d.package, t.index[d.package]);
    RefreshMakesTree(h, t, time);
  }

  lemma CreateWorks(h: Hasher, s: State, tree: Tree, env: Env)
    requires Inv(h, s) && TreeOk(h, tree)
    ensures CreatePublication(h, s.(live := tree), env).Ok?
    ensures Inv(h, CreatePublication(h, s.(live := tree), env).value)
    ensures Created(s, CreatePublication(h, s.(live := tree), env).value)
  {
    var s1 := s.(live := tree);
    forall id
      ensures Kept(h, s1, id)
    {
      assert Kept(h, s, id);
    }
    forall d
      ensures Pointed(s1, d)
    {
      assert Pointed(s, d);
    }
    SequenceIsNew(s1, env.databaseSequence);
    ReleaseWorks(h, s1, PublicationSequence(s1, env.databaseSequence), env.time);
  }

  /** One publication was added, with a number above all others, and the default pointer moved to
      it, remembering where it came from. */
  ghost predicate Created(s: State, s': State) {
    && DEFAULT in s'.distributions
    && var id := s'.distributions[DEFAULT].current;
    && id !in s.publications && (forall k :: k in s.publications ==> k < id)
    && id in s'.publications && s'.publications == s.publications[id := s'.publications[id]]
    && s'.distributions == s.distributions[DEFAULT :=
         Pointer(id, if DEFAULT in s.distributions then Some(s.distributions[DEFAULT].current) else None)]
  }

  /** A publish is rejected only as a duplicate; otherwise it makes one new publication. */
  lemma PublishWorks(h: Hasher, s: State, d: Draft, env: Env)
    requires Inv(h, s) && Numbered(s.live.log.leaves)
    ensures PublishStep(h, s, d, env).Err? <==>
              (d.package, d.version) in s.published || env.releaseInDatabase || Released(s.live.index, d.package, d.version)
    ensures PublishStep(h, s, d, env).Err? ==> PublishStep(h, s, d, env).error == Duplicate
    ensures PublishStep(h, s, d, env).Ok? ==> Inv(h, PublishStep(h, s, d, env).value) && Created(s, PublishStep(h, s, d, env).value)
  {
    if !((d.package, d.version) in s.published || env.releaseInDatabase || HasVersion(RecordsOf(s.live.index, d.package), d.version)) {
      InvLive(h, s);
      var tree := Initialize(h, s.live, env.time, env.root);
      InitializeWorks(h, s.live, env.time, env.root);
      AppendWorks(h, tree, d, env.time);
      var renewed := Refresh(h, Append(h, tree, d, env.time).value, env.time);
      CreateWorks(h, s, renewed, env);
      RememberKeepsInv(h, CreatePublication(h, s.(live := renewed), env).value, (d.package, d.version));
    }
  }

  /** What a publish that is not a duplicate does, in terms of the staged tree. */
  lemma PublishUnfolds(h: Hasher, s: State, d: Draft, env: Env, staged: Tree)
    requires Inv(h, s) && Numbered(s.live.log.leaves) && TreeOk(h, staged)
    requires (d.package, d.version) !in s.published && !env.releaseInDatabase && !HasVersion(RecordsOf(s.live.index, d.package), d.version)
    requires var appended := Append(h, Initialize(h, s.live, env.time, env.root), d, env.time);
             appended.Ok? && Numbered(appended.value.log.leaves) && staged == Refresh(h, appended.value, env.time)
    ensures CreatePublication(h, s.(live := staged), env).Ok?
    ensures var created := CreatePublication(h, s.(live := staged), env).value;
            var next := created.(published := created.published + {(d.package, d.version)});
            Inv(h, created) && PublishStep(h, s, d, env) == Ok(next) && Inv(h, next)
  {
    CreateWorks(h, s, staged, env);
    RememberKeepsInv(h, CreatePublication(h, s.(live := staged), env).value, (d.package, d.version));
  }

  lemma RememberKeepsInv(h: Hasher, s: State, key: (Package, string))
    requires Inv(h, s)
    ensures Inv(h, s.(published := s.published + {key}))
  {
    MemoryIsFree(h, s, s.(published := s.published + {key}));
  }

  /** The invariant is about what is on disk. */
  lemma MemoryIsFree(h: Hasher, s: State, s': State)
    requires Inv(h, s) && s'.live == s.live && s'.publications == s.publications && s'.distributions == s.distributions
    ensures Inv(h, s')
  {
    forall id
      ensures Kept(h, s', id)
    {
      assert Kept(h, s, id);
    }
    forall d
      ensures Pointed(s', d)
    {
      assert Pointed(s, d);
    }
  }

  lemma MarkWorks(h: Hasher, tree: Tree, p: Package, version: string, yanked: bool, reason: string, time: string)
    requires tree == EMPTY_TREE || TreeOk(h, tree)
    requires HasVersion(RecordsOf(tree.index, p), version)
    ensures p in tree.index
    ensures var marked := tree.(index := tree.index[p := MarkRecords(tree.index[p], version, yanked, reason, time)]);
            Numbered(marked.log.leaves) && TreeOk(h, Refresh(h, marked, time))
  {
    var marked := tree.(index := tree.index[p := MarkRecords(tree.index[p], version, yanked, reason, time)]);
    MarkKeepsContent(h, tree, p, version, yanked, reason, time);
    NamespacesGrow(tree.index, p, marked.index[p]);
    RefreshMakesTree(h, marked, time);
  }

  /** What marking an existing release does, in terms of the staged tree. */
  lemma YankUnfolds(h: Hasher, s: State, p: Package, version: string, yanked: bool, reason: string, env: Env)
    requires Inv(h, s) && Numbered(s.live.log.leaves) && HasVersion(RecordsOf(s.live.index, p), version)
    ensures var records := MarkRecords(RecordsOf(s.live.index, p), version, yanked, reason, env.time);
            var staged := Refresh(h, s.live.(index := s.live.index[p := records]), env.time);
            && CreatePublication(h, s.(live := staged), env).Ok?
            && YankStep(h, s, p, version, yanked, reason, env) == CreatePublication(h, s.(live := staged), env)
            && Inv(h, CreatePublication(h, s.(live := staged), env).value)
            && Created(s, CreatePublication(h, s.(live := staged), env).value)
  {
    InvLive(h, s);
    MarkWorks(h, s.live, p, version, yanked, reason, env.time);
    var records := MarkRecords(RecordsOf(s.live.index, p), version, yanked, reason, env.time);
    CreateWorks(h, s, Refresh(h, s.live.(index := s.live.index[p := records]), env.time), env);
  }

  lemma YankWorks(h: Hasher, s: State, p: Package, version: string, yanked: bool, reason: string, env: Env)
    requires Inv(h, s) && Numbered(s.live.log.leaves)
    ensures YankStep(h, s, p, version, yanked, reason, env).Err? <==> !Released(s.live.index, p, version)
    ensures YankStep(h, s, p, version, yanked, reason, env).Ok? ==>
              Inv(h, YankStep(h, s, p, version, yanked, reason, env).value) &&
              Created(s, YankStep(h, s, p, version, yanked, reason, env).value)
  {
    if HasVersion(RecordsOf(s.live.index, p), version) {
      YankUnfolds(h, s, p, version, yanked, reason, env);
    }
  }

  lemma PointWorks(h: Hasher, s: State, distribution: string, id: int, previous: Option<int>)
    requires Inv(h, s) && id in s.publications && (previous.Some? ==> previous.value in s.publications)
    ensures Inv(h, Point(s, distribution, id, previous))
  {
    var s' := Point(s, distribution, id, previous);
    CopyIsExact(s.publications[id].tree);
    forall k
      ensures Kept(h, s', k)
    {
      assert Kept(h, s, k);
    }
    forall d
      ensures Pointed(s', d)
    {
      assert Pointed(s, d);
    }
  }

  // ---------------------------------------------------------------- every run

  /** Old publications stay, unchanged, and new ones have larger numbers. */
  ghost predicate Preserves(s: State, s': State) {
    && (forall id :: id in s.publications ==> id in s'.publications && s'.publications[id] == s.publications[id])
    && (forall id, k :: id in s'.publications && id !in s.publications && k in s.publications ==> k < id)
  }

  lemma CreatedPreserves(s: State, s': State)
    requires Created(s, s')
    ensures Preserves(s, s')
  {
  }

  lemma PromoteWorks(h: Hasher, s: State, distribution: string, id: int)
    requires Inv(h, s) && PromoteStep(s, distribution, id).Ok?
    ensures var s' := PromoteStep(s, distribution, id).value; Inv(h, s') && s'.publications == s.publications
  {
    assert Pointed(s, distribution);
    PointWorks(h, s, distribution, id,
      if distribution in s.distributions then Some(s.distributions[distribution].current) else None);
  }

  lemma RollbackWorks(h: Hasher, s: State, distribution: string)
    requires Inv(h, s) && RollbackStep(s, distribution).Ok?
    ensures var s' := RollbackStep(s, distribution).value; Inv(h, s') && s'.publications == s.publications
  {
    assert Pointed(s, distribution);
    PointWorks(h, s, distribution, s.distributions[distribution].previous.value, Some(s.distributions[distribution].current));
  }

  /** Every operation keeps the invariant and never rewrites a publication. */
  lemma StepKeepsInv(h: Hasher, s: State, op: Op)
    requires Inv(h, s) && Numbered(s.live.log.leaves)
    ensures Inv(h, Next(h, s, op))
    ensures Preserves(s, Next(h, s, op))
  {
    if Step(h, s, op).Ok? {
      match op
      case Publish(d, env) =>
        PublishWorks(h, s, d, env);
        CreatedPreserves(s, PublishStep(h, s, d, env).value);
      case SetYanked(p, v, yanked, reason, env) =>
        YankWorks(h, s, p, v, yanked, reason, env);
        CreatedPreserves(s, YankStep(h, s, p, v, yanked, reason, env).value);
      case Promote(distribution, id) =>
        PromoteWorks(h, s, distribution, id);
      case Rollback(distribution) =>
        RollbackWorks(h, s, distribution);
      case Restart =>
        MemoryIsFree(h, s, Forgotten(s));
    }
  }

  /** The state after a run; every intermediate state satisfies the invariant. */
  ghost function Run(h: Hasher, s: State, ops: seq<Op>): (s': State)
    requires Inv(h, s)
    ensures Inv(h, s')
  {
    if ops == [] then s else
      var before := Run(h, s, ops[..|ops| - 1]);
      InvLive(h, before);
      StepKeepsInv(h, before, ops[|ops| - 1]);
      Next(h, before, ops[|ops| - 1])
  }

  /** Along every run publications are immutable and their numbers only grow. */
  lemma {:induction false} RunPreserves(h: Hasher, s: State, ops: seq<Op>)
    requires Inv(h, s)
    ensures Preserves(s, Run(h, s, ops))
  {
    if ops != [] {
      var before := Run(h, s, ops[..|ops| - 1]);
      RunPreserves(h, s, ops[..|ops| - 1]);
      InvLive(h, before);
      StepKeepsInv(h, before, ops[|ops| - 1]);
    }
  }

  /** After any run from an empty root, every published tree and the live tree are consistent, and
      re-checking the digests of any publication succeeds. */
  lemma RunIsConsistent(h: Hasher, ops: seq<Op>)
    ensures Inv(h, START)
    ensures var s := Run(h, START, ops);
            && LiveOk(s) && (s.live == EMPTY_TREE || TreeOk(h, s.live))
            && (forall d :: d in s.distributions ==> PointerOk(s, s.distributions[d]))
            && (forall id :: id in s.publications ==> TreeOk(h, s.publications[id].tree) && Verified(h, s.publications[id]))
  {
    var s := Run(h, START, ops);
    InvLive(h, s);
    forall id | id in s.publications
      ensures TreeOk(h, s.publications[id].tree) && Verified(h, s.publications[id])
    {
      assert Kept(h, s, id);
    }
    forall d | d in s.distributions
      ensures PointerOk(s, s.distributions[d])
    {
      assert Pointed(s, d);
    }
  }

  predicate Verified(h: Hasher, p: Publication) {
    p.manifest.indexDigest == h.indexDirectory(p.tree.index) && p.manifest.trustDigest == h.trustDirectory(p.tree.trust)
  }

  // ---------------------------------------------------------------- rollback undoes

  ghost predicate MovesDefault(op: Op) {
    op.Publish? || op.SetYanked? || (op.Promote? && op.distribution == DEFAULT)
  }

  /** Each of these operations remembers the publication it replaced. */
  lemma MoveRemembers(h: Hasher, s: State, op: Op)
    requires Inv(h, s) && Numbered(s.live.log.leaves)
    requires DEFAULT in s.distributions && MovesDefault(op) && Step(h, s, op).Ok?
    ensures var s1 := Step(h, s, op).value;
            DEFAULT in s1.distributions && s1.distributions[DEFAULT].previous == Some(s.distributions[DEFAULT].current)
  {
    match op
    case Publish(d, env) => PublishWorks(h, s, d, env);
    case SetYanked(p, v, yanked, reason, env) => YankWorks(h, s, p, v, yanked, reason, env);
    case Promote(_, _) =>
  }

  lemma RollbackReturns(s: State, s1: State)
    requires DEFAULT in s.distributions && LiveOk(s) && Preserves(s, s1)
    requires DEFAULT in s1.distributions && s1.distributions[DEFAULT].previous == Some(s.distributions[DEFAULT].current)
    ensures RollbackStep(s1, DEFAULT).Ok?
    ensures var s2 := RollbackStep(s1, DEFAULT).value;
            && s2.live == s.live
            && s2.distributions[DEFAULT] == Pointer(s.distributions[DEFAULT].current, Some(s1.distributions[DEFAULT].current))
  {
    CopyIsExact(s.live);
  }

  /** Rolling back right after a publish, yank, unyank or promotion restores the earlier read plane. */
  lemma RollbackRestores(h: Hasher, s: State, op: Op)
    requires Inv(h, s) && Numbered(s.live.log.leaves)
    requires DEFAULT in s.distributions && MovesDefault(op) && Step(h, s, op).Ok?
    ensures var s1 := Step(h, s, op).value;
            && RollbackStep(s1, DEFAULT).Ok?
            && var s2 := RollbackStep(s1, DEFAULT).value;
            && s2.live == s.live
            && s2.distributions[DEFAULT] == Pointer(s.distributions[DEFAULT].current, Some(s1.distributions[DEFAULT].current))
  {
    var s1 := Step(h, s, op).value;
    StepKeepsInv(h, s, op);
    MoveRemembers(h, s, op);
    RollbackReturns(s, s1);
  }

  /** Two rollbacks in a row cancel: both pointer fields and the live tree come back. */
  lemma RollbackTwice(h: Hasher, s: State, distribution: string)
    requires Inv(h, s) && RollbackStep(s, distribution).Ok?
    ensures var s1 := RollbackStep(s, distribution).value;
            RollbackStep(s1, distribution).Ok? && RollbackStep(s1, distribution).value == s
  {
    assert Pointed(s, distribution);
    var s1 := RollbackStep(s, distribution).value;
    assert RollbackStep(s1, distribution).Ok?;
    var s2 := RollbackStep(s1, distribution).value;
    CopyIsExact(s.publications[s.distributions[distribution].current].tree);
    assert s2.distributions == s.distributions;
  }

  // ---------------------------------------------------------------- what the documents say

  /** The targets file of a namespace lists every index record, once, with its hash, and nothing else. */
  lemma TargetsListRecords(h: Hasher, tree: Tree, p: Package)
    requires TreeOk(h, tree) && p in tree.index
    ensures p.namespace in tree.trust.targets && p in tree.trust.targets[p.namespace].packages
    ensures forall v :: v in tree.trust.targets[p.namespace].packages[p] <==> Released(tree.index, p, v)
    ensures forall i :: 0 <= i < |tree.index[p]| ==>
              var r := tree.index[p][i];
              && r.version in tree.trust.targets[p.namespace].packages[p]
              && tree.trust.targets[p.namespace].packages[p][r.version] == RegistryTree.Release(h.record(r), r.artifact)
  {
    assert p.namespace in Namespaces(tree.index);
    assert IndexFileOk(p, tree.index[p]);
    forall v
      ensures v in ReleasesOf(h, tree.index[p]) <==> Released(tree.index, p, v)
    {
      ReleasesDomain(h, tree.index[p], v);
    }
    forall i | 0 <= i < |tree.index[p]|
      ensures tree.index[p][i].version in ReleasesOf(h, tree.index[p])
      ensures ReleasesOf(h, tree.index[p])[tree.index[p][i].version] == ReleaseOf(h, tree.index[p][i])
    {
      ReleasesExact(h, tree.index[p], i);
    }
  }

  /** The timestamp covers the snapshot, and the snapshot covers exactly the index files, the targets files and the
      checkpoint, each with its version and its hash; the checkpoint covers every leaf. */
  lemma TrustCovers(h: Hasher, tree: Tree)
    requires TreeOk(h, tree)
    ensures tree.trust.timestamp.Some? && tree.trust.snapshot.Some? && tree.log.checkpoint.Some?
    ensures var snapshot := tree.trust.snapshot.value;
            && tree.trust.timestamp.value.snapshot == FileMeta(snapshot.version, h.snapshotFile(snapshot))
            && (forall p :: p in snapshot.index <==> p in tree.index)
            && (forall p :: p in tree.index ==> snapshot.index[p] == FileMeta(1, h.indexFile(tree.index[p])))
            && (forall ns :: ns in snapshot.targets <==> ns in tree.trust.targets)
            && (forall ns :: ns in tree.trust.targets ==>
                  snapshot.targets[ns] == FileMeta(tree.trust.targets[ns].version, h.targetsFile(tree.trust.targets[ns])))
    ensures var checkpoint := tree.log.checkpoint.value;
            && tree.trust.snapshot.value.log == FileMeta(checkpoint.version, h.checkpointFile(checkpoint))
            && checkpoint.treeSize == |tree.log.leaves|
    ensures forall ns :: ns in tree.trust.targets <==> exists p :: p in tree.index && p.namespace == ns
    ensures forall ns :: ns in tree.trust.targets ==> tree.trust.targets[ns].namespace == ns
  {
    forall ns ensures ns in Namespaces(tree.index) <==> exists p :: p in tree.index && p.namespace == ns {
    }
  }

  function YankAndBack(records: seq<Record>, version: string, reason: string, t1: string, t2: string): seq<Record> {
    MarkRecords(MarkRecords(records, version, true, reason, t1), version, false, "", t2)
  }

  /** Yanking a release and unyanking it gives the same index records back exactly when the release had been marked
      before and was unmarked again: a record that was never marked keeps an empty reason. */
  lemma UnyankRestoresExactly(records: seq<Record>, version: string, reason: string, t1: string, t2: string)
    ensures YankAndBack(records, version, reason, t1, t2) == records <==>
            forall i :: 0 <= i < |records| && records[i].version == version ==>
              !records[i].yanked && records[i].yankedReason == Some("") && records[i].yankedAt == None
  {
    var there := MarkRecords(records, version, true, reason, t1);
    var back := YankAndBack(records, version, reason, t1, t2);
    forall i | 0 <= i < |records|
      ensures back[i] == if records[i].version != version then records[i]
                         else records[i].(yanked := false, yankedReason := Some(""), yankedAt := None)
    {
      assert there[i] == MarkRecord(records[i], version, true, reason, t1);
    }
    if forall i :: 0 <= i < |records| ==> back[i] == records[i] {
      assert back == records;
    }
  }

  lemma NextUnique(keys: set<int>, m: int, n: int)
    requires IsNext(keys, m) && IsNext(keys, n)
    ensures m == n
  {
  }
}
