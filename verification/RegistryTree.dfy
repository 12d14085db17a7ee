/** The static registry tree: index, artifacts, trust metadata, transparency log and config, the
    documents they hold, and what makes a tree consistent. */
module RegistryTree {
  import opened Prelude

  datatype Package = Package(namespace: string, name: string)

  /** An index line. A record has neither a reason nor a time until it is first marked; unmarking removes the time
      and leaves an empty reason. */
  datatype Record = Record(
    package: Package, version: string, publisher: string, publishedAt: string, artifact: string,
    yanked: bool, yankedReason: Option<string>, yankedAt: Option<string>)

  /** The record as it was published. */
  function Original(r: Record): Record { r.(yanked := false, yankedReason := None, yankedAt := None) }

  predicate Marked(r: Record) { r.yankedReason.Some? }

  /** A record that was never marked is as it was published. */
  ghost predicate RecordOk(r: Record) { !Marked(r) ==> r == Original(r) }

  datatype Leaf = Leaf(sequence: int, package: Package, version: string, record: string, artifact: string)

  datatype FileMeta = FileMeta(version: int, sha256: string)
  datatype Release = Release(record: string, artifact: string)

  datatype Config = Config(generatedAt: string, publication: Option<int>)
  datatype Targets = Targets(version: int, namespace: string, packages: map<Package, map<string, Release>>)
  datatype Checkpoint = Checkpoint(version: int, generatedAt: string, treeSize: int, rootHash: string)
  datatype Snapshot = Snapshot(version: int, index: map<Package, FileMeta>, targets: map<string, FileMeta>, log: FileMeta)
  datatype Timestamp = Timestamp(version: int, snapshot: FileMeta)

  datatype Trust = Trust(
    root: Option<string>, snapshot: Option<Snapshot>, timestamp: Option<Timestamp>, targets: map<string, Targets>)
  datatype Log = Log(leaves: map<int, Leaf>, checkpoint: Option<Checkpoint>)

  /** The read plane: the four directories and the config file. */
  datatype Tree = Tree(
    config: Option<Config>, index: map<Package, seq<Record>>, artifacts: map<string, string>, trust: Trust, log: Log)

  const EMPTY_TREE := Tree(None, map[], map[], Trust(None, None, None, map[]), Log(map[], None))

  /** SHA-256 of each kind of file or document; nothing is assumed about it here. */
  datatype Hasher = Hasher(
    bytes: string -> string,
    record: Record -> string,
    leaf: Leaf -> string,
    indexFile: seq<Record> -> string,
    targetsFile: Targets -> string,
    checkpointFile: Checkpoint -> string,
    snapshotFile: Snapshot -> string,
    indexDirectory: map<Package, seq<Record>> -> string,
    trustDirectory: Trust -> string,
    zero: string,
    link: (string, string) -> string)

  // ---------------------------------------------------------------- the transparency log

  /** The running hash over a list of leaf hashes. */
  function Chain(h: Hasher, hashes: seq<string>): string {
    if hashes == [] then h.zero else h.link(Chain(h, hashes[..|hashes| - 1]), hashes[|hashes| - 1])
  }

  method TransparencyRootHash(h: Hasher, hashes: seq<string>) returns (state: string)
    ensures state == Chain(h, hashes)
  {
    state := h.zero;
    var i := 0;
    while i < |hashes|
      invariant 0 <= i <= |hashes|
      invariant state == Chain(h, hashes[..i])
    {
      state := h.link(state, hashes[i]);
      assert hashes[..i + 1][..i] == hashes[..i];
      i := i + 1;
    }
    assert hashes[..i] == hashes;
  }

  ghost predicate LinkInjective(h: Hasher) {
    forall a, b, c, d :: h.link(a, b) == h.link(c, d) ==> a == c && b == d
  }

  /** Equal sizes and equal roots force equal logs, when no two inputs collide. */
  lemma {:induction false} ChainCommits(h: Hasher, a: seq<string>, b: seq<string>)
    requires LinkInjective(h) && |a| == |b| && Chain(h, a) == Chain(h, b)
    ensures a == b
  {
    if a != [] {
      var n := |a| - 1;
      ChainCommits(h, a[..n], b[..n]);
      assert a == a[..n] + [a[n]] && b == b[..n] + [b[n]];
    }
  }

  /** Leaves are numbered 1 to n without a gap. */
  ghost predicate Numbered(leaves: map<int, Leaf>) {
    && (forall k :: k in leaves <==> 1 <= k <= |leaves|)
    && (forall k :: k in leaves ==> leaves[k].sequence == k)
  }

  function LeafHashes(h: Hasher, leaves: map<int, Leaf>): seq<string>
    requires forall k :: 1 <= k <= |leaves| ==> k in leaves
  {
    seq(|leaves|, i requires 0 <= i < |leaves| => h.leaf(leaves[i + 1]))
  }

  /** The leaf numbers in ascending order, collected smallest first. */
  method LeafSequence(leaves: map<int, Leaf>) returns (numbers: seq<int>)
    ensures forall k :: k in numbers <==> k in leaves
    ensures forall i, j :: 0 <= i < j < |numbers| ==> numbers[i] < numbers[j]
    ensures |numbers| == |leaves|
  {
    numbers := [];
    var rest := leaves.Keys;
    while rest != {}
      invariant rest <= leaves.Keys
      invariant forall k :: k in numbers <==> k in leaves && k !in rest
      invariant forall i, j :: 0 <= i < j < |numbers| ==> numbers[i] < numbers[j]
      invariant forall i, k :: 0 <= i < |numbers| && k in rest ==> numbers[i] < k
      invariant |numbers| + |rest| == |leaves|
      decreases |rest|
    {
      var m := Smallest(rest);
      numbers := numbers + [m];
      rest := rest - {m};
    }
  }

  lemma SomeInt(s: set<int>)
    requires s != {}
    ensures exists k: int :: k in s
  {
    if forall k: int :: k !in s {
      assert false;
    }
  }

  method Smallest(s: set<int>) returns (m: int)
    requires s != {}
    ensures m in s && forall k :: k in s ==> m <= k
  {
    SomeInt(s);
    m :| m in s;
    var rest := s - {m};
    while rest != {}
      invariant rest <= s && m in s
      invariant forall k :: k in s && k !in rest ==> m <= k
      decreases rest
    {
      SomeInt(rest);
      var k :| k in rest;
      if k < m {
        m := k;
      }
      rest := rest - {k};
    }
  }

  /** On a numbered log the ascending order is 1, 2, ..., n. */
  lemma {:induction false} AscendingIsCounting(numbers: seq<int>, i: nat)
    requires forall k :: k in numbers <==> 1 <= k <= |numbers|
    requires forall i, j :: 0 <= i < j < |numbers| ==> numbers[i] < numbers[j]
    requires i < |numbers|
    ensures numbers[i] == i + 1
  {
    AscendingAtLeast(numbers, i);
    AscendingAtMost(numbers, i);
  }

  lemma {:induction false} AscendingAtLeast(numbers: seq<int>, i: nat)
    requires forall k :: k in numbers ==> 1 <= k
    requires forall i, j :: 0 <= i < j < |numbers| ==> numbers[i] < numbers[j]
    requires i < |numbers|
    ensures numbers[i] >= i + 1
  {
    assert numbers[i] in numbers;
    if i > 0 {
      AscendingAtLeast(numbers, i - 1);
    }
  }

  lemma {:induction false} AscendingAtMost(numbers: seq<int>, i: nat)
    requires forall k :: k in numbers ==> k <= |numbers|
    requires forall i, j :: 0 <= i < j < |numbers| ==> numbers[i] < numbers[j]
    requires i < |numbers|
    ensures numbers[i] <= i + 1
    decreases |numbers| - i
  {
    assert numbers[i] in numbers;
    if i + 1 < |numbers| {
      AscendingAtMost(numbers, i + 1);
    }
  }

  method CollectLeafHashes(h: Hasher, leaves: map<int, Leaf>) returns (hashes: seq<string>)
    requires Numbered(leaves)
    ensures hashes == LeafHashes(h, leaves)
  {
    var numbers := LeafSequence(leaves);
    hashes := [];
    var i := 0;
    while i < |numbers|
      invariant 0 <= i <= |numbers| && |hashes| == i
      invariant forall k :: 0 <= k < i ==> hashes[k] == h.leaf(leaves[k + 1])
    {
      AscendingIsCounting(numbers, i);
      hashes := hashes + [h.leaf(leaves[numbers[i]])];
      i := i + 1;
    }
  }

  // ---------------------------------------------------------------- index

  ghost predicate Released(index: map<Package, seq<Record>>, p: Package, version: string) {
    p in index && exists i :: 0 <= i < |index[p]| && index[p][i].version == version
  }

  /** An index file: non-empty, about its own package, each version once. */
  ghost predicate IndexFileOk(p: Package, records: seq<Record>) {
    && records != []
    && (forall i :: 0 <= i < |records| ==> records[i].package == p && RecordOk(records[i]))
    && (forall i, j :: 0 <= i < j < |records| ==> records[i].version != records[j].version)
  }

  ghost predicate IndexOk(index: map<Package, seq<Record>>) {
    forall p :: p in index ==> IndexFileOk(p, index[p])
  }

  function Namespaces(index: map<Package, seq<Record>>): set<string> {
    set p | p in index :: p.namespace
  }

  /** Artifacts are stored under their own digest. */
  ghost predicate ArtifactsOk(h: Hasher, artifacts: map<string, string>) {
    forall d :: d in artifacts ==> h.bytes(artifacts[d]) == d
  }

  ghost predicate ArtifactsPresent(index: map<Package, seq<Record>>, artifacts: map<string, string>) {
    forall p, i :: p in index && 0 <= i < |index[p]| ==> index[p][i].artifact in artifacts
  }

  ghost predicate LeafFor(leaves: map<int, Leaf>, k: int, p: Package, v: string) {
    k in leaves && leaves[k].package == p && leaves[k].version == v
  }

  /** The log holds exactly one leaf for every release. */
  ghost predicate LogMatchesIndex(index: map<Package, seq<Record>>, leaves: map<int, Leaf>) {
    && (forall k :: k in leaves ==> Released(index, leaves[k].package, leaves[k].version))
    && (forall p, v :: Released(index, p, v) ==> exists k :: LeafFor(leaves, k, p, v))
    && (forall j, k, p, v :: LeafFor(leaves, j, p, v) && LeafFor(leaves, k, p, v) ==> j == k)
  }

  /** A leaf holds the digest of the release's artifact and the hash of the record as it was published. */
  ghost predicate TiedTo(h: Hasher, leaf: Leaf, r: Record) {
    leaf.artifact == r.artifact && leaf.record == h.record(Original(r))
  }

  ghost predicate TiedAt(h: Hasher, index: map<Package, seq<Record>>, leaves: map<int, Leaf>, k: int) {
    k in leaves && leaves[k].package in index ==>
      forall i :: 0 <= i < |index[leaves[k].package]| && index[leaves[k].package][i].version == leaves[k].version ==>
        TiedTo(h, leaves[k], index[leaves[k].package][i])
  }

  ghost predicate LeavesTied(h: Hasher, index: map<Package, seq<Record>>, leaves: map<int, Leaf>) {
    forall k {:trigger TiedAt(h, index, leaves, k)} :: TiedAt(h, index, leaves, k)
  }

  // ---------------------------------------------------------------- signed metadata

  function ReleaseOf(h: Hasher, r: Record): Release { Release(h.record(r), r.artifact) }

  /** The releases of one index file by version; a later record with the same version wins. */
  function ReleasesOf(h: Hasher, records: seq<Record>): map<string, Release> {
    if records == [] then map[] else
      var n := |records| - 1;
      ReleasesOf(h, records[..n])[records[n].version := ReleaseOf(h, records[n])]
  }

  lemma {:induction false} ReleasesDomain(h: Hasher, records: seq<Record>, v: string)
    ensures v in ReleasesOf(h, records) <==> exists i :: 0 <= i < |records| && records[i].version == v
  {
    if records != [] {
      var n := |records| - 1;
      var front := records[..n];
      ReleasesDomain(h, front, v);
      if i :| 0 <= i < |front| && front[i].version == v {
        assert records[i].version == v;
      }
      if i :| 0 <= i < n && records[i].version == v {
        assert front[i].version == v;
      }
    }
  }

  /** With distinct versions every record is listed exactly once, with its own hash. */
  lemma {:induction false} ReleasesExact(h: Hasher, records: seq<Record>, i: nat)
    requires forall i, j :: 0 <= i < j < |records| ==> records[i].version != records[j].version
    requires i < |records|
    ensures records[i].version in ReleasesOf(h, records)
    ensures ReleasesOf(h, records)[records[i].version] == ReleaseOf(h, records[i])
  {
    var n := |records| - 1;
    if i < n {
      assert records[..n][i] == records[i];
      ReleasesExact(h, records[..n], i);
    }
  }

  function PackagesOf(h: Hasher, index: map<Package, seq<Record>>, ns: string): map<Package, map<string, Release>> {
    map p | p in index && p.namespace == ns :: ReleasesOf(h, index[p])
  }

  function IndexMeta(h: Hasher, index: map<Package, seq<Record>>): map<Package, FileMeta> {
    map p | p in index :: FileMeta(1, h.indexFile(index[p]))
  }

  function TargetsMeta(h: Hasher, targets: map<string, Targets>): map<string, FileMeta> {
    map ns | ns in targets :: FileMeta(targets[ns].version, h.targetsFile(targets[ns]))
  }

  /** Every namespace has one targets file, and it lists the namespace's releases. */
  ghost predicate TargetsOk(h: Hasher, index: map<Package, seq<Record>>, targets: map<string, Targets>) {
    && targets.Keys == Namespaces(index)
    && forall ns :: ns in targets ==>
         targets[ns].namespace == ns && targets[ns].packages == PackagesOf(h, index, ns)
  }

  ghost predicate CheckpointOk(h: Hasher, tree: Tree) {
    && Numbered(tree.log.leaves)
    && tree.log.checkpoint.Some?
    && tree.log.checkpoint.value.treeSize == |tree.log.leaves|
    && tree.log.checkpoint.value.rootHash == Chain(h, LeafHashes(h, tree.log.leaves))
  }

  ghost predicate SnapshotOk(h: Hasher, tree: Tree) {
    tree.trust.snapshot.Some? && tree.log.checkpoint.Some? &&
    var snapshot := tree.trust.snapshot.value;
    && snapshot.log == FileMeta(tree.log.checkpoint.value.version, h.checkpointFile(tree.log.checkpoint.value))
    && snapshot.index == IndexMeta(h, tree.index)
    && snapshot.targets == TargetsMeta(h, tree.trust.targets)
  }

  ghost predicate TimestampOk(h: Hasher, tree: Tree) {
    tree.trust.snapshot.Some? && tree.trust.timestamp.Some? &&
    tree.trust.timestamp.value.snapshot ==
      FileMeta(tree.trust.snapshot.value.version, h.snapshotFile(tree.trust.snapshot.value))
  }

  /** The whole chain from the timestamp down to the index records and the log. */
  ghost predicate MetadataOk(h: Hasher, tree: Tree) {
    TargetsOk(h, tree.index, tree.trust.targets) && CheckpointOk(h, tree) && SnapshotOk(h, tree) && TimestampOk(h, tree)
  }

  /** The content that the metadata is about. */
  ghost predicate ContentOk(h: Hasher, tree: Tree) {
    && tree.config.Some? && tree.trust.root.Some?
    && IndexOk(tree.index) && ArtifactsOk(h, tree.artifacts) && ArtifactsPresent(tree.index, tree.artifacts)
    && Numbered(tree.log.leaves) && LogMatchesIndex(tree.index, tree.log.leaves)
    && LeavesTied(h, tree.index, tree.log.leaves)
  }

  ghost predicate TreeOk(h: Hasher, tree: Tree) {
    ContentOk(h, tree) && MetadataOk(h, tree)
  }
}
