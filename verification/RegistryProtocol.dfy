/** The registry's operations as steps on the live tree, the immutable publications and the
    distribution pointers, and the invariant every run of them keeps. */
module RegistryProtocol {
  import opened Prelude
  import opened RegistryTree

  // ---------------------------------------------------------------- steps on one tree

  datatype Draft = Draft(package: Package, version: string, publisher: string, archive: string)

  datatype Rejection =
    | Duplicate
    | ArtifactMismatch
    | AlreadyPublished
    | PublicationExists
    | VerificationFailed
    | ReleaseNotFound
    | PublicationNotFound
    | NoPreviousPublication

  function VersionOf<T>(doc: Option<T>, version: T -> int): int {
    if doc.None? then 0 else version(doc.value)
  }

  /** Writes each missing document of a registry root; existing ones are left alone. */
  function Initialize(h: Hasher, tree: Tree, time: string, root: string): Tree {
    var t1 := if tree.config.None? then tree.(config := Some(Config(time, None))) else tree;
    var t2 := if t1.log.checkpoint.None?
      then t1.(log := t1.log.(checkpoint := Some(Checkpoint(1, time, 0, Chain(h, []))))) else t1;
    var t3 := if t2.trust.snapshot.None?
      then t2.(trust := t2.trust.(snapshot :=
             Some(Snapshot(1, map[], map[], FileMeta(1, h.checkpointFile(t2.log.checkpoint.value)))))) else t2;
    var t4 := if t3.trust.timestamp.None?
      then t3.(trust := t3.trust.(timestamp :=
             Some(Timestamp(1, FileMeta(1, h.snapshotFile(t3.trust.snapshot.value)))))) else t3;
    if t4.trust.root.None? then t4.(trust := t4.trust.(root := Some(root))) else t4
  }

  predicate HasVersion(records: seq<Record>, version: string) {
    exists i :: 0 <= i < |records| && records[i].version == version
  }

  function RecordsOf(index: map<Package, seq<Record>>, p: Package): seq<Record> {
    if p in index then index[p] else []
  }

  function NewRecord(h: Hasher, d: Draft, time: string): Record {
    Record(d.package, d.version, d.publisher, time, h.bytes(d.archive), false, None, None)
  }

  /** Places the artifact, appends the index record and the next log leaf. */
  function Append(h: Hasher, tree: Tree, d: Draft, time: string): Result<Tree, Rejection> {
    var digest := h.bytes(d.archive);
    var record := NewRecord(h, d, time);
    if digest in tree.artifacts && h.bytes(tree.artifacts[digest]) != digest then Err(ArtifactMismatch)
    else if HasVersion(RecordsOf(tree.index, d.package), d.version) then Err(AlreadyPublished)
    else
      var n := |tree.log.leaves| + 1;
      Ok(tree.(
        artifacts := if digest in tree.artifacts then tree.artifacts else tree.artifacts[digest := d.archive],
        index := tree.index[d.package := RecordsOf(tree.index, d.package) + [record]],
        log := tree.log.(leaves := tree.log.leaves[n := Leaf(n, d.package, d.version, h.record(record), digest)])))
  }

  function NextTargets(h: Hasher, tree: Tree, ns: string): Targets {
    var before := if ns in tree.trust.targets then tree.trust.targets[ns].version else 0;
    Targets(before + 1, ns, PackagesOf(h, tree.index, ns))
  }

  function RenewedTargets(h: Hasher, tree: Tree): map<string, Targets> {
    map ns | ns in Namespaces(tree.index) :: NextTargets(h, tree, ns)
  }

  /** Regenerates targets, checkpoint, snapshot and timestamp, each covering what precedes it. */
  function Refresh(h: Hasher, tree: Tree, time: string): Tree
    requires forall k :: 1 <= k <= |tree.log.leaves| ==> k in tree.log.leaves
  {
    var renewed := RenewedTargets(h, tree);
    var checkpoint := Checkpoint(
      VersionOf(tree.log.checkpoint, (c: Checkpoint) => c.version) + 1, time,
      |tree.log.leaves|, Chain(h, LeafHashes(h, tree.log.leaves)));
    var snapshot := Snapshot(
      VersionOf(tree.trust.snapshot, (s: Snapshot) => s.version) + 1,
      IndexMeta(h, tree.index), TargetsMeta(h, renewed), FileMeta(checkpoint.version, h.checkpointFile(checkpoint)));
    var timestamp := Timestamp(
      VersionOf(tree.trust.timestamp, (t: Timestamp) => t.version) + 1,
      FileMeta(snapshot.version, h.snapshotFile(snapshot)));
    tree.(trust := tree.trust.(targets := tree.trust.targets + renewed, snapshot := Some(snapshot), timestamp := Some(timestamp)),
          log := tree.log.(checkpoint := Some(checkpoint)))
  }

  function MarkRecord(r: Record, version: string, yanked: bool, reason: string, time: string): Record {
    if r.version != version then r
    else r.(yanked := yanked, yankedReason := Some(if yanked then reason else ""), yankedAt := if yanked then Some(time) else None)
  }

  function MarkRecords(records: seq<Record>, version: string, yanked: bool, reason: string, time: string): (r: seq<Record>)
    ensures |r| == |records|
    ensures forall i :: 0 <= i < |records| ==> r[i] == MarkRecord(records[i], version, yanked, reason, time)
  {
    seq(|records|, i requires 0 <= i < |records| => MarkRecord(records[i], version, yanked, reason, time))
  }

  /** Copies the four directories into `dest`, keeping files that are only there, and the config. */
  function CopyPlane(source: Tree, dest: Tree): Tree {
    Tree(source.config,
         dest.index + source.index,
         dest.artifacts + source.artifacts,
         Trust(if source.trust.root.Some? then source.trust.root else dest.trust.root,
               if source.trust.snapshot.Some? then source.trust.snapshot else dest.trust.snapshot,
               if source.trust.timestamp.Some? then source.trust.timestamp else dest.trust.timestamp,
               dest.trust.targets + source.trust.targets),
         Log(dest.log.leaves + source.log.leaves,
             if source.log.checkpoint.Some? then source.log.checkpoint else dest.log.checkpoint))
  }

  /** Removing the read plane first makes the copy exact. */
  lemma CopyIsExact(source: Tree)
    ensures CopyPlane(source, EMPTY_TREE) == source
  {
    assert map[] + source.index == source.index;
    assert map[] + source.artifacts == source.artifacts;
    assert map[] + source.trust.targets == source.trust.targets;
    assert map[] + source.log.leaves == source.log.leaves;
  }

  // ---------------------------------------------------------------- what the tree steps achieve

  lemma InitializeIsIdle(h: Hasher, tree: Tree, time: string, root: string)
    requires TreeOk(h, tree)
    ensures Initialize(h, tree, time, root) == tree
  {
  }

  lemma InitializeEmpty(h: Hasher, time: string, root: string)
    ensures TreeOk(h, Initialize(h, EMPTY_TREE, time, root))
    ensures Initialize(h, EMPTY_TREE, time, root).index == map[]
  {
    var tree := Initialize(h, EMPTY_TREE, time, root);
    assert LeafHashes(h, tree.log.leaves) == [];
    assert IndexMeta(h, tree.index) == map[];
    assert TargetsMeta(h, tree.trust.targets) == map[];
  }

  lemma AppendKeepsIndex(h: Hasher, tree: Tree, d: Draft, time: string)
    requires ContentOk(h, tree) && Append(h, tree, d, time).Ok?
    ensures var t := Append(h, tree, d, time).value;
            IndexOk(t.index) && ArtifactsOk(h, t.artifacts) && ArtifactsPresent(t.index, t.artifacts)
  {
    var t := Append(h, tree, d, time).value;
    forall p | p in t.index
      ensures IndexFileOk(p, t.index[p])
      ensures forall i :: 0 <= i < |t.index[p]| ==> t.index[p][i].artifact in t.artifacts
    {
      if p == d.package {
        assert d.package in tree.index ==> IndexFileOk(p, tree.index[p]);
      }
    }
  }

  /** The new leaf takes the next number; no leaf is overwritten. */
  lemma AppendKeepsLeaves(h: Hasher, tree: Tree, d: Draft, time: string)
    requires Numbered(tree.log.leaves) && Append(h, tree, d, time).Ok?
    ensures var t := Append(h, tree, d, time).value;
            && Numbered(t.log.leaves)
            && |t.log.leaves| == |tree.log.leaves| + 1
            && |tree.log.leaves| + 1 !in tree.log.leaves
            && (forall k :: k in tree.log.leaves ==> k in t.log.leaves && t.log.leaves[k] == tree.log.leaves[k])
  {
  }

  lemma AppendReleases(h: Hasher, tree: Tree, d: Draft, time: string, p: Package, v: string)
    requires Append(h, tree, d, time).Ok?
    ensures Released(Append(h, tree, d, time).value.index, p, v) <==>
              Released(tree.index, p, v) || (p == d.package && v == d.version)
  {
    var t := Append(h, tree, d, time).value;
    if p == d.package {
      var was, now := RecordsOf(tree.index, p), t.index[p];
      assert now == was + [NewRecord(h, d, time)];
      if i :| 0 <= i < |was| && was[i].version == v {
        assert now[i].version == v;
      }
      assert now[|was|].version == d.version;
    }
  }

  lemma AppendKeepsLogMatch(h: Hasher, tree: Tree, d: Draft, time: string)
    requires ContentOk(h, tree) && Append(h, tree, d, time).Ok?
    ensures var t := Append(h, tree, d, time).value; LogMatchesIndex(t.index, t.log.leaves)
  {
    var t := Append(h, tree, d, time).value;
    AppendKeepsLeaves(h, tree, d, time);
    var n := |tree.log.leaves| + 1;
    assert !Released(tree.index, d.package, d.version);
    forall p, v
      ensures Released(t.index, p, v) <==> Released(tree.index, p, v) || (p == d.package && v == d.version)
    {
      AppendReleases(h, tree, d, time, p, v);
    }
    forall p, v | Released(t.index, p, v)
      ensures exists k :: LeafFor(t.log.leaves, k, p, v)
    {
      if Released(tree.index, p, v) {
        var k :| LeafFor(tree.log.leaves, k, p, v);
        assert LeafFor(t.log.leaves, k, p, v);
      } else {
        assert LeafFor(t.log.leaves, n, p, v);
      }
    }
    forall j, k, p, v | LeafFor(t.log.leaves, j, p, v) && LeafFor(t.log.leaves, k, p, v)
      ensures j == k
    {
      assert j == n || LeafFor(tree.log.leaves, j, p, v);
      assert k == n || LeafFor(tree.log.leaves, k, p, v);
    }
  }

  /** The new leaf is tied to the new record, and to no other; the old ones stay tied. */
  lemma AppendKeepsTied(h: Hasher, tree: Tree, d: Draft, time: string)
    requires ContentOk(h, tree) && Append(h, tree, d, time).Ok?
    ensures var t := Append(h, tree, d, time).value; LeavesTied(h, t.index, t.log.leaves)
  {
    var t := Append(h, tree, d, time).value;
    var n := |tree.log.leaves| + 1;
    forall k ensures TiedAt(h, t.index, t.log.leaves, k) {
      assert TiedAt(h, tree.index, tree.log.leaves, k);
      if k == n {
        NewLeafTied(h, tree, d, time);
      } else if k in tree.log.leaves {
        OldLeafTied(h, tree, d, time, k);
      }
    }
  }

  lemma NewLeafTied(h: Hasher, tree: Tree, d: Draft, time: string)
    requires Append(h, tree, d, time).Ok?
    ensures var t := Append(h, tree, d, time).value; TiedAt(h, t.index, t.log.leaves, |tree.log.leaves| + 1)
  {
    var was, record := RecordsOf(tree.index, d.package), NewRecord(h, d, time);
    assert Original(record) == record;
    assert forall i :: 0 <= i < |was| ==> was[i].version != d.version;
  }

  lemma OldLeafTied(h: Hasher, tree: Tree, d: Draft, time: string, k: int)
    requires Append(h, tree, d, time).Ok? && TiedAt(h, tree.index, tree.log.leaves, k)
    requires k in tree.log.leaves && k != |tree.log.leaves| + 1
    requires Released(tree.index, tree.log.leaves[k].package, tree.log.leaves[k].version)
    ensures var t := Append(h, tree, d, time).value; TiedAt(h, t.index, t.log.leaves, k)
  {
    var leaf := tree.log.leaves[k];
    if leaf.package == d.package {
      assert leaf.version != d.version;
    }
  }

  lemma AppendKeepsContent(h: Hasher, tree: Tree, d: Draft, time: string)
    requires ContentOk(h, tree) && Append(h, tree, d, time).Ok?
    ensures ContentOk(h, Append(h, tree, d, time).value)
  {
    AppendKeepsIndex(h, tree, d, time);
    AppendKeepsLeaves(h, tree, d, time);
    AppendKeepsLogMatch(h, tree, d, time);
    AppendKeepsTied(h, tree, d, time);
  }

  lemma MergeOver<K, V>(a: map<K, V>, b: map<K, V>)
    requires a.Keys <= b.Keys
    ensures a + b == b
  {
  }

  lemma RenewedTargetsOk(h: Hasher, tree: Tree)
    ensures TargetsOk(h, tree.index, RenewedTargets(h, tree))
  {
    assert RenewedTargets(h, tree).Keys == Namespaces(tree.index);
  }

  /** Refreshing turns consistent content into a consistent tree. */
  lemma RefreshMakesTree(h: Hasher, tree: Tree, time: string)
    requires ContentOk(h, tree) && tree.trust.targets.Keys <= Namespaces(tree.index)
    ensures TreeOk(h, Refresh(h, tree, time))
  {
    RenewedTargetsOk(h, tree);
    MergeOver(tree.trust.targets, RenewedTargets(h, tree));
  }

  lemma MarkKeepsOriginal(r: Record, version: string, yanked: bool, reason: string, time: string)
    ensures Original(MarkRecord(r, version, yanked, reason, time)) == Original(r)
    ensures RecordOk(r) ==> RecordOk(MarkRecord(r, version, yanked, reason, time))
    ensures Marked(MarkRecord(r, version, yanked, reason, time)) <==> Marked(r) || r.version == version
  {
  }

  /** A yank, or an unyank when `yanked` is false. */
  datatype Mark = Mark(yanked: bool, reason: string, time: string)

  /** What a record shows after a mark: the reason and the time of a yank, an empty reason and no time after an unyank. */
  ghost predicate Bears(r: Record, m: Mark) {
    if m.yanked then r.yanked && r.yankedReason == Some(m.reason) && r.yankedAt == Some(m.time)
    else !r.yanked && r.yankedReason == Some("") && r.yankedAt == None
  }

  ghost predicate SameRelease(r: Record, r': Record) {
    && r'.package == r.package && r'.version == r.version && r'.publisher == r.publisher
    && r'.publishedAt == r.publishedAt && r'.artifact == r.artifact
  }

  /** One record of a file after a mark of one version. */
  ghost predicate MarkedRight(r: Record, r': Record, version: string, m: Mark) {
    if r.version == version then Bears(r', m) && SameRelease(r, r') else r' == r
  }

  ghost predicate FileMarked(records: seq<Record>, records': seq<Record>, version: string, m: Mark) {
    |records'| == |records| && forall i :: 0 <= i < |records| ==> MarkedRight(records[i], records'[i], version, m)
  }

  /** Every record of the release bears the mark, and everything else in the index is as before. */
  ghost predicate OnlyMarked(index: map<Package, seq<Record>>, index': map<Package, seq<Record>>, p: Package, version: string, m: Mark) {
    && p in index && index'.Keys == index.Keys && FileMarked(index[p], index'[p], version, m)
    && forall q :: q in index && q != p ==> index'[q] == index[q]
  }

  lemma MarkIndexMarks(index: map<Package, seq<Record>>, p: Package, version: string, yanked: bool, reason: string, time: string)
    requires p in index
    ensures OnlyMarked(index, MarkIndex(index, p, version, yanked, reason, time), p, version, Mark(yanked, reason, time))
  {
    forall i | 0 <= i < |index[p]|
      ensures MarkedRight(index[p][i], MarkRecords(index[p], version, yanked, reason, time)[i], version, Mark(yanked, reason, time))
    {
      assert MarkRecords(index[p], version, yanked, reason, time)[i] == MarkRecord(index[p][i], version, yanked, reason, time);
    }
  }

  ghost function MarkIndex(index: map<Package, seq<Record>>, p: Package, version: string, yanked: bool, reason: string, time: string)
    : map<Package, seq<Record>>
    requires p in index
  {
    index[p := MarkRecords(index[p], version, yanked, reason, time)]
  }

  lemma MarkKeepsIndex(index: map<Package, seq<Record>>, p: Package, version: string, yanked: bool, reason: string, time: string)
    requires IndexOk(index) && p in index
    ensures IndexOk(MarkIndex(index, p, version, yanked, reason, time))
  {
    assert IndexFileOk(p, index[p]);
    forall i | 0 <= i < |index[p]| ensures RecordOk(MarkRecord(index[p][i], version, yanked, reason, time)) {
      MarkKeepsOriginal(index[p][i], version, yanked, reason, time);
    }
  }

  lemma MarkKeepsReleased(index: map<Package, seq<Record>>, p: Package, version: string, yanked: bool, reason: string, time: string,
                          q: Package, v: string)
    requires p in index
    ensures Released(MarkIndex(index, p, version, yanked, reason, time), q, v) <==> Released(index, q, v)
  {
    var index': map<Package, seq<Record>> := MarkIndex(index, p, version, yanked, reason, time);
    if q == p {
      forall i: int | 0 <= i < |index[p]| ensures index'[p][i].version == index[p][i].version {
      }
    }
  }

  lemma MarkKeepsTied(h: Hasher, index: map<Package, seq<Record>>, leaves: map<int, Leaf>, p: Package, version: string, yanked: bool,
                      reason: string, time: string)
    requires LeavesTied(h, index, leaves) && p in index
    ensures LeavesTied(h, MarkIndex(index, p, version, yanked, reason, time), leaves)
  {
    var index': map<Package, seq<Record>> := MarkIndex(index, p, version, yanked, reason, time);
    forall k ensures TiedAt(h, index', leaves, k) {
      assert TiedAt(h, index, leaves, k);
      if k in leaves && leaves[k].package == p {
        forall i | 0 <= i < |index'[p]| && index'[p][i].version == leaves[k].version ensures TiedTo(h, leaves[k], index'[p][i]) {
          assert index'[p][i] == MarkRecord(index[p][i], version, yanked, reason, time);
          assert TiedTo(h, leaves[k], index[p][i]);
          MarkKeepsOriginal(index[p][i], version, yanked, reason, time);
        }
      }
    }
  }

  /** Marking a release keeps the content; only the mark of that release changes. */
  lemma MarkKeepsContent(h: Hasher, tree: Tree, p: Package, version: string, yanked: bool, reason: string, time: string)
    requires ContentOk(h, tree) && p in tree.index
    ensures ContentOk(h, tree.(index := tree.index[p := MarkRecords(tree.index[p], version, yanked, reason, time)]))
  {
    MarkKeepsIndex(tree.index, p, version, yanked, reason, time);
    MarkKeepsTied(h, tree.index, tree.log.leaves, p, version, yanked, reason, time);
    forall q, v
      ensures Released(MarkIndex(tree.index, p, version, yanked, reason, time), q, v) <==> Released(tree.index, q, v)
    {
      MarkKeepsReleased(tree.index, p, version, yanked, reason, time, q, v);
    }
  }
}
