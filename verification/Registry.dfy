/** The registry control plane: it edits the tree, the publications and the pointers in place, and
    each handler performs exactly one step of the protocol. */
module Registry {
  import opened Prelude
  import opened RegistryTree
  import opened RegistryProtocol
  import R = RegistryRuns
  import E = RegistryEffects

  ghost function NewTargets(h: Hasher, tree: Tree, done: set<string>): map<string, Targets> {
    map ns | ns in done :: NextTargets(h, tree, ns)
  }

  lemma OneMoreTarget(h: Hasher, tree: Tree, done: set<string>, ns: string)
    ensures NewTargets(h, tree, done + {ns}) == NewTargets(h, tree, done)[ns := NextTargets(h, tree, ns)]
  {
  }

  class ControlPlane {
    const h: Hasher
    var live: Tree
    var publications: map<int, R.Publication>
    var distributions: map<string, R.Pointer>
    var published: set<(Package, string)>
    var memorySequence: int

    constructor (h: Hasher)
      ensures this.h == h && View() == R.START
    {
      this.h := h;
      live, publications, distributions, published, memorySequence := EMPTY_TREE, map[], map[], {}, 0;
    }

    ghost function View(): R.State
      reads this
    {
      R.State(live, publications, distributions, published, memorySequence)
    }

    method EnsureInitialized(time: string, root: string)
      modifies this`live
      ensures live == Initialize(h, old(live), time, root)
    {
      if live.config.None? {
        live := live.(config := Some(Config(time, None)));
      }
      if live.log.checkpoint.None? {
        var state := TransparencyRootHash(h, []);
        live := live.(log := live.log.(checkpoint := Some(Checkpoint(1, time, 0, state))));
      }
      if live.trust.snapshot.None? {
        var meta := FileMeta(1, h.checkpointFile(live.log.checkpoint.value));
        live := live.(trust := live.trust.(snapshot := Some(Snapshot(1, map[], map[], meta))));
      }
      if live.trust.timestamp.None? {
        var meta := FileMeta(1, h.snapshotFile(live.trust.snapshot.value));
        live := live.(trust := live.trust.(timestamp := Some(Timestamp(1, meta))));
      }
      if live.trust.root.None? {
        live := live.(trust := live.trust.(root := Some(root)));
      }
    }

    method AppendRelease(d: Draft, time: string) returns (failure: Option<Rejection>)
      modifies this`live
      ensures match Append(h, old(live), d, time)
              case Ok(tree) => failure.None? && live == tree
              case Err(error) => failure == Some(error)
    {
      var digest := h.bytes(d.archive);
      if digest in live.artifacts {
        if h.bytes(live.artifacts[digest]) != digest {
          return Some(ArtifactMismatch);
        }
      } else {
        live := live.(artifacts := live.artifacts[digest := d.archive]);
      }
      var records := RecordsOf(live.index, d.package);
      if HasVersion(records, d.version) {
        return Some(AlreadyPublished);
      }
      var record := NewRecord(h, d, time);
      live := live.(index := live.index[d.package := records + [record]]);
      var sequence := |live.log.leaves| + 1;
      var leaf := Leaf(sequence, d.package, d.version, h.record(record), digest);
      live := live.(log := live.log.(leaves := live.log.leaves[sequence := leaf]));
      return None;
    }

    /** Writes the targets file of one namespace. */
    method WriteTarget(ns: string) returns (next: Targets)
      modifies this`live
      ensures next == NextTargets(h, old(live), ns)
      ensures live == old(live).(trust := old(live).trust.(targets := old(live).trust.targets[ns := next]))
    {
      var before := if ns in live.trust.targets then live.trust.targets[ns].version else 0;
      next := Targets(before + 1, ns, PackagesOf(h, live.index, ns));
      live := live.(trust := live.trust.(targets := live.trust.targets[ns := next]));
    }

    /** The files of the namespaces in `done` were written. */
    ghost predicate Written(tree: Tree, done: set<string>, renewed: map<string, Targets>)
      reads this
    {
      && renewed == NewTargets(h, tree, done)
      && live == tree.(trust := tree.trust.(targets := tree.trust.targets + renewed))
    }

    method WriteNext(ns: string, before: map<string, Targets>, ghost tree: Tree, ghost done: set<string>)
      returns (renewed: map<string, Targets>)
      requires Written(tree, done, before) && ns !in done
      modifies this`live
      ensures Written(tree, done + {ns}, renewed)
    {
      var next := WriteTarget(ns);
      assert next == NextTargets(h, tree, ns);
      OneMoreTarget(h, tree, done, ns);
      renewed := before[ns := next];
      assert tree.trust.targets + renewed == live.trust.targets;
    }

    /** Writes one targets file for every namespace of the index. */
    method WriteTargets() returns (renewed: map<string, Targets>)
      modifies this`live
      ensures renewed == RenewedTargets(h, old(live))
      ensures live == old(live).(trust := old(live).trust.(targets := old(live).trust.targets + renewed))
    {
      ghost var tree := live;
      var all := Namespaces(live.index);
      var rest := all;
      renewed := map[];
      assert tree.trust.targets + map[] == tree.trust.targets;
      while rest != {}
        invariant rest <= all == Namespaces(tree.index)
        invariant Written(tree, all - rest, renewed)
        decreases rest
      {
        var ns :| ns in rest;
        assert all - (rest - {ns}) == (all - rest) + {ns};
        renewed := WriteNext(ns, renewed, tree, all - rest);
        rest := rest - {ns};
      }
      assert all - rest == all && NewTargets(h, tree, all) == RenewedTargets(h, tree);
    }

    method RefreshMetadata(time: string)
      requires Numbered(live.log.leaves)
      modifies this`live
      ensures live == Refresh(h, old(live), time)
    {
      ghost var tree := live;
      var renewed := WriteTargets();
      var hashes := CollectLeafHashes(h, live.log.leaves);
      var root := TransparencyRootHash(h, hashes);
      var checkpoint := Checkpoint(
        VersionOf(live.log.checkpoint, (c: Checkpoint) => c.version) + 1, time, |hashes|, root);
      live := live.(log := live.log.(checkpoint := Some(checkpoint)));
      var snapshot := Snapshot(
        VersionOf(live.trust.snapshot, (s: Snapshot) => s.version) + 1,
        IndexMeta(h, live.index), TargetsMeta(h, renewed), FileMeta(checkpoint.version, h.checkpointFile(checkpoint)));
      live := live.(trust := live.trust.(snapshot := Some(snapshot)));
      var timestamp := Timestamp(
        VersionOf(live.trust.timestamp, (t: Timestamp) => t.version) + 1,
        FileMeta(snapshot.version, h.snapshotFile(snapshot)));
      live := live.(trust := live.trust.(timestamp := Some(timestamp)));
    }

    method NextSequenceOnDisk() returns (sequence: int)
      ensures sequence == R.NextOnDisk(publications.Keys)
    {
      sequence := 1;
      var rest := publications.Keys;
      while rest != {}
        invariant rest <= publications.Keys
        invariant R.IsNext(publications.Keys - rest, sequence)
        decreases rest
      {
        SomeInt(rest);
        var id: int :| id in rest;
        R.NextWith(publications.Keys - rest, sequence, id);
        assert publications.Keys - rest + {id} == publications.Keys - (rest - {id});
        sequence := Max(sequence, id + 1);
        rest := rest - {id};
      }
      assert publications.Keys - rest == publications.Keys;
      R.NextUnique(publications.Keys, sequence, R.NextOnDisk(publications.Keys));
    }

    /** Stages the live tree as publication `id`, then activates it. */
    method ReleaseAs(id: int, time: string) returns (failure: Option<Rejection>)
      modifies this
      ensures match R.Release(h, old(View()), id, time)
              case Ok(next) => failure.None? && View() == next
              case Err(error) => failure == Some(error) && View() == old(View())
    {
      var staged := CopyPlane(live, EMPTY_TREE);
      staged := staged.(config := Some(Config(time, Some(id))));
      if staged.config.None? || staged.trust.root.None? {
        return Some(VerificationFailed);
      }
      if id in publications {
        return Some(PublicationExists);
      }
      publications := publications[id := R.Publication(staged, R.Describe(h, staged, id, time))];
      live := live.(config := staged.config);
      var previous := if R.DEFAULT in distributions then Some(distributions[R.DEFAULT].current) else None;
      distributions := distributions[R.DEFAULT := R.Pointer(id, previous)];
      memorySequence := Max(memorySequence, id);
      return None;
    }

    method CreatePublication(env: R.Env) returns (failure: Option<Rejection>)
      modifies this
      ensures match R.CreatePublication(h, old(View()), env)
              case Ok(next) => failure.None? && View() == next
              case Err(error) => failure == Some(error) && View() == old(View())
    {
      var onDisk := NextSequenceOnDisk();
      var id := Max(Max(onDisk, memorySequence + 1), env.databaseSequence);
      assert id == R.PublicationSequence(View(), env.databaseSequence);
      failure := ReleaseAs(id, env.time);
    }

    /** Initialises the root if needed, appends the release and refreshes the metadata. */
    method StageRelease(d: Draft, env: R.Env)
      requires live == EMPTY_TREE || TreeOk(h, live)
      requires !HasVersion(RecordsOf(live.index, d.package), d.version)
      modifies this`live
      ensures var tree := Initialize(h, old(live), env.time, env.root);
              && Append(h, tree, d, env.time).Ok?
              && Numbered(Append(h, tree, d, env.time).value.log.leaves)
              && live == Refresh(h, Append(h, tree, d, env.time).value, env.time)
              && TreeOk(h, live)
    {
      R.InitializeWorks(h, live, env.time, env.root);
      R.AppendWorks(h, Initialize(h, live, env.time, env.root), d, env.time);
      EnsureInitialized(env.time, env.root);
      var failure := AppendRelease(d, env.time);
      RefreshMetadata(env.time);
    }

    method PublishDraft(d: Draft, env: R.Env)
      requires R.Inv(h, View()) && Numbered(live.log.leaves)
      requires (d.package, d.version) !in published && !env.releaseInDatabase && !HasVersion(RecordsOf(live.index, d.package), d.version)
      modifies this
      ensures R.Inv(h, View())
      ensures old(Numbered(live.log.leaves))
      ensures Ok(View()) == R.PublishStep(h, old(View()), d, env)
    {
      R.InvLive(h, View());
      ghost var s := View();
      StageRelease(d, env);
      assert View() == s.(live := live);
      R.PublishUnfolds(h, s, d, env, live);
      var failure := CreatePublication(env);
      published := published + {(d.package, d.version)};
    }

    method HandlePublish(d: Draft, env: R.Env) returns (failure: Option<Rejection>)
      requires R.Inv(h, View())
      modifies this
      ensures R.Inv(h, View())
      ensures old(Numbered(live.log.leaves))
      ensures match R.PublishStep(h, old(View()), d, env)
              case Ok(next) => failure.None? && View() == next
              case Err(error) => failure == Some(error) && View() == old(View())
      ensures failure.None? <==>
                (d.package, d.version) !in old(published) && !env.releaseInDatabase && !Released(old(live.index), d.package, d.version)
      ensures failure.None? ==> E.PublishedRight(h, old(View()), View(), d, env)
    {
      R.InvLive(h, View());
      ghost var s := View();
      R.PublishWorks(h, s, d, env);
      if (d.package, d.version) in published || env.releaseInDatabase || HasVersion(RecordsOf(live.index, d.package), d.version) {
        return Some(Duplicate);
      }
      PublishDraft(d, env);
      E.PublishEffect(h, s, d, env);
      return None;
    }

    method MarkReleases(records: seq<Record>, version: string, yanked: bool, reason: string, time: string)
      returns (found: bool, marked: seq<Record>)
      ensures found == HasVersion(records, version)
      ensures marked == MarkRecords(records, version, yanked, reason, time)
      ensures FileMarked(records, marked, version, Mark(yanked, reason, time))
    {
      marked := records;
      found := false;
      var i := 0;
      while i < |marked|
        invariant 0 <= i <= |marked| == |records|
        invariant forall k :: 0 <= k < i ==> marked[k] == MarkRecord(records[k], version, yanked, reason, time)
        invariant forall k :: i <= k < |marked| ==> marked[k] == records[k]
        invariant found <==> exists k :: 0 <= k < i && records[k].version == version
      {
        if marked[i].version == version {
          found := true;
          var r := marked[i].(yanked := yanked, yankedReason := Some(if yanked then reason else ""));
          if yanked {
            r := r.(yankedAt := Some(time));
          } else {
            r := r.(yankedAt := None);
          }
          marked := marked[i := r];
        }
        i := i + 1;
      }
    }

    /** Rewrites one index file and refreshes the metadata. */
    method StageMark(p: Package, records: seq<Record>, time: string)
      requires Numbered(live.log.leaves)
      modifies this`live
      ensures live == Refresh(h, old(live).(index := old(live).index[p := records]), time)
    {
      live := live.(index := live.index[p := records]);
      RefreshMetadata(time);
    }

    method PublishMark(p: Package, records: seq<Record>, version: string, yanked: bool, reason: string, env: R.Env)
      requires R.Inv(h, View()) && Numbered(live.log.leaves)
      requires HasVersion(RecordsOf(live.index, p), version)
      requires records == MarkRecords(RecordsOf(live.index, p), version, yanked, reason, env.time)
      modifies this
      ensures R.Inv(h, View())
      ensures old(Numbered(live.log.leaves))
      ensures Ok(View()) == R.YankStep(h, old(View()), p, version, yanked, reason, env)
    {
      ghost var s := View();
      R.YankUnfolds(h, s, p, version, yanked, reason, env);
      StageMark(p, records, env.time);
      assert View() == s.(live := live);
      var failure := CreatePublication(env);
    }

    method HandleSetYanked(p: Package, version: string, yanked: bool, reason: string, env: R.Env)
      returns (failure: Option<Rejection>)
      requires R.Inv(h, View())
      modifies this
      ensures R.Inv(h, View())
      ensures old(Numbered(live.log.leaves))
      ensures match R.YankStep(h, old(View()), p, version, yanked, reason, env)
              case Ok(next) => failure.None? && View() == next
              case Err(error) => failure == Some(error) && View() == old(View())
      ensures failure.None? <==> Released(old(live.index), p, version)
      ensures failure.None? ==> E.YankedRight(h, old(View()), View(), p, version, Mark(yanked, reason, env.time))
      ensures failure.None? ==> E.TakesNumber(old(View()), View(), env.databaseSequence)
    {
      R.InvLive(h, View());
      E.YankAnswer(h, View(), p, version, yanked, reason, env);
      var found, marked := MarkReleases(RecordsOf(live.index, p), version, yanked, reason, env.time);
      if !found {
        return Some(ReleaseNotFound);
      }
      PublishMark(p, marked, version, yanked, reason, env);
      return None;
    }

    /** A new control plane on the same registry root. */
    method Restart()
      requires R.Inv(h, View())
      modifies this`published, this`memorySequence
      ensures R.Inv(h, View()) && View() == R.Forgotten(old(View()))
    {
      R.MemoryIsFree(h, View(), R.Forgotten(View()));
      published, memorySequence := {}, 0;
    }

    /** Empties the read plane, then copies the publication over it. */
    method MaterializePublication(id: int)
      requires id in publications
      modifies this`live
      ensures live == publications[id].tree
    {
      live := EMPTY_TREE;
      CopyIsExact(publications[id].tree);
      live := CopyPlane(publications[id].tree, live);
    }

    method HandlePromote(distribution: string, id: int) returns (failure: Option<Rejection>)
      requires R.Inv(h, View())
      modifies this
      ensures R.Inv(h, View())
      ensures match R.PromoteStep(old(View()), distribution, id)
              case Ok(next) => failure.None? && View() == next
              case Err(error) => failure == Some(error) && View() == old(View())
      ensures failure.None? <==> id in old(publications)
      ensures failure.None? ==>
                E.MovedTo(old(View()), View(), distribution, id,
                  if distribution in old(distributions) then Some(old(distributions)[distribution].current) else None)
    {
      E.PromoteAnswer(View(), distribution, id);
      if id !in publications {
        return Some(PublicationNotFound);
      }
      R.PromoteWorks(h, View(), distribution, id);
      CopyIsExact(publications[id].tree);
      var previous := if distribution in distributions then Some(distributions[distribution].current) else None;
      if distribution == R.DEFAULT {
        MaterializePublication(id);
      }
      distributions := distributions[distribution := R.Pointer(id, previous)];
      return None;
    }

    method HandleRollback(distribution: string) returns (failure: Option<Rejection>)
      requires R.Inv(h, View())
      modifies this
      ensures R.Inv(h, View())
      ensures match R.RollbackStep(old(View()), distribution)
              case Ok(next) => failure.None? && View() == next
              case Err(error) => failure == Some(error) && View() == old(View())
      ensures failure.None? <==> distribution in old(distributions) && old(distributions)[distribution].previous.Some?
      ensures failure.None? ==>
                E.MovedTo(old(View()), View(), distribution, old(distributions)[distribution].previous.value,
                          Some(old(distributions)[distribution].current))
    {
      E.RollbackAnswer(h, View(), distribution);
      if distribution !in distributions || distributions[distribution].previous.None? {
        return Some(NoPreviousPublication);
      }
      var pointer := distributions[distribution];
      var id := pointer.previous.value;
      if id !in publications {
        return Some(PublicationNotFound);
      }
      R.RollbackWorks(h, View(), distribution);
      CopyIsExact(publications[id].tree);
      if distribution == R.DEFAULT {
        MaterializePublication(id);
      }
      distributions := distributions[distribution := R.Pointer(id, Some(pointer.current))];
      return None;
    }
  }
}
