/** Which releases of a publication were marked in its history, and what the log then says about their records. */
module RegistryMarks {
  import opened Prelude
  import opened RegistryTree
  import opened RegistryProtocol
  import opened RegistryRuns
  import opened RegistryLogs

  type Index = map<Package, seq<Record>>

  /** The last mark of each release that was ever marked. */
  type Marks = map<(Package, string), Mark>

  // ---------------------------------------------------------------- the history of marks

  /** The marks in the history of the live tree and of each publication, told by the calls alone. */
  datatype History = History(live: Marks, saved: map<int, Marks>)

  ghost function Current(s: State): int
    requires DEFAULT in s.distributions
  {
    s.distributions[DEFAULT].current
  }

  /** A publish keeps the marks of the live tree, a yank or unyank sets one, and a move of the default distribution
      takes those of the publication moved to. */
  ghost function Recorded(past: History, op: Op, s': State): History {
    if DEFAULT !in s'.distributions then past
    else
      match op
      case Publish(_, _) => past.(saved := past.saved[Current(s') := past.live])
      case SetYanked(p, v, yanked, reason, env) =>
        var live := past.live[(p, v) := Mark(yanked, reason, env.time)];
        History(live, past.saved[Current(s') := live])
      case _ =>
        if MovesLive(op) && Current(s') in past.saved then past.(live := past.saved[Current(s')]) else past
  }

  ghost function HistoryOf(h: Hasher, ops: seq<Op>): History
    requires Inv(h, START)
  {
    if ops == [] then History(map[], map[]) else
      var before, op := Run(h, START, ops[..|ops| - 1]), ops[|ops| - 1];
      InvLive(h, before);
      var past := HistoryOf(h, ops[..|ops| - 1]);
      if Step(h, before, op).Ok? then Recorded(past, op, Step(h, before, op).value) else past
  }

  // ---------------------------------------------------------------- what the index shows of it

  ghost predicate Unmarked(r: Record) { !r.yanked && r.yankedReason == None && r.yankedAt == None }

  /** A record bears the last mark of its release, and none when the release was never marked. */
  ghost predicate ShownBy(r: Record, marks: Marks) {
    if (r.package, r.version) in marks then Bears(r, marks[(r.package, r.version)]) else Unmarked(r)
  }

  ghost predicate MarkedAt(index: Index, marks: Marks, p: Package) {
    p in index ==> forall i :: 0 <= i < |index[p]| ==> index[p][i].package == p && ShownBy(index[p][i], marks)
  }

  /** The index shows exactly these marks, all of them on releases. */
  ghost predicate Shows(index: Index, marks: Marks) {
    && (forall p {:trigger MarkedAt(index, marks, p)} :: MarkedAt(index, marks, p))
    && (forall p, v :: (p, v) in marks ==> Released(index, p, v))
  }

  ghost predicate SavedAt(s: State, past: History, id: int) {
    id in s.publications ==> id in past.saved && Shows(s.publications[id].tree.index, past.saved[id])
  }

  ghost predicate Agrees(s: State, past: History) {
    && (forall id {:trigger SavedAt(s, past, id)} :: SavedAt(s, past, id))
    && Shows(s.live.index, past.live)
    && past.saved.Keys == s.publications.Keys
  }

  lemma AppendShows(h: Hasher, index: Index, marks: Marks, d: Draft, time: string)
    requires Shows(index, marks) && !HasVersion(RecordsOf(index, d.package), d.version)
    ensures Shows(index[d.package := RecordsOf(index, d.package) + [NewRecord(h, d, time)]], marks)
  {
    var was, record := RecordsOf(index, d.package), NewRecord(h, d, time);
    var index' := index[d.package := was + [record]];
    assert !Released(index, d.package, d.version);
    forall p ensures MarkedAt(index', marks, p) {
      assert MarkedAt(index, marks, p);
    }
    forall p, v | (p, v) in marks ensures Released(index', p, v) {
      assert Released(index, p, v);
      var i :| 0 <= i < |index[p]| && index[p][i].version == v;
      assert index'[p][i].version == v;
    }
  }

  lemma MarkShows(index: Index, marks: Marks, p: Package, version: string, yanked: bool, reason: string, time: string)
    requires Shows(index, marks) && p in index && Released(index, p, version)
    ensures Shows(MarkIndex(index, p, version, yanked, reason, time), marks[(p, version) := Mark(yanked, reason, time)])
  {
    var index': Index := MarkIndex(index, p, version, yanked, reason, time);
    var marks' := marks[(p, version) := Mark(yanked, reason, time)];
    MarkIndexMarks(index, p, version, yanked, reason, time);
    forall q ensures MarkedAt(index', marks', q) {
      assert MarkedAt(index, marks, q);
      if q == p {
        forall i | 0 <= i < |index[p]| ensures index'[p][i].package == p && ShownBy(index'[p][i], marks') {
          assert MarkedRight(index[p][i], index'[p][i], version, Mark(yanked, reason, time));
        }
      }
    }
    forall q, v | (q, v) in marks' ensures Released(index', q, v) {
      MarkKeepsReleased(index, p, version, yanked, reason, time, q, v);
    }
  }

  // ---------------------------------------------------------------- every step keeps the two together

  ghost predicate NewIndex(s: State, s': State, index: Index) {
    Created(s, s') && s'.publications[Current(s')].tree.index == index && s'.live.index == index
  }

  lemma ReleaseIndex(h: Hasher, s: State, tree: Tree, env: Env)
    requires Inv(h, s) && TreeOk(h, tree)
    ensures CreatePublication(h, s.(live := tree), env).Ok?
    ensures NewIndex(s, CreatePublication(h, s.(live := tree), env).value, tree.index)
  {
    CreateWorks(h, s, tree, env);
    CopyIsExact(tree);
  }

  lemma StagedIndex(h: Hasher, s: State, d: Draft, env: Env, staged: Tree)
    requires Stages(h, s, d, env, staged) && (s.live == EMPTY_TREE || TreeOk(h, s.live))
    ensures staged.index == s.live.index[d.package := RecordsOf(s.live.index, d.package) + [NewRecord(h, d, env.time)]]
  {
    InitializeWorks(h, s.live, env.time, env.root);
  }

  lemma PublishIndex(h: Hasher, s: State, d: Draft, env: Env)
    requires Inv(h, s) && Numbered(s.live.log.leaves) && PublishStep(h, s, d, env).Ok?
    ensures !HasVersion(RecordsOf(s.live.index, d.package), d.version)
    ensures NewIndex(s, PublishStep(h, s, d, env).value,
                     s.live.index[d.package := RecordsOf(s.live.index, d.package) + [NewRecord(h, d, env.time)]])
  {
    InvLive(h, s);
    var staged := StageTree(h, s, d, env);
    StagedIndex(h, s, d, env, staged);
    PublishUnfolds(h, s, d, env, staged);
    ReleaseIndex(h, s, staged, env);
  }

  lemma YankIndex(h: Hasher, s: State, p: Package, version: string, yanked: bool, reason: string, env: Env)
    requires Inv(h, s) && Numbered(s.live.log.leaves) && YankStep(h, s, p, version, yanked, reason, env).Ok?
    ensures p in s.live.index && Released(s.live.index, p, version)
    ensures NewIndex(s, YankStep(h, s, p, version, yanked, reason, env).value,
                     MarkIndex(s.live.index, p, version, yanked, reason, env.time))
  {
    InvLive(h, s);
    MarkWorks(h, s.live, p, version, yanked, reason, env.time);
    var records := MarkRecords(RecordsOf(s.live.index, p), version, yanked, reason, env.time);
    ReleaseIndex(h, s, Refresh(h, s.live.(index := s.live.index[p := records]), env.time), env);
  }

  lemma CreatedAgrees(s: State, s': State, past: History, index: Index, marks: Marks)
    requires Agrees(s, past) && NewIndex(s, s', index) && Shows(index, marks)
    ensures Agrees(s', History(marks, past.saved[Current(s') := marks]))
  {
    var past' := History(marks, past.saved[Current(s') := marks]);
    forall id ensures SavedAt(s', past', id) {
      assert SavedAt(s, past, id);
    }
  }

  lemma PointAgrees(h: Hasher, s: State, s': State, past: History, op: Op)
    requires Inv(h, s) && Inv(h, s') && Agrees(s, past) && s'.publications == s.publications
    requires op.Promote? || op.Rollback? || op.Restart?
    requires MovesLive(op) ==> DEFAULT in s'.distributions
    requires !MovesLive(op) ==> s'.live == s.live
    ensures Agrees(s', Recorded(past, op, s'))
  {
    var past' := Recorded(past, op, s');
    forall id ensures SavedAt(s', past', id) {
      assert SavedAt(s, past, id);
    }
    if MovesLive(op) {
      assert SavedAt(s, past, Current(s'));
    }
  }

  lemma StepAgrees(h: Hasher, s: State, past: History, op: Op)
    requires Inv(h, s) && Numbered(s.live.log.leaves) && Agrees(s, past) && Step(h, s, op).Ok?
    ensures Agrees(Step(h, s, op).value, Recorded(past, op, Step(h, s, op).value))
  {
    var s' := Step(h, s, op).value;
    StepKeepsInv(h, s, op);
    match op
    case Publish(d, env) =>
      PublishIndex(h, s, d, env);
      AppendShows(h, s.live.index, past.live, d, env.time);
      CreatedAgrees(s, s', past, s'.live.index, past.live);
    case SetYanked(p, v, yanked, reason, env) =>
      YankIndex(h, s, p, v, yanked, reason, env);
      MarkShows(s.live.index, past.live, p, v, yanked, reason, env.time);
      CreatedAgrees(s, s', past, s'.live.index, past.live[(p, v) := Mark(yanked, reason, env.time)]);
    case _ => PointAgrees(h, s, s', past, op);
  }

  lemma {:induction false} RunAgrees(h: Hasher, ops: seq<Op>)
    requires Inv(h, START)
    ensures Agrees(Run(h, START, ops), HistoryOf(h, ops))
  {
    if ops != [] {
      var n := |ops| - 1;
      var before := Run(h, START, ops[..n]);
      RunAgrees(h, ops[..n]);
      InvLive(h, before);
      if Step(h, before, ops[n]).Ok? {
        StepAgrees(h, before, HistoryOf(h, ops[..n]), ops[n]);
      }
    }
  }

  /** After any run, in the live tree and in every publication: a release is yanked exactly when its last mark there was a
      yank, and then with the reason and time of that yank. */
  lemma YankedExactly(h: Hasher, ops: seq<Op>, p: Package, i: nat)
    requires Inv(h, START)
    ensures HistoryOf(h, ops).saved.Keys == Run(h, START, ops).publications.Keys
    ensures var s, past := Run(h, START, ops), HistoryOf(h, ops);
            p in s.live.index && i < |s.live.index[p]| ==> LastMarkShows(s.live.index[p][i], p, past.live)
    ensures var s, past := Run(h, START, ops), HistoryOf(h, ops);
            forall id {:trigger SavedAt(s, past, id)} :: id in s.publications && id in past.saved ==>
              var index := s.publications[id].tree.index;
              p in index && i < |index[p]| ==> LastMarkShows(index[p][i], p, past.saved[id])
  {
    var s, past := Run(h, START, ops), HistoryOf(h, ops);
    RunAgrees(h, ops);
    assert MarkedAt(s.live.index, past.live, p);
    forall id | id in s.publications && id in past.saved
      ensures var index := s.publications[id].tree.index;
              p in index && i < |index[p]| ==> LastMarkShows(index[p][i], p, past.saved[id])
    {
      assert SavedAt(s, past, id) && MarkedAt(s.publications[id].tree.index, past.saved[id], p);
    }
  }

  ghost predicate LastMarkShows(r: Record, p: Package, marks: Marks) {
    && (r.yanked <==> (p, r.version) in marks && marks[(p, r.version)].yanked)
    && (r.yanked ==> r.yankedReason == Some(marks[(p, r.version)].reason) && r.yankedAt == Some(marks[(p, r.version)].time))
    && (!r.yanked ==> r.yankedReason == (if (p, r.version) in marks then Some("") else None) && r.yankedAt == None)
  }

  // ---------------------------------------------------------------- what the log says about a record

  ghost predicate RecordInjective(h: Hasher) {
    forall a, b :: h.record(a) == h.record(b) ==> a == b
  }

  /** A leaf always holds the artifact of its release; it holds the hash of the index record exactly when the record is
      as it was published. */
  lemma LeafTells(h: Hasher, tree: Tree, k: int, i: nat)
    requires ContentOk(h, tree) && k in tree.log.leaves
    requires var p := tree.log.leaves[k].package;
             p in tree.index && i < |tree.index[p]| && tree.index[p][i].version == tree.log.leaves[k].version
    ensures var leaf := tree.log.leaves[k]; var r := tree.index[leaf.package][i];
            && leaf.artifact == r.artifact
            && (RecordInjective(h) ==> (leaf.record == h.record(r) <==> !Marked(r)))
  {
    var leaf := tree.log.leaves[k];
    var r := tree.index[leaf.package][i];
    assert TiedAt(h, tree.index, tree.log.leaves, k) && TiedTo(h, leaf, r);
    assert IndexFileOk(leaf.package, tree.index[leaf.package]) && RecordOk(r);
  }

  /** After any run, in any publication: the leaf of a release holds its artifact, and the hash of its index record
      exactly when the release was never marked in the history of that publication. */
  lemma LeafMatchesExactly(h: Hasher, ops: seq<Op>, id: int, k: int, i: nat)
    requires Inv(h, START) && RecordInjective(h) && id in Run(h, START, ops).publications
    requires k in Run(h, START, ops).publications[id].tree.log.leaves
    requires var tree := Run(h, START, ops).publications[id].tree; var leaf := tree.log.leaves[k];
             leaf.package in tree.index && i < |tree.index[leaf.package]| && tree.index[leaf.package][i].version == leaf.version
    ensures id in HistoryOf(h, ops).saved
    ensures var tree := Run(h, START, ops).publications[id].tree; var leaf := tree.log.leaves[k];
            && leaf.artifact == tree.index[leaf.package][i].artifact
            && (leaf.record == h.record(tree.index[leaf.package][i]) <==> (leaf.package, leaf.version) !in HistoryOf(h, ops).saved[id])
  {
    var s := Run(h, START, ops);
    var tree := s.publications[id].tree;
    var p := tree.log.leaves[k].package;
    RunAgrees(h, ops);
    assert SavedAt(s, HistoryOf(h, ops), id) && MarkedAt(tree.index, HistoryOf(h, ops).saved[id], p);
    assert Kept(h, s, id);
    LeafTells(h, tree, k, i);
  }

  // ---------------------------------------------------------------- marking and unmarking a release

  /** A release in the live tree, with its record and its leaf. */
  ghost predicate Holds(tree: Tree, p: Package, i: nat, k: int) {
    && p in tree.index && i < |tree.index[p]| && k in tree.log.leaves
    && tree.log.leaves[k].package == p && tree.log.leaves[k].version == tree.index[p][i].version
  }

  /** Marking a release in the live tree: it is accepted, the record carries the mark, and the log stays. */
  lemma MarkOne(h: Hasher, s: State, p: Package, i: nat, k: int, yanked: bool, reason: string, env: Env)
    requires Inv(h, s) && Numbered(s.live.log.leaves) && Holds(s.live, p, i, k)
    ensures var version := s.live.index[p][i].version;
            YankStep(h, s, p, version, yanked, reason, env).Ok? &&
            var s' := YankStep(h, s, p, version, yanked, reason, env).value;
            && Inv(h, s') && s'.live.log.leaves == s.live.log.leaves && Holds(s'.live, p, i, k)
            && s'.live.index[p][i] == MarkRecord(s.live.index[p][i], version, yanked, reason, env.time)
  {
    var version := s.live.index[p][i].version;
    assert Released(s.live.index, p, version);
    YankWorks(h, s, p, version, yanked, reason, env);
    YankIndex(h, s, p, version, yanked, reason, env);
    YankKeepsLog(h, s, p, version, yanked, reason, env);
  }

  /** After a yank and an unyank the release is not yanked, and yet its record is not the one that the log holds: in
      any state, for any release of the live tree. */
  lemma UnyankLeavesTrace(h: Hasher, s: State, p: Package, i: nat, k: int, reason: string, e1: Env, e2: Env)
    requires Inv(h, s) && Numbered(s.live.log.leaves) && Holds(s.live, p, i, k) && RecordInjective(h)
    ensures var version := s.live.index[p][i].version;
            YankStep(h, s, p, version, true, reason, e1).Ok? &&
            var s1 := YankStep(h, s, p, version, true, reason, e1).value;
            Numbered(s1.live.log.leaves) && YankStep(h, s1, p, version, false, "", e2).Ok? &&
            var s2 := YankStep(h, s1, p, version, false, "", e2).value;
            && Holds(s2.live, p, i, k) && !s2.live.index[p][i].yanked
            && s2.live.log.leaves[k].record != h.record(s2.live.index[p][i])
  {
    var version := s.live.index[p][i].version;
    MarkOne(h, s, p, i, k, true, reason, e1);
    var s1 := YankStep(h, s, p, version, true, reason, e1).value;
    InvLive(h, s1);
    MarkOne(h, s1, p, i, k, false, "", e2);
    var s2 := YankStep(h, s1, p, version, false, "", e2).value;
    InvLive(h, s2);
    LeafTells(h, s2.live, k, i);
  }
}
