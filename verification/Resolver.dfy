/** The resolver object: a memoised depth-first search over a growing node table with two indexes. */
module Resolver {
  import opened Prelude
  import opened Ordering
  import opened ResolverModel
  import opened Representatives

  datatype Alias = Alias(alias: string, packageId: string)

  datatype Node = Node(
    selection: Selection, package: PackageConfig, fingerprint: Fingerprint, id: string,
    dependencies: seq<string>, aliases: seq<Alias>)

  function ByAliasName(): Order<Alias> { (a: Alias, b: Alias) => StrLe(a.alias, b.alias) }

  // ---------------------------------------------------------------- the node table

  datatype Table = Table(nodes: seq<Node>, bySource: map<Fingerprint, nat>, byName: map<string, nat>)

  ghost predicate Has(t: Table, f: Fingerprint) {
    f in t.bySource && t.bySource[f] < |t.nodes|
  }

  /** The node that stands for every selection with fingerprint `f`. */
  ghost function At(t: Table, f: Fingerprint): Node
    requires Has(t, f)
  {
    t.nodes[t.bySource[f]]
  }

  /** Both indexes point at exactly the nodes of the table. */
  ghost predicate IndexesAgree(t: Table) {
    && (forall i {:trigger Indexed(t, i)} :: Indexed(t, i))
    && (forall f {:trigger SourceEntry(t, f)} :: SourceEntry(t, f))
    && (forall n {:trigger NameEntry(t, n)} :: NameEntry(t, n))
  }

  ghost predicate Indexed(t: Table, i: int) {
    0 <= i < |t.nodes| ==>
      && t.nodes[i].fingerprint in t.bySource && t.bySource[t.nodes[i].fingerprint] == i
      && t.nodes[i].package.name in t.byName && t.byName[t.nodes[i].package.name] == i
  }

  ghost predicate SourceEntry(t: Table, f: Fingerprint) {
    f in t.bySource ==> t.bySource[f] < |t.nodes| && t.nodes[t.bySource[f]].fingerprint == f
  }

  ghost predicate NameEntry(t: Table, n: string) {
    n in t.byName ==> t.byName[n] < |t.nodes| && t.nodes[t.byName[n]].package.name == n
  }

  ghost predicate NodeOk(q: Problem, n: Node) {
    && Reachable(q, n.selection)
    && q.packageOf(n.selection) == Some(n.package)
    && n.fingerprint == q.fingerprintOf(n.selection)
    && n.id == LockId(n.selection.origin, n.package)
  }

  /** Dependency `d` of node `n` was selected and its target, another node, is in the table. */
  ghost predicate Resolved(q: Problem, t: Table, n: Node, d: Dependency) {
    var r := q.select(n.selection, d);
    && r.Ok? && Has(t, q.fingerprintOf(r.value))
    && q.fingerprintOf(r.value) != n.fingerprint
    && (d.package.Some? ==> At(t, q.fingerprintOf(r.value)).package.name == d.package.value)
  }

  ghost function TargetId(q: Problem, t: Table, n: Node, d: Dependency): string
    requires Resolved(q, t, n, d)
  {
    At(t, q.fingerprintOf(q.select(n.selection, d).value)).id
  }

  ghost predicate AllResolved(q: Problem, t: Table, n: Node, deps: seq<Dependency>) {
    forall d :: d in deps ==> Resolved(q, t, n, d)
  }

  /** `ids` lists exactly the targets of `deps`. */
  ghost predicate ListsTargets(q: Problem, t: Table, n: Node, deps: seq<Dependency>, ids: seq<string>)
    requires AllResolved(q, t, n, deps)
  {
    forall x :: x in ids <==> exists d :: d in deps && TargetId(q, t, n, d) == x
  }

  ghost predicate ListsAliases(q: Problem, t: Table, n: Node, deps: seq<Dependency>, aliases: seq<Alias>)
    requires AllResolved(q, t, n, deps)
  {
    forall a :: a in aliases <==> exists d :: d in deps && Alias(d.alias, TargetId(q, t, n, d)) == a
  }

  /** `deps` are resolved, and `ids` and `aliases` are exactly their targets. */
  ghost predicate Collected(q: Problem, t: Table, n: Node, deps: seq<Dependency>, ids: seq<string>, aliases: seq<Alias>) {
    AllResolved(q, t, n, deps) && ListsTargets(q, t, n, deps, ids) && ListsAliases(q, t, n, deps, aliases)
  }

  /** The node records exactly the targets of its declared dependencies. */
  ghost predicate Complete(q: Problem, t: Table, n: Node) {
    Collected(q, t, n, DependenciesOf(n.package), n.dependencies, n.aliases)
  }

  ghost predicate Tidy(n: Node) {
    Sorted(n.dependencies, ByText()) && NoDuplicates(n.dependencies)
  }

  ghost predicate Sane(q: Problem, t: Table, i: int) {
    0 <= i < |t.nodes| ==> NodeOk(q, t.nodes[i]) && Tidy(t.nodes[i])
  }

  ghost predicate Closed(q: Problem, t: Table, i: int) {
    0 <= i < |t.nodes| ==> Complete(q, t, t.nodes[i])
  }

  ghost predicate AllSane(q: Problem, t: Table) {
    forall i {:trigger Sane(q, t, i)} :: Sane(q, t, i)
  }

  /** Every node not in `open` is complete; `open` are the nodes whose loop is still running. */
  ghost predicate AllComplete(q: Problem, t: Table, open: set<int>) {
    forall i {:trigger Closed(q, t, i)} :: i !in open ==> Closed(q, t, i)
  }

  ghost function Selections(t: Table): set<Selection> {
    set i | 0 <= i < |t.nodes| :: t.nodes[i].selection
  }

  ghost predicate DrawnAt(q: Problem, t: Table, i: int) {
    0 <= i < |t.nodes| ==> Drawn(q, Selections(t), t.nodes[i].selection)
  }

  /** Every node was asked for by a seed or by another node. */
  ghost predicate AllDrawn(q: Problem, t: Table) {
    forall i {:trigger DrawnAt(q, t, i)} :: DrawnAt(q, t, i)
  }

  ghost predicate TableOk(q: Problem, t: Table, open: set<int>) {
    IndexesAgree(t) && AllSane(q, t) && AllDrawn(q, t) && AllComplete(q, t, open)
  }

  /** Old index entries stay, and old nodes keep what others may refer to. */
  ghost predicate Extends(t: Table, t': Table) {
    && |t.nodes| <= |t'.nodes|
    && (forall i {:trigger SameNode(t, t', i)} :: SameNode(t, t', i))
    && (forall f {:trigger SameEntry(t, t', f)} :: SameEntry(t, t', f))
  }

  ghost predicate SameNode(t: Table, t': Table, i: int) {
    0 <= i < |t.nodes| && i < |t'.nodes| ==>
      && t'.nodes[i].id == t.nodes[i].id && t'.nodes[i].package == t.nodes[i].package
      && t'.nodes[i].fingerprint == t.nodes[i].fingerprint
  }

  ghost predicate SameEntry(t: Table, t': Table, f: Fingerprint) {
    f in t.bySource ==> f in t'.bySource && t'.bySource[f] == t.bySource[f]
  }

  ghost function Unnamed(names: set<string>, t: Table): set<string> {
    names - t.byName.Keys
  }

  /** The table only grew: old nodes and index entries are unchanged. */
  ghost predicate GrewTo(names: set<string>, t: Table, t': Table) {
    t.nodes <= t'.nodes && Extends(t, t') && Unnamed(names, t') <= Unnamed(names, t)
  }

  lemma GrewTransitive(names: set<string>, t: Table, t': Table, t'': Table)
    requires GrewTo(names, t, t') && GrewTo(names, t', t'')
    ensures GrewTo(names, t, t'')
  {
    forall i ensures SameNode(t, t'', i) {
      assert SameNode(t, t', i) && SameNode(t', t'', i);
    }
    forall f ensures SameEntry(t, t'', f) {
      assert SameEntry(t, t', f) && SameEntry(t', t'', f);
    }
  }

  lemma GrewReflexive(names: set<string>, t: Table)
    ensures GrewTo(names, t, t)
  {
  }

  lemma GrewPush(names: set<string>, t: Table, n: Node)
    requires IndexesAgree(t) && n.fingerprint !in t.bySource
    ensures GrewTo(names, t, Push(t, n))
  {
  }

  /** Recording dependencies at a position past the old table is invisible to it. */
  lemma GrewRecord(names: set<string>, t: Table, t': Table, i: nat, dependencies: seq<string>, aliases: seq<Alias>)
    requires GrewTo(names, t, t') && |t.nodes| <= i < |t'.nodes|
    ensures GrewTo(names, t, Record(t', i, dependencies, aliases))
  {
    var t'' := Record(t', i, dependencies, aliases);
    forall k ensures SameNode(t, t'', k) {
      assert SameNode(t, t', k);
    }
    forall f ensures SameEntry(t, t'', f) {
      assert SameEntry(t, t', f);
    }
  }

  lemma ExtendsKeepsResolved(q: Problem, t: Table, t': Table, n: Node, d: Dependency)
    requires Extends(t, t') && Resolved(q, t, n, d)
    ensures Resolved(q, t', n, d) && TargetId(q, t', n, d) == TargetId(q, t, n, d)
  {
    var f := q.fingerprintOf(q.select(n.selection, d).value);
    assert SameEntry(t, t', f) && SameNode(t, t', t.bySource[f]);
  }

  lemma ExtendsKeepsCollected(q: Problem, t: Table, t': Table, n: Node, deps: seq<Dependency>, ids: seq<string>, aliases: seq<Alias>)
    requires Extends(t, t') && Collected(q, t, n, deps, ids, aliases)
    ensures Collected(q, t', n, deps, ids, aliases)
  {
    forall d | d in deps
      ensures Resolved(q, t', n, d) && TargetId(q, t', n, d) == TargetId(q, t, n, d)
    {
      ExtendsKeepsResolved(q, t, t', n, d);
    }
  }

  /** A new node joins the table, open until its dependencies are recorded. */
  function Push(t: Table, n: Node): Table {
    Table(t.nodes + [n], t.bySource[n.fingerprint := |t.nodes|], t.byName[n.package.name := |t.nodes|])
  }

  lemma PushKeepsIndexes(t: Table, n: Node)
    requires IndexesAgree(t) && n.fingerprint !in t.bySource && n.package.name !in t.byName
    ensures IndexesAgree(Push(t, n)) && Extends(t, Push(t, n))
  {
    var t' := Push(t, n);
    forall i ensures Indexed(t', i) {
      assert Indexed(t, i);
    }
    forall f ensures SourceEntry(t', f) {
      assert SourceEntry(t, f);
    }
    forall name ensures NameEntry(t', name) {
      assert NameEntry(t, name);
    }
  }

  lemma PushNames(names: set<string>, t: Table, n: Node)
    requires n.package.name in names && n.package.name !in t.byName
    ensures |Unnamed(names, Push(t, n))| < |Unnamed(names, t)|
  {
    assert Unnamed(names, t) == Unnamed(names, Push(t, n)) + {n.package.name};
  }

  lemma PushKeepsComplete(q: Problem, t: Table, n: Node, open: set<int>)
    requires IndexesAgree(t) && AllComplete(q, t, open)
    requires n.fingerprint !in t.bySource && n.package.name !in t.byName
    ensures AllComplete(q, Push(t, n), open + {|t.nodes|})
  {
    var t' := Push(t, n);
    PushKeepsIndexes(t, n);
    forall i | i !in open + {|t.nodes|}
      ensures Closed(q, t', i)
    {
      if 0 <= i < |t'.nodes| {
        assert t'.nodes[i] == t.nodes[i];
        assert Closed(q, t, i);
        ExtendsKeepsCollected(q, t, t', t.nodes[i], DependenciesOf(t.nodes[i].package), t.nodes[i].dependencies, t.nodes[i].aliases);
      }
    }
  }

  lemma PushKeepsSane(q: Problem, t: Table, n: Node)
    requires AllSane(q, t) && NodeOk(q, n) && Tidy(n)
    ensures AllSane(q, Push(t, n))
  {
    forall i
      ensures Sane(q, Push(t, n), i)
    {
      assert Sane(q, t, i);
    }
  }

  /** `x` is a seed or the target of a dependency of a node. */
  ghost predicate Called(q: Problem, t: Table, x: Selection) {
    x in q.seeds || exists i, d :: CalledBy(q, t, x, i, d)
  }

  ghost predicate CalledBy(q: Problem, t: Table, x: Selection, i: int, d: Dependency) {
    0 <= i < |t.nodes| && DependsOn(q, t.nodes[i].selection, d) && q.select(t.nodes[i].selection, d) == Ok(x)
  }

  lemma CalledIsReachable(q: Problem, t: Table, x: Selection)
    requires AllSane(q, t) && Called(q, t, x)
    ensures Reachable(q, x)
  {
    if x in q.seeds {
      ReachSeed(q, x);
    } else {
      var i, d :| CalledBy(q, t, x, i, d);
      assert Sane(q, t, i);
      ReachNext(q, t.nodes[i].selection, d, x);
    }
  }

  /** Whatever is called for is drawn once it has been met. */
  lemma CalledIsDrawn(q: Problem, t: Table, met: set<Selection>, x: Selection)
    requires AllDrawn(q, t) && Called(q, t, x) && Selections(t) <= met && x in met
    ensures Drawn(q, met, x)
  {
    if x in q.seeds {
      DrawnSeed(q, met, x);
    } else {
      var i, d :| CalledBy(q, t, x, i, d);
      assert DrawnAt(q, t, i);
      DrawnGrows(q, Selections(t), met, t.nodes[i].selection);
      assert Leads(q, t.nodes[i].selection, x);
      DrawnNext(q, met, t.nodes[i].selection, x);
    }
  }

  lemma PushKeepsDrawn(q: Problem, t: Table, n: Node)
    requires AllDrawn(q, t) && Called(q, t, n.selection)
    ensures AllDrawn(q, Push(t, n))
  {
    var t' := Push(t, n);
    assert t'.nodes[|t.nodes|] == n;
    assert Selections(t) <= Selections(t') by {
      forall i | 0 <= i < |t.nodes| ensures t.nodes[i].selection in Selections(t') {
        assert t'.nodes[i] == t.nodes[i];
      }
    }
    forall i ensures DrawnAt(q, t', i) {
      if 0 <= i < |t.nodes| {
        assert DrawnAt(q, t, i);
        DrawnGrows(q, Selections(t), Selections(t'), t.nodes[i].selection);
      } else if i == |t.nodes| {
        CalledIsDrawn(q, t, Selections(t'), n.selection);
      }
    }
  }

  lemma RecordKeepsDrawn(q: Problem, t: Table, i: nat, dependencies: seq<string>, aliases: seq<Alias>)
    requires i < |t.nodes| && AllDrawn(q, t)
    ensures AllDrawn(q, Record(t, i, dependencies, aliases))
  {
    var t' := Record(t, i, dependencies, aliases);
    assert forall k :: 0 <= k < |t.nodes| ==> t'.nodes[k].selection == t.nodes[k].selection;
    assert Selections(t') == Selections(t);
    forall k ensures DrawnAt(q, t', k) {
      assert DrawnAt(q, t, k);
    }
  }

  function Record(t: Table, i: nat, dependencies: seq<string>, aliases: seq<Alias>): Table
    requires i < |t.nodes|
  {
    t.(nodes := t.nodes[i := t.nodes[i].(dependencies := dependencies, aliases := aliases)])
  }

  lemma SortingKeepsCollected(q: Problem, t: Table, n: Node, deps: seq<Dependency>, ids: seq<string>, aliases: seq<Alias>)
    requires Collected(q, t, n, deps, ids, aliases)
    ensures Collected(q, t, n, deps, DropRepeats(SortText(ids)), SortBy(aliases, ByAliasName()))
  {
    DropRepeatsKeeps(SortText(ids));
    SortPermutes(aliases, ByAliasName());
  }

  lemma RecordIndexes(t: Table, i: nat, dependencies: seq<string>, aliases: seq<Alias>)
    requires i < |t.nodes| && IndexesAgree(t)
    ensures IndexesAgree(Record(t, i, dependencies, aliases))
    ensures Extends(t, Record(t, i, dependencies, aliases))
  {
    var t' := Record(t, i, dependencies, aliases);
    forall k ensures Indexed(t', k) {
      assert Indexed(t, k);
    }
    forall f ensures SourceEntry(t', f) {
      assert SourceEntry(t, f);
    }
    forall name ensures NameEntry(t', name) {
      assert NameEntry(t, name);
    }
  }

  /** Recording the collected targets closes the node. */
  lemma RecordCompletes(q: Problem, t: Table, i: nat, dependencies: seq<string>, aliases: seq<Alias>)
    requires i < |t.nodes| && Collected(q, t, t.nodes[i], DependenciesOf(t.nodes[i].package), dependencies, aliases)
    ensures var t' := Record(t, i, dependencies, aliases); Complete(q, t', t'.nodes[i])
  {
    var t' := Record(t, i, dependencies, aliases);
    var n, n' := t.nodes[i], t'.nodes[i];
    forall d | d in DependenciesOf(n.package)
      ensures Resolved(q, t', n', d) && TargetId(q, t', n', d) == TargetId(q, t, n, d)
    {
      assert Resolved(q, t, n, d);
    }
  }

  lemma RecordKeepsComplete(q: Problem, t: Table, i: nat, dependencies: seq<string>, aliases: seq<Alias>, open: set<int>)
    requires i < |t.nodes| && IndexesAgree(t) && AllComplete(q, t, open + {i})
    requires Collected(q, t, t.nodes[i], DependenciesOf(t.nodes[i].package), dependencies, aliases)
    ensures AllComplete(q, Record(t, i, dependencies, aliases), open)
  {
    var t' := Record(t, i, dependencies, aliases);
    RecordIndexes(t, i, dependencies, aliases);
    forall k | k !in open
      ensures Closed(q, t', k)
    {
      if k == i {
        RecordCompletes(q, t, i, dependencies, aliases);
      } else if 0 <= k < |t'.nodes| {
        assert t'.nodes[k] == t.nodes[k];
        assert Closed(q, t, k);
        ExtendsKeepsCollected(q, t, t', t.nodes[k], DependenciesOf(t.nodes[k].package), t.nodes[k].dependencies, t.nodes[k].aliases);
      }
    }
  }

  lemma RecordKeepsSane(q: Problem, t: Table, i: nat, dependencies: seq<string>, aliases: seq<Alias>)
    requires i < |t.nodes| && AllSane(q, t) && Tidy(t.nodes[i].(dependencies := dependencies))
    ensures AllSane(q, Record(t, i, dependencies, aliases))
  {
    forall k
      ensures Sane(q, Record(t, i, dependencies, aliases), k)
    {
      assert Sane(q, t, k);
    }
  }

  lemma RecordKeepsTable(q: Problem, t: Table, i: nat, dependencies: seq<string>, aliases: seq<Alias>, open: set<int>)
    requires i < |t.nodes| && TableOk(q, t, open + {i})
    requires Collected(q, t, t.nodes[i], DependenciesOf(t.nodes[i].package), dependencies, aliases)
    requires Tidy(t.nodes[i].(dependencies := dependencies))
    ensures TableOk(q, Record(t, i, dependencies, aliases), open)
  {
    RecordIndexes(t, i, dependencies, aliases);
    RecordKeepsComplete(q, t, i, dependencies, aliases, open);
    RecordKeepsSane(q, t, i, dependencies, aliases);
    RecordKeepsDrawn(q, t, i, dependencies, aliases);
  }

  /** One more resolved dependency adds one id and one alias. */
  lemma CollectOneMore(q: Problem, t: Table, n: Node, deps: seq<Dependency>, d: Dependency, ids: seq<string>, aliases: seq<Alias>)
    requires Collected(q, t, n, deps, ids, aliases) && Resolved(q, t, n, d)
    ensures var id := TargetId(q, t, n, d);
            Collected(q, t, n, deps + [d], ids + [id], aliases + [Alias(d.alias, id)])
  {
    forall e
      ensures e in deps + [d] <==> e in deps || e == d
    {
    }
  }

  // ---------------------------------------------------------------- the search

  /** What the search relies on: names come from a finite set, and a selection that names the
      package it expects finds it. */
  ghost predicate Sound(q: Problem, names: set<string>) {
    && (forall x {:trigger Named(q, names, x)} :: Named(q, names, x))
    && (forall x, d {:trigger Expected(q, x, d)} :: Expected(q, x, d))
  }

  ghost predicate Named(q: Problem, names: set<string>, x: Selection) {
    q.packageOf(x).Some? ==> q.packageOf(x).value.name in names
  }

  /** One way to let selections stand for fingerprints under which the closure is flawed. */
  ghost predicate FlawedChoice(q: Problem, pick: Pick) {
    Chooses(q, pick) && Flawed(Quotient(q, pick))
  }

  /** Every failure points at a flaw of the closure of representatives; and all but a wrong package name, which
      may be due to the choice of representatives, at a flaw of the closure itself. */
  ghost predicate Explained(q: Problem, error: ResolveError) {
    || (error.PackageMissing? && exists a :: Reachable(q, a) && q.packageOf(a).None?)
    || ((exists pick :: FlawedChoice(q, pick)) && (!error.WrongPackage? ==> Flawed(q)))
  }

  /** The state between two calls, with the nodes in `open` still collecting their dependencies. */
  ghost predicate ReadyAt(q: Problem, names: set<string>, t: Table, open: set<int>) {
    Sound(q, names) && TableOk(q, t, open) && forall i :: i in open ==> 0 <= i < |t.nodes|
  }

  lemma PushKeepsTable(q: Problem, t: Table, n: Node, open: set<int>)
    requires TableOk(q, t, open) && NodeOk(q, n) && Tidy(n) && Called(q, t, n.selection)
    requires n.fingerprint !in t.bySource && n.package.name !in t.byName
    ensures TableOk(q, Push(t, n), open + {|t.nodes|})
  {
    PushKeepsComplete(q, t, n, open);
    PushKeepsSane(q, t, n);
    PushKeepsDrawn(q, t, n);
    PushKeepsIndexes(t, n);
  }

  lemma PushKeepsReady(q: Problem, names: set<string>, t: Table, n: Node, open: set<int>)
    requires ReadyAt(q, names, t, open) && NodeOk(q, n) && Tidy(n) && n.package.name in names
    requires Called(q, t, n.selection) && n.fingerprint !in t.bySource && n.package.name !in t.byName
    ensures ReadyAt(q, names, Push(t, n), open + {|t.nodes|}) && GrewTo(names, t, Push(t, n))
    ensures |Unnamed(names, Push(t, n))| < |Unnamed(names, t)|
  {
    PushKeepsTable(q, t, n, open);
    PushNames(names, t, n);
    GrewPush(names, t, n);
  }

  // ---------------------------------------------------------------- explaining failures

  /** The node of a fingerprint stands for it. */
  ghost function MetBy(t: Table): map<Fingerprint, Selection> {
    map f | f in t.bySource && t.bySource[f] < |t.nodes| :: t.nodes[t.bySource[f]].selection
  }

  /** The choice that the table has made, possibly with one more selection. */
  ghost predicate Extending(q: Problem, t: Table, pick: Pick) {
    && Chooses(q, pick)
    && forall i :: 0 <= i < |t.nodes| ==> pick(t.nodes[i].fingerprint) == t.nodes[i].selection
  }

  lemma TableChooses(q: Problem, t: Table, open: set<int>) returns (pick: Pick)
    requires TableOk(q, t, open)
    ensures Extending(q, t, pick)
  {
    var met := MetBy(t);
    forall f ensures MetAt(q, met, f) {
      if f in met {
        assert SourceEntry(t, f) && Sane(q, t, t.bySource[f]);
      }
    }
    PickChooses(q, met);
    pick := PickFrom(q, met);
    forall i | 0 <= i < |t.nodes| ensures pick(t.nodes[i].fingerprint) == t.nodes[i].selection {
      assert Indexed(t, i);
    }
  }

  lemma TableChoosesOneMore(q: Problem, t: Table, open: set<int>, x: Selection) returns (pick: Pick)
    requires TableOk(q, t, open) && Reachable(q, x) && q.fingerprintOf(x) !in t.bySource
    ensures Extending(q, t, pick) && pick(q.fingerprintOf(x)) == x
  {
    var met := MetBy(t)[q.fingerprintOf(x) := x];
    forall f ensures MetAt(q, met, f) {
      if f in MetBy(t) {
        assert SourceEntry(t, f) && Sane(q, t, t.bySource[f]);
      }
    }
    PickChooses(q, met);
    pick := PickFrom(q, met);
    forall i | 0 <= i < |t.nodes| ensures pick(t.nodes[i].fingerprint) == t.nodes[i].selection {
      assert Indexed(t, i);
    }
  }

  lemma OwnPick(q: Problem, t: Table, pick: Pick, y: Selection)
    requires AllSane(q, t) && Extending(q, t, pick) && y in Selections(t)
    ensures pick(q.fingerprintOf(y)) == y
  {
    var i :| 0 <= i < |t.nodes| && t.nodes[i].selection == y;
    assert Sane(q, t, i);
  }

  lemma NodeIsReachable(q: Problem, t: Table, open: set<int>, pick: Pick, i: nat)
    requires TableOk(q, t, open) && Extending(q, t, pick) && i < |t.nodes|
    ensures Reachable(Quotient(q, pick), t.nodes[i].selection)
  {
    forall y | y in Selections(t) ensures pick(q.fingerprintOf(y)) == y {
      OwnPick(q, t, pick, y);
    }
    assert DrawnAt(q, t, i);
    DrawnIsReachable(q, pick, Selections(t), t.nodes[i].selection);
  }

  lemma FailureExplained(q: Problem, t: Table, open: set<int>, i: nat, d: Dependency)
    requires TableOk(q, t, open) && i < |t.nodes| && DependsOn(q, t.nodes[i].selection, d)
    requires q.select(t.nodes[i].selection, d).Err?
    ensures exists pick :: FlawedChoice(q, pick)
    ensures Flawed(q)
  {
    var x := t.nodes[i].selection;
    var pick := TableChooses(q, t, open);
    NodeIsReachable(q, t, open, pick, i);
    assert Sane(q, t, i) && FailedSelection(q, x, d);
    assert FailedSelection(Quotient(q, pick), x, d);
    assert FlawedChoice(q, pick);
  }

  lemma ConflictExplained(q: Problem, t: Table, open: set<int>, x: Selection, j: nat)
    requires TableOk(q, t, open) && Called(q, t, x) && j < |t.nodes|
    requires q.fingerprintOf(x) !in t.bySource && SameName(q, x, t.nodes[j].selection)
    ensures exists pick :: FlawedChoice(q, pick)
    ensures Flawed(q)
  {
    CalledIsReachable(q, t, x);
    var pick := TableChoosesOneMore(q, t, open, x);
    NodeIsReachable(q, t, open, pick, j);
    var met := Selections(t) + {x};
    forall y | y in met ensures pick(q.fingerprintOf(y)) == y {
      if y in Selections(t) {
        OwnPick(q, t, pick, y);
      }
    }
    CalledIsDrawn(q, t, met, x);
    DrawnIsReachable(q, pick, met, x);
    assert Sane(q, t, j) && Indexed(t, j);
    assert NameClash(q, x, t.nodes[j].selection);
    assert NameClash(Quotient(q, pick), x, t.nodes[j].selection);
    assert FlawedChoice(q, pick);
  }

  /** The target of the dependency `d` of node `i` is represented by node `j`. */
  ghost predicate Targets(q: Problem, t: Table, i: nat, d: Dependency, j: nat) {
    && i < |t.nodes| && j < |t.nodes| && DependsOn(q, t.nodes[i].selection, d)
    && q.select(t.nodes[i].selection, d).Ok?
    && t.nodes[j].fingerprint == q.fingerprintOf(q.select(t.nodes[i].selection, d).value)
  }

  lemma TargetExplained(q: Problem, t: Table, open: set<int>, i: nat, d: Dependency, j: nat)
    requires TableOk(q, t, open) && Targets(q, t, i, d, j)
    requires (d.package.Some? && d.package.value != t.nodes[j].package.name) || t.nodes[j].fingerprint == t.nodes[i].fingerprint
    ensures exists pick :: FlawedChoice(q, pick)
    ensures t.nodes[j].fingerprint == t.nodes[i].fingerprint ==> Flawed(q)
  {
    var x, y := t.nodes[i].selection, t.nodes[j].selection;
    var pick := TableChooses(q, t, open);
    var q' := Quotient(q, pick);
    NodeIsReachable(q, t, open, pick, i);
    assert Sane(q, t, i) && Sane(q, t, j);
    assert q'.select(x, d) == Fold(q, pick, q.select(x, d)) == Ok(y);
    assert DependsOn(q', x, d);
    if t.nodes[j].fingerprint == t.nodes[i].fingerprint {
      assert SelfEdge(q, x, d);
      assert SelfEdge(q', x, d);
    } else {
      assert Mismatch(q', x, d);
    }
    assert FlawedChoice(q, pick);
  }

  class SingleVersionResolver {
    const q: Problem
    ghost const names: set<string>
    var nodes: seq<Node>
    var bySource: map<Fingerprint, nat>
    var byName: map<string, nat>

    constructor (q: Problem, ghost names: set<string>)
      ensures this.q == q && this.names == names && nodes == [] && TableOk(q, View(), {})
    {
      this.q, this.names := q, names;
      nodes, bySource, byName := [], map[], map[];
    }

    ghost function View(): Table
      reads this
    {
      Table(nodes, bySource, byName)
    }

    ghost predicate Ready(open: set<int>)
      reads this
    {
      ReadyAt(q, names, View(), open)
    }

    method AddNode(x: Selection, package: PackageConfig, ghost open: set<int>) returns (i: nat)
      requires Ready(open) && Called(q, View(), x) && q.packageOf(x) == Some(package)
      requires q.fingerprintOf(x) !in bySource && package.name !in byName
      modifies this
      ensures i == |old(nodes)| && Ready(open + {i}) && GrewTo(names, old(View()), View()) && |nodes| == i + 1
      ensures nodes[i].selection == x && nodes[i].package == package && nodes[i].fingerprint == q.fingerprintOf(x)
      ensures |Unnamed(names, View())| < |Unnamed(names, old(View()))|
    {
      i := |nodes|;
      var node := Node(x, package, q.fingerprintOf(x), LockId(x.origin, package), [], []);
      assert Named(q, names, x);
      CalledIsReachable(q, View(), x);
      PushKeepsReady(q, names, View(), node, open);
      nodes := nodes + [node];
      bySource := bySource[node.fingerprint := i];
      byName := byName[package.name := i];
      assert View() == Push(old(View()), node);
    }

    method CloseNode(i: nat, ids: seq<string>, aliases: seq<Alias>, ghost open: set<int>)
      requires i !in open && Ready(open + {i})
      requires i < |nodes| && Collected(q, View(), nodes[i], DependenciesOf(nodes[i].package), ids, aliases)
      modifies this`nodes
      ensures Ready(open)
      ensures View() == Record(old(View()), i, DropRepeats(SortText(ids)), SortBy(aliases, ByAliasName()))
    {
      var dependencies := DropRepeats(SortText(ids));
      var sortedAliases := SortBy(aliases, ByAliasName());
      SortingKeepsCollected(q, View(), nodes[i], DependenciesOf(nodes[i].package), ids, aliases);
      DropRepeatsSorted(SortText(ids));
      RecordKeepsTable(q, View(), i, dependencies, sortedAliases, open);
      RecordIndexes(View(), i, dependencies, sortedAliases);
      nodes := nodes[i := nodes[i].(dependencies := dependencies, aliases := sortedAliases)];
    }

    /** A name that is taken by another source. The fingerprint is never the same here, because the
        source index would have found it: "return the existing node" cannot be reached. */
    method ReportConflict(x: Selection, package: PackageConfig, ghost open: set<int>) returns (error: ResolveError)
      requires Ready(open) && Called(q, View(), x) && q.packageOf(x) == Some(package)
      requires q.fingerprintOf(x) !in bySource && package.name in byName
      ensures byName[package.name] < |nodes| && nodes[byName[package.name]].fingerprint != q.fingerprintOf(x)
      ensures error == if nodes[byName[package.name]].package.version != package.version
                       then VersionConflict(package.name) else SourceConflict(package.name)
      ensures Explained(q, error)
    {
      assert NameEntry(View(), package.name) && Indexed(View(), byName[package.name]);
      var other := nodes[byName[package.name]];
      assert Sane(q, View(), byName[package.name]);
      ConflictExplained(q, View(), open, x, byName[package.name]);
      if other.package.version != package.version {
        return VersionConflict(package.name);
      }
      return SourceConflict(package.name);
    }

    method ResolveNode(x: Selection, ghost open: set<int>) returns (r: Result<nat, ResolveError>)
      requires Ready(open) && Called(q, View(), x)
      modifies this
      ensures r.Ok? ==> Ready(open) && GrewTo(names, old(View()), View())
      ensures r.Ok? ==> r.value < |nodes| && nodes[r.value].fingerprint == q.fingerprintOf(x)
      ensures r.Err? ==> Explained(q, r.error)
      decreases |Unnamed(names, View())|, 1
    {
      var fingerprint := q.fingerprintOf(x);
      if fingerprint in bySource {
        assert SourceEntry(View(), fingerprint);
        return Ok(bySource[fingerprint]);
      }
      CalledIsReachable(q, View(), x);
      if q.packageOf(x).None? {
        return Err(PackageMissing(x.dir));
      }
      var package := q.packageOf(x).value;
      if package.name in byName {
        var conflict := ReportConflict(x, package, open);
        return Err(conflict);
      }
      ghost var t0 := View();
      var i := AddNode(x, package, open);
      ghost var t1 := View();
      var failure, ids, aliases := ResolveDependencies(i, DependenciesOf(package), open);
      if failure.Some? {
        return Err(failure.value);
      }
      GrewTransitive(names, t0, t1, View());
      GrewRecord(names, t0, View(), i, DropRepeats(SortText(ids)), SortBy(aliases, ByAliasName()));
      CloseNode(i, ids, aliases, open);
      return Ok(i);
    }

    /** The checks made once the dependency's node is known. */
    method CheckTarget(i: nat, d: Dependency, j: nat, ghost open: set<int>) returns (failure: Option<ResolveError>)
      requires Ready(open) && Targets(q, View(), i, d, j)
      ensures failure.None? ==> Resolved(q, View(), nodes[i], d) && nodes[j].id == TargetId(q, View(), nodes[i], d)
      ensures failure.Some? ==> Explained(q, failure.value)
    {
      assert Indexed(View(), j);
      if d.package.Some? && d.package.value != nodes[j].package.name {
        TargetExplained(q, View(), open, i, d, j);
        return Some(WrongPackage(d.alias));
      }
      if nodes[j].fingerprint == nodes[i].fingerprint {
        TargetExplained(q, View(), open, i, d, j);
        return Some(SelfDependency(nodes[i].package.name));
      }
      return None;
    }

    method ResolveDependency(i: nat, d: Dependency, ghost open: set<int>) returns (failure: Option<ResolveError>, id: string)
      requires Ready(open + {i}) && i < |nodes| && DependsOn(q, nodes[i].selection, d)
      modifies this
      ensures failure.None? ==> Ready(open + {i}) && GrewTo(names, old(View()), View())
      ensures failure.None? ==> Resolved(q, View(), nodes[i], d) && id == TargetId(q, View(), nodes[i], d)
      ensures failure.Some? ==> Explained(q, failure.value)
      decreases |Unnamed(names, View())|, 2
    {
      var node := nodes[i];
      id := "";
      var selected := q.select(node.selection, d);
      if selected.Err? {
        FailureExplained(q, View(), open + {i}, i, d);
        return Some(SelectionFailed(selected.error)), "";
      }
      assert CalledBy(q, View(), selected.value, i, d);
      var resolved := ResolveNode(selected.value, open + {i});
      if resolved.Err? {
        return Some(resolved.error), "";
      }
      failure := CheckTarget(i, d, resolved.value, open + {i});
      id := nodes[resolved.value].id;
    }

    method CollectDependency(i: nat, d: Dependency, ids: seq<string>, aliases: seq<Alias>,
                             ghost done: seq<Dependency>, ghost open: set<int>)
      returns (failure: Option<ResolveError>, ids': seq<string>, aliases': seq<Alias>)
      requires Ready(open + {i}) && i < |nodes| && DependsOn(q, nodes[i].selection, d)
      requires Collected(q, View(), nodes[i], done, ids, aliases)
      modifies this
      ensures failure.None? ==> Ready(open + {i}) && GrewTo(names, old(View()), View())
      ensures failure.None? ==> Collected(q, View(), nodes[i], done + [d], ids', aliases')
      ensures failure.Some? ==> Explained(q, failure.value)
      decreases |Unnamed(names, View())|, 3
    {
      ghost var t := View();
      ghost var node := nodes[i];
      var error, id := ResolveDependency(i, d, open);
      if error.Some? {
        return error, [], [];
      }
      assert nodes[i] == node;
      ExtendsKeepsCollected(q, t, View(), node, done, ids, aliases);
      CollectOneMore(q, View(), node, done, d, ids, aliases);
      return None, ids + [id], aliases + [Alias(d.alias, id)];
    }

    method ResolveDependencies(i: nat, deps: seq<Dependency>, ghost open: set<int>)
      returns (failure: Option<ResolveError>, ids: seq<string>, aliases: seq<Alias>)
      requires Ready(open + {i}) && i !in open && i < |nodes|
      requires forall d :: d in deps ==> DependsOn(q, nodes[i].selection, d)
      modifies this
      ensures failure.None? ==> Ready(open + {i}) && GrewTo(names, old(View()), View())
      ensures failure.None? ==> Collected(q, View(), nodes[i], deps, ids, aliases)
      ensures failure.Some? ==> Explained(q, failure.value)
      decreases |Unnamed(names, View())|, 4
    {
      failure, ids, aliases := None, [], [];
      ghost var node := nodes[i];
      GrewReflexive(names, View());
      var k := 0;
      while k < |deps|
        invariant 0 <= k <= |deps| && failure.None?
        invariant Ready(open + {i}) && GrewTo(names, old(View()), View())
        invariant i < |nodes| && nodes[i] == node && Collected(q, View(), node, deps[..k], ids, aliases)
      {
        ghost var t := View();
        SubsetSize(Unnamed(names, View()), Unnamed(names, old(View())));
        failure, ids, aliases := CollectDependency(i, deps[k], ids, aliases, deps[..k], open);
        if failure.Some? {
          return;
        }
        GrewTransitive(names, old(View()), t, View());
        assert t.nodes[i] == node;
        NextPrefix(deps, k);
        k := k + 1;
      }
      assert deps[..k] == deps;
    }
  }
}
