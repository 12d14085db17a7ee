/** A whole resolution, from the root manifest to the resolved graph, and what the graph means. */
module ResolvedGraph {
  import opened Prelude
  import opened Ordering
  import opened ResolverModel
  import opened Representatives
  import opened Resolver
  import PackageOrder

  /** Root ids and the packages, both in id order. */
  datatype Graph = Graph(rootIds: seq<string>, packages: seq<Node>)

  ghost function Members<T>(s: seq<T>): set<T> { set x | x in s }

  function ById(): Order<Node> { (a: Node, b: Node) => StrLe(a.id, b.id) }

  // ---------------------------------------------------------------- what a resolved graph is

  ghost predicate Represents(q: Problem, n: Node, x: Selection) {
    n.fingerprint == q.fingerprintOf(x)
  }

  ghost predicate Present(q: Problem, ns: set<Node>, x: Selection) {
    exists n :: n in ns && Represents(q, n, x)
  }

  /** The target of `d` is another package of the graph, the one it names, and its id is recorded. */
  ghost predicate Linked(q: Problem, ns: set<Node>, n: Node, d: Dependency) {
    q.select(n.selection, d).Ok? &&
    exists m :: m in ns && m != n && Represents(q, m, q.select(n.selection, d).value) &&
                (d.package.Some? ==> m.package.name == d.package.value) &&
                m.id in n.dependencies && Alias(d.alias, m.id) in n.aliases
  }

  /** `m` is the package that the declared dependency `d` of `n` finds. */
  ghost predicate Declares(q: Problem, ns: set<Node>, n: Node, d: Dependency, m: Node) {
    && m in ns && DependsOn(q, n.selection, d) && q.select(n.selection, d).Ok?
    && Represents(q, m, q.select(n.selection, d).value)
  }

  /** No id and no alias is recorded that does not come from a declared dependency. */
  ghost predicate OnlyLinks(q: Problem, ns: set<Node>, n: Node) {
    && (forall x :: x in n.dependencies ==> exists m, d :: Declares(q, ns, n, d, m) && m.id == x)
    && (forall a :: a in n.aliases ==> exists m, d :: Declares(q, ns, n, d, m) && a == Alias(d.alias, m.id))
  }

  /** Reachable packages only, containing the seeds and closed under declared dependencies. */
  ghost predicate IsClosure(q: Problem, ns: set<Node>) {
    && (forall n :: n in ns ==> NodeOk(q, n) && OnlyLinks(q, ns, n))
    && (forall x :: x in q.seeds ==> Present(q, ns, x))
    && (forall n, d :: n in ns && DependsOn(q, n.selection, d) ==> Linked(q, ns, n, d))
  }

  ghost predicate SingleVersion(ns: set<Node>) {
    forall n, m :: n in ns && m in ns && n != m ==>
      n.package.name != m.package.name && n.fingerprint != m.fingerprint && n.id != m.id
  }

  ghost predicate PlainNames(q: Problem) {
    forall x :: q.packageOf(x).Some? ==> '@' !in q.packageOf(x).value.name
  }

  // ---------------------------------------------------------------- from the table to the graph

  lemma TableDeclares(q: Problem, t: Table, i: nat, d: Dependency) returns (m: Node)
    requires TableOk(q, t, {}) && i < |t.nodes| && d in DependenciesOf(t.nodes[i].package)
    ensures Resolved(q, t, t.nodes[i], d)
    ensures Declares(q, Members(t.nodes), t.nodes[i], d, m) && m.id == TargetId(q, t, t.nodes[i], d)
  {
    var n := t.nodes[i];
    assert Sane(q, t, i) && Closed(q, t, i);
    assert Resolved(q, t, n, d);
    var f := q.fingerprintOf(q.select(n.selection, d).value);
    assert SourceEntry(t, f);
    m := At(t, f);
  }

  lemma TargetRecorded(q: Problem, t: Table, i: nat, d: Dependency)
    requires TableOk(q, t, {}) && i < |t.nodes| && d in DependenciesOf(t.nodes[i].package)
    ensures Resolved(q, t, t.nodes[i], d) && TargetId(q, t, t.nodes[i], d) in t.nodes[i].dependencies
    ensures Alias(d.alias, TargetId(q, t, t.nodes[i], d)) in t.nodes[i].aliases
  {
    assert Closed(q, t, i);
    assert Resolved(q, t, t.nodes[i], d);
  }

  lemma TableLinks(q: Problem, t: Table, n: Node, d: Dependency)
    requires TableOk(q, t, {}) && n in t.nodes && DependsOn(q, n.selection, d)
    ensures Linked(q, Members(t.nodes), n, d)
  {
    var i :| 0 <= i < |t.nodes| && t.nodes[i] == n;
    assert Sane(q, t, i);
    TargetRecorded(q, t, i, d);
    var f := q.fingerprintOf(q.select(n.selection, d).value);
    assert SourceEntry(t, f);
    var m := At(t, f);
    assert m in Members(t.nodes) && m.fingerprint == f;
  }

  lemma TableOnlyLinks(q: Problem, t: Table, n: Node)
    requires TableOk(q, t, {}) && n in t.nodes
    ensures OnlyLinks(q, Members(t.nodes), n)
  {
    var ns := Members(t.nodes);
    var i :| 0 <= i < |t.nodes| && t.nodes[i] == n;
    assert Closed(q, t, i);
    forall x | x in n.dependencies
      ensures exists m, d :: Declares(q, ns, n, d, m) && m.id == x
    {
      var d :| d in DependenciesOf(n.package) && TargetId(q, t, n, d) == x;
      var m := TableDeclares(q, t, i, d);
    }
    forall a | a in n.aliases
      ensures exists m, d :: Declares(q, ns, n, d, m) && a == Alias(d.alias, m.id)
    {
      var d :| d in DependenciesOf(n.package) && Alias(d.alias, TargetId(q, t, n, d)) == a;
      var m := TableDeclares(q, t, i, d);
    }
  }

  lemma TableIsClosure(q: Problem, t: Table)
    requires TableOk(q, t, {})
    requires forall x :: x in q.seeds ==> Present(q, Members(t.nodes), x)
    ensures IsClosure(q, Members(t.nodes))
  {
    forall n | n in t.nodes
      ensures NodeOk(q, n) && OnlyLinks(q, Members(t.nodes), n)
    {
      var i :| 0 <= i < |t.nodes| && t.nodes[i] == n;
      assert Sane(q, t, i);
      TableOnlyLinks(q, t, n);
    }
    forall n, d | n in t.nodes && DependsOn(q, n.selection, d)
      ensures Linked(q, Members(t.nodes), n, d)
    {
      TableLinks(q, t, n, d);
    }
  }

  lemma TableIsSingleVersion(q: Problem, t: Table)
    requires TableOk(q, t, {}) && PlainNames(q)
    ensures SingleVersion(Members(t.nodes))
  {
    forall n, m | n in t.nodes && m in t.nodes && n != m
      ensures n.package.name != m.package.name && n.fingerprint != m.fingerprint && n.id != m.id
    {
      var i :| 0 <= i < |t.nodes| && t.nodes[i] == n;
      var j :| 0 <= j < |t.nodes| && t.nodes[j] == m;
      assert Sane(q, t, i) && Sane(q, t, j) && Indexed(t, i) && Indexed(t, j);
      if n.id == m.id {
        LockIdNamesPackage(n.selection.origin, n.package, m.selection.origin, m.package);
      }
    }
  }

  // ---------------------------------------------------------------- the graph is the closure

  lemma WalkReaches(q: Problem, p: seq<Selection>, i: nat)
    requires Walk(q, p) && i < |p|
    ensures Reachable(q, p[i])
  {
    var front := p[..i + 1];
    forall k | 0 <= k < |front| - 1
      ensures Edge(q, front[k], front[k + 1])
    {
      assert Edge(q, p[k], p[k + 1]);
    }
    assert Walk(q, front) && front[|front| - 1] == p[i];
  }

  lemma UniqueNode(q: Problem, n: Node, x: Selection)
    requires !Ambiguous(q) && NodeOk(q, n) && Represents(q, n, x) && Reachable(q, x)
    ensures n.selection == x
  {
  }

  lemma TargetIsPresent(q: Problem, ns: set<Node>, n: Node, d: Dependency, y: Selection)
    requires Linked(q, ns, n, d) && q.select(n.selection, d) == Ok(y)
    ensures Present(q, ns, y)
  {
  }

  lemma EdgeIsPresent(q: Problem, ns: set<Node>, x: Selection, y: Selection)
    requires !Ambiguous(q) && IsClosure(q, ns) && Present(q, ns, x) && Reachable(q, x) && Edge(q, x, y)
    ensures Present(q, ns, y)
  {
    var n :| n in ns && Represents(q, n, x);
    assert NodeOk(q, n);
    UniqueNode(q, n, x);
    var d :| DependsOn(q, x, d) && q.select(x, d) == Ok(y);
    TargetIsPresent(q, ns, n, d, y);
  }

  lemma {:induction false} WalkIsPresent(q: Problem, ns: set<Node>, p: seq<Selection>, i: nat)
    requires !Ambiguous(q) && IsClosure(q, ns) && Walk(q, p) && i < |p|
    ensures Present(q, ns, p[i])
  {
    if i > 0 {
      WalkIsPresent(q, ns, p, i - 1);
      WalkReaches(q, p, i - 1);
      assert Edge(q, p[i - 1], p[i - 1 + 1]);
      EdgeIsPresent(q, ns, p[i - 1], p[i]);
    }
  }

  /** With unambiguous fingerprints the graph holds exactly the reachable selections. */
  lemma ClosureIsExact(q: Problem, ns: set<Node>, x: Selection)
    requires !Ambiguous(q) && IsClosure(q, ns)
    ensures Reachable(q, x) <==> exists n :: n in ns && n.selection == x
  {
    if Reachable(q, x) {
      var p :| Walk(q, p) && p[|p| - 1] == x;
      WalkIsPresent(q, ns, p, |p| - 1);
      var n :| n in ns && Represents(q, n, x);
      assert NodeOk(q, n);
    }
    if n :| n in ns && n.selection == x {
      assert NodeOk(q, n);
    }
  }

  lemma LinkIsClean(q: Problem, ns: set<Node>, n: Node, d: Dependency)
    requires !Ambiguous(q) && IsClosure(q, ns) && SingleVersion(ns) && n in ns && DependsOn(q, n.selection, d)
    ensures !SelfEdge(q, n.selection, d) && !Mismatch(q, n.selection, d)
  {
    assert Linked(q, ns, n, d) && NodeOk(q, n);
    var y := q.select(n.selection, d).value;
    var m :| m in ns && m != n && Represents(q, m, y) && (d.package.Some? ==> m.package.name == d.package.value);
    ReachNext(q, n.selection, d, y);
    assert NodeOk(q, m);
    UniqueNode(q, m, y);
  }

  /** A single-version closure has none of the flaws. */
  lemma ClosureIsSound(q: Problem, ns: set<Node>)
    requires !Ambiguous(q) && IsClosure(q, ns) && SingleVersion(ns)
    ensures !Flawed(q)
  {
    forall a, d | Reachable(q, a) && DependsOn(q, a, d)
      ensures !FailedSelection(q, a, d) && !SelfEdge(q, a, d) && !Mismatch(q, a, d)
    {
      ClosureIsExact(q, ns, a);
      var n :| n in ns && n.selection == a;
      assert Linked(q, ns, n, d);
      LinkIsClean(q, ns, n, d);
    }
    forall a, b | Reachable(q, a) && Reachable(q, b)
      ensures !NameClash(q, a, b)
    {
      ClosureIsExact(q, ns, a);
      ClosureIsExact(q, ns, b);
      var n :| n in ns && n.selection == a;
      var m :| m in ns && m.selection == b;
      assert NodeOk(q, n) && NodeOk(q, m);
    }
  }

  // ---------------------------------------------------------------- the closure of representatives

  lemma DeclaresFolded(q: Problem, pick: Pick, ns: set<Node>, n: Node, d: Dependency, m: Node)
    requires Chooses(q, pick) && Reachable(q, n.selection) && Declares(q, ns, n, d, m)
    ensures Declares(Quotient(q, pick), ns, n, d, m)
  {
    TargetChosen(q, pick, n.selection, d);
    assert Quotient(q, pick).select(n.selection, d) == Fold(q, pick, q.select(n.selection, d));
  }

  lemma OnlyLinksFolded(q: Problem, pick: Pick, ns: set<Node>, n: Node)
    requires Chooses(q, pick) && Reachable(q, n.selection) && OnlyLinks(q, ns, n)
    ensures OnlyLinks(Quotient(q, pick), ns, n)
  {
    var q' := Quotient(q, pick);
    forall x | x in n.dependencies ensures exists m, d :: Declares(q', ns, n, d, m) && m.id == x {
      var m, d :| Declares(q, ns, n, d, m) && m.id == x;
      DeclaresFolded(q, pick, ns, n, d, m);
    }
    forall a | a in n.aliases ensures exists m, d :: Declares(q', ns, n, d, m) && a == Alias(d.alias, m.id) {
      var m, d :| Declares(q, ns, n, d, m) && a == Alias(d.alias, m.id);
      DeclaresFolded(q, pick, ns, n, d, m);
    }
  }

  lemma LinkedFolded(q: Problem, pick: Pick, ns: set<Node>, n: Node, d: Dependency)
    requires Chooses(q, pick) && Reachable(q, n.selection) && DependsOn(q, n.selection, d) && Linked(q, ns, n, d)
    ensures Linked(Quotient(q, pick), ns, n, d)
  {
    TargetChosen(q, pick, n.selection, d);
    assert Quotient(q, pick).select(n.selection, d) == Fold(q, pick, q.select(n.selection, d));
    var m :| m in ns && m != n && Represents(q, m, q.select(n.selection, d).value) &&
             (d.package.Some? ==> m.package.name == d.package.value) &&
             m.id in n.dependencies && Alias(d.alias, m.id) in n.aliases;
    assert Represents(Quotient(q, pick), m, Quotient(q, pick).select(n.selection, d).value);
  }

  lemma SeedFolded(q: Problem, pick: Pick, x: Selection) returns (s: Selection)
    requires Chooses(q, pick) && x in Quotient(q, pick).seeds
    ensures s in q.seeds && x == pick(q.fingerprintOf(s)) && q.fingerprintOf(x) == q.fingerprintOf(s)
  {
    var k :| 0 <= k < |q.seeds| && Quotient(q, pick).seeds[k] == x;
    s := q.seeds[k];
    ReachSeed(q, s);
    assert ChosenAt(q, pick, s);
  }

  /** A closed set of nodes that stand for their fingerprints is the closure of the representatives. */
  lemma ClosureFolded(q: Problem, pick: Pick, ns: set<Node>)
    requires Chooses(q, pick) && IsClosure(q, ns)
    requires forall n :: n in ns ==> Reachable(Quotient(q, pick), n.selection)
    ensures IsClosure(Quotient(q, pick), ns)
  {
    var q' := Quotient(q, pick);
    forall n | n in ns ensures NodeOk(q', n) && OnlyLinks(q', ns, n) {
      assert NodeOk(q, n);
      OnlyLinksFolded(q, pick, ns, n);
    }
    forall x | x in q'.seeds ensures Present(q', ns, x) {
      var s := SeedFolded(q, pick, x);
      assert Present(q, ns, s);
      var n :| n in ns && Represents(q, n, s);
      assert Represents(q', n, x);
    }
    forall n, d | n in ns && DependsOn(q', n.selection, d) ensures Linked(q', ns, n, d) {
      assert NodeOk(q, n) && DependsOn(q, n.selection, d);
      LinkedFolded(q, pick, ns, n, d);
    }
  }

  lemma RootFolded(q: Problem, pick: Pick, ns: set<Node>, x: Selection, ids: seq<string>)
    requires Chooses(q, pick) && x in Quotient(q, pick).seeds
    requires forall s :: s in q.seeds ==> Rooted(q, ns, s, ids)
    ensures Rooted(Quotient(q, pick), ns, x, ids)
  {
    var s := SeedFolded(q, pick, x);
    assert Rooted(q, ns, s, ids);
    var n :| n in ns && Represents(q, n, s) && n.id in ids;
    assert Represents(Quotient(q, pick), n, x);
  }

  lemma RootIdFolded(q: Problem, pick: Pick, ns: set<Node>, id: string)
    requires Chooses(q, pick) && IsRootId(q, ns, q.seeds, id)
    ensures IsRootId(Quotient(q, pick), ns, Quotient(q, pick).seeds, id)
  {
    var q' := Quotient(q, pick);
    var n, s :| n in ns && s in q.seeds && Represents(q, n, s) && n.id == id;
    var k :| 0 <= k < |q.seeds| && q.seeds[k] == s;
    ReachSeed(q, s);
    assert ChosenAt(q, pick, s);
    assert q'.seeds[k] in q'.seeds && Represents(q', n, q'.seeds[k]);
  }

  lemma RootsFolded(q: Problem, pick: Pick, ns: set<Node>, ids: seq<string>)
    requires Chooses(q, pick) && ListsRoots(q, ns, q.seeds, ids)
    ensures ListsRoots(Quotient(q, pick), ns, Quotient(q, pick).seeds, ids)
  {
    var q' := Quotient(q, pick);
    forall x | x in q'.seeds ensures Rooted(q', ns, x, ids) {
      RootFolded(q, pick, ns, x, ids);
    }
    forall id | id in ids ensures IsRootId(q', ns, q'.seeds, id) {
      RootIdFolded(q, pick, ns, id);
    }
  }

  // ---------------------------------------------------------------- handing the graph to the planner

  function AsPackage(): Node -> PackageOrder.Package { (n: Node) => PackageOrder.Package(n.id, n.dependencies) }

  /** On a resolved graph the planner can only fail because of a dependency cycle. */
  lemma GraphNeverDangles(q: Problem, ns: seq<Node>)
    requires IsClosure(q, Members(ns))
    ensures PackageOrder.NoDangling(PackageOrder.IndexById(MapSeq(ns, AsPackage())))
  {
    var packages := MapSeq(ns, AsPackage());
    var g := PackageOrder.IndexById(packages);
    forall a, b | PackageOrder.Edge(g, a, b)
      ensures b in g
    {
      assert g[a] in packages;
      var i :| 0 <= i < |packages| && packages[i] == g[a];
      var n := ns[i];
      assert n in Members(ns) && b in n.dependencies;
      assert OnlyLinks(q, Members(ns), n);
      var m, d :| Declares(q, Members(ns), n, d, m) && m.id == b;
      var j :| 0 <= j < |ns| && ns[j] == m;
      assert packages[j].id == b;
    }
  }

  // ---------------------------------------------------------------- running the resolver

  ghost predicate Rooted(q: Problem, ns: set<Node>, x: Selection, ids: seq<string>) {
    exists n :: n in ns && Represents(q, n, x) && n.id in ids
  }

  ghost predicate IsRootId(q: Problem, ns: set<Node>, xs: seq<Selection>, id: string) {
    exists n, x :: n in ns && x in xs && Represents(q, n, x) && n.id == id
  }

  /** `ids` are exactly the ids of the packages that stand for the seeds `xs`. */
  ghost predicate ListsRoots(q: Problem, ns: set<Node>, xs: seq<Selection>, ids: seq<string>) {
    && (forall x :: x in xs ==> Rooted(q, ns, x, ids))
    && (forall id :: id in ids ==> IsRootId(q, ns, xs, id))
  }

  lemma RootsGrow(q: Problem, ns: set<Node>, ns': set<Node>, xs: seq<Selection>, ids: seq<string>, n: Node, x: Selection)
    requires ListsRoots(q, ns, xs, ids) && ns <= ns' && n in ns' && Represents(q, n, x)
    ensures ListsRoots(q, ns', xs + [x], ids + [n.id])
  {
    forall y | y in xs + [x]
      ensures Rooted(q, ns', y, ids + [n.id])
    {
      if y in xs {
        assert Rooted(q, ns, y, ids);
        var m :| m in ns && Represents(q, m, y) && m.id in ids;
        assert m in ns' && m.id in ids + [n.id];
      } else {
        assert n.id in ids + [n.id];
      }
    }
    forall id | id in ids + [n.id]
      ensures IsRootId(q, ns', xs + [x], id)
    {
      if id in ids {
        assert IsRootId(q, ns, xs, id);
        var m, y :| m in ns && y in xs && Represents(q, m, y) && m.id == id;
        assert m in ns' && y in xs + [x];
      } else {
        assert x in xs + [x];
      }
    }
  }

  lemma RootsPermuted(q: Problem, ns: set<Node>, xs: seq<Selection>, ids: seq<string>, ids': seq<string>)
    requires ListsRoots(q, ns, xs, ids) && forall id :: id in ids <==> id in ids'
    ensures ListsRoots(q, ns, xs, ids')
  {
    forall x | x in xs
      ensures Rooted(q, ns, x, ids')
    {
      assert Rooted(q, ns, x, ids);
      var m :| m in ns && Represents(q, m, x) && m.id in ids;
      assert m.id in ids';
    }
  }

  method ResolveSeed(resolver: SingleVersionResolver, x: Selection, ghost xs: seq<Selection>, ids: seq<string>)
    returns (failure: Option<ResolveError>, ids': seq<string>)
    requires resolver.Ready({}) && x in resolver.q.seeds && ListsRoots(resolver.q, Members(resolver.nodes), xs, ids)
    modifies resolver
    ensures failure.None? ==> resolver.Ready({}) && ListsRoots(resolver.q, Members(resolver.nodes), xs + [x], ids')
    ensures failure.Some? ==> Explained(resolver.q, failure.value)
  {
    ghost var before := resolver.nodes;
    var resolved := resolver.ResolveNode(x, {});
    if resolved.Err? {
      return Some(resolved.error), [];
    }
    assert Members(before) <= Members(resolver.nodes) by {
      assert before <= resolver.nodes;
    }
    var node := resolver.nodes[resolved.value];
    RootsGrow(resolver.q, Members(before), Members(resolver.nodes), xs, ids, node, x);
    return None, ids + [node.id];
  }

  method ResolveSeeds(resolver: SingleVersionResolver) returns (failure: Option<ResolveError>, ids: seq<string>)
    requires resolver.Ready({}) && resolver.nodes == []
    modifies resolver
    ensures failure.None? ==> TableOk(resolver.q, resolver.View(), {})
    ensures failure.None? ==> ListsRoots(resolver.q, Members(resolver.nodes), resolver.q.seeds, ids)
    ensures failure.Some? ==> Explained(resolver.q, failure.value)
  {
    var seeds := resolver.q.seeds;
    failure, ids := None, [];
    var k := 0;
    while k < |seeds|
      invariant 0 <= k <= |seeds| && failure.None? && resolver.Ready({})
      invariant ListsRoots(resolver.q, Members(resolver.nodes), seeds[..k], ids)
    {
      failure, ids := ResolveSeed(resolver, seeds[k], seeds[..k], ids);
      if failure.Some? {
        return;
      }
      NextPrefix(seeds, k);
      k := k + 1;
    }
    assert seeds[..k] == seeds;
  }

  lemma TableHasNoDuplicates(q: Problem, t: Table)
    requires TableOk(q, t, {})
    ensures NoDuplicates(t.nodes)
  {
    forall i, j | 0 <= i < j < |t.nodes| ensures t.nodes[i] != t.nodes[j] {
      assert Indexed(t, i) && Indexed(t, j);
    }
  }

  /** The graph is closed, holds one package for each name, and lists its roots. */
  ghost predicate Solves(q: Problem, g: Graph) {
    && IsClosure(q, Members(g.packages)) && SingleVersion(Members(g.packages)) && NoDuplicates(g.packages)
    && ListsRoots(q, Members(g.packages), q.seeds, g.rootIds)
  }

  ghost predicate SolvedChoice(q: Problem, g: Graph, pick: Pick) {
    Chooses(q, pick) && Solves(Quotient(q, pick), g)
  }

  /** A complete table solves the problem of its representatives as well. */
  lemma TableSolvesQuotient(q: Problem, t: Table, g: Graph)
    requires TableOk(q, t, {}) && Solves(q, g) && Members(g.packages) == Members(t.nodes)
    ensures exists pick :: SolvedChoice(q, g, pick)
  {
    var pick := TableChooses(q, t, {});
    forall n | n in Members(g.packages) ensures Reachable(Quotient(q, pick), n.selection) {
      assert n in t.nodes;
      var i :| 0 <= i < |t.nodes| && t.nodes[i] == n;
      NodeIsReachable(q, t, {}, pick, i);
    }
    ClosureFolded(q, pick, Members(g.packages));
    RootsFolded(q, pick, Members(g.packages), g.rootIds);
    assert SolvedChoice(q, g, pick);
  }

  lemma NodesSort(nodes: seq<Node>)
    ensures Sorted(SortBy(nodes, ById()), ById())
  {
    forall a: Node, b: Node ensures ById()(a, b) || ById()(b, a) {
      StrLeTotal(a.id, b.id);
    }
    forall a: Node, b: Node, c: Node | ById()(a, b) && ById()(b, c) ensures ById()(a, c) {
      StrLeTransitive(a.id, b.id, c.id);
    }
    SortSorts(nodes, ById());
  }

  method ResolveGraph(q: Problem, ghost names: set<string>) returns (r: Result<Graph, ResolveError>)
    requires Sound(q, names) && PlainNames(q)
    ensures r.Ok? ==> Solves(q, r.value) && exists pick :: SolvedChoice(q, r.value, pick)
    ensures r.Ok? ==> Sorted(r.value.rootIds, ByText()) && NoDuplicates(r.value.rootIds)
    ensures r.Ok? ==> Sorted(r.value.packages, ById())
    ensures r.Err? ==> Explained(q, r.error)
  {
    var resolver := new SingleVersionResolver(q, names);
    var failure, rootIds := ResolveSeeds(resolver);
    if failure.Some? {
      return Err(failure.value);
    }
    var packages := SortBy(resolver.nodes, ById());
    SortPermutes(resolver.nodes, ById());
    NodesSort(resolver.nodes);
    assert Members(packages) == Members(resolver.nodes);
    TableIsClosure(q, resolver.View());
    TableIsSingleVersion(q, resolver.View());
    TableHasNoDuplicates(q, resolver.View());
    PermutationNoDuplicates(resolver.nodes, packages);
    var roots := DropRepeats(SortText(rootIds));
    DropRepeatsKeeps(SortText(rootIds));
    DropRepeatsSorted(SortText(rootIds));
    RootsPermuted(q, Members(packages), q.seeds, rootIds, roots);
    TableSolvesQuotient(q, resolver.View(), Graph(roots, packages));
    return Ok(Graph(roots, packages));
  }

  // ---------------------------------------------------------------- from the root manifest

  function MembersOf(w: World, root: Dir): seq<RelPath> {
    if root in w.manifests && w.manifests[root].workspace.Some? then w.manifests[root].workspace.value.members else []
  }

  ghost predicate MemberOk(w: World, root: Dir, m: RelPath) {
    && root in w.manifests && w.manifests[root].workspace.Some?
    && m !in w.manifests[root].workspace.value.exclude
    && PackageAt(w, Join(root, m)).Some?
  }

  /** The root manifest loads and every workspace member is an included package. */
  ghost predicate RootOk(w: World, root: Dir) {
    root in w.manifests && forall m :: m in MembersOf(w, root) ==> MemberOk(w, root, m)
  }

  /** The top-level workspace directories: the root package and the members. */
  ghost predicate IsTop(w: World, root: Dir, d: Dir) {
    (d == root && PackageAt(w, root).Some?) || exists m :: m in MembersOf(w, root) && Join(root, m) == d
  }

  function ByDir(): Order<Selection> { (a: Selection, b: Selection) => PathLe(a.dir, b.dir) }

  datatype Seeds = Seeds(seeds: seq<Selection>, tops: set<Dir>)

  ghost predicate SeedsOf(w: World, tops: set<Dir>, seeds: seq<Selection>) {
    && (forall x :: x in seeds <==> x.origin.Workspace? && x.dir in tops)
    && (forall d :: d in tops ==> PackageAt(w, d).Some?)
  }

  method AddMembers(w: World, root: Dir, members: seq<RelPath>, exclude: seq<RelPath>, own: Seeds)
    returns (r: Result<Seeds, ResolveError>)
    requires SeedsOf(w, own.tops, own.seeds)
    ensures r.Ok? <==> forall m :: m in members ==> m !in exclude && PackageAt(w, Join(root, m)).Some?
    ensures r.Ok? ==> SeedsOf(w, r.value.tops, r.value.seeds)
    ensures r.Ok? ==> r.value.tops == own.tops + set m | m in members :: Join(root, m)
  {
    var seeds, tops := own.seeds, own.tops;
    var i := 0;
    while i < |members|
      invariant 0 <= i <= |members|
      invariant SeedsOf(w, tops, seeds)
      invariant forall m :: m in members[..i] ==> m !in exclude && PackageAt(w, Join(root, m)).Some?
      invariant tops == own.tops + set m | m in members[..i] :: Join(root, m)
    {
      var member := members[i];
      if member in exclude {
        return Err(MemberExcluded(member));
      }
      var dir := Join(root, member);
      if dir !in w.manifests {
        return Err(ManifestMissing(dir));
      }
      if PackageAt(w, dir).None? {
        return Err(PackageMissing(dir));
      }
      seeds := seeds + [Selection(dir, Workspace)];
      tops := tops + {dir};
      NextPrefix(members, i);
      i := i + 1;
    }
    assert members[..i] == members;
    return Ok(Seeds(seeds, tops));
  }

  method BuildRootSeeds(w: World, root: Dir) returns (r: Result<Seeds, ResolveError>)
    ensures r.Ok? <==> RootOk(w, root)
    ensures r.Ok? ==> SeedsOf(w, r.value.tops, r.value.seeds)
    ensures r.Ok? ==> forall d :: d in r.value.tops <==> IsTop(w, root, d)
  {
    if root !in w.manifests {
      return Err(ManifestMissing(root));
    }
    var own := if PackageAt(w, root).Some? then Seeds([Selection(root, Workspace)], {root}) else Seeds([], {});
    if w.manifests[root].workspace.None? {
      return Ok(own);
    }
    var workspace := w.manifests[root].workspace.value;
    var members := SortBy(workspace.members, ByPath());
    SortPermutes(workspace.members, ByPath());
    r := AddMembers(w, root, members, workspace.exclude, own);
    assert r.Ok? <==> RootOk(w, root) by {
      assert forall m :: MemberOk(w, root, m) <==> m !in workspace.exclude && PackageAt(w, Join(root, m)).Some?;
      assert forall m :: m in MembersOf(w, root) <==> m in members;
    }
    if r.Ok? {
      SortPermutes(r.value.seeds, ByDir());
      DropRepeatsKeeps(SortBy(r.value.seeds, ByDir()));
      r := Ok(Seeds(DropRepeats(SortBy(r.value.seeds, ByDir())), r.value.tops));
    }
  }

  /** Package names in loaded manifests have the form namespace/name. */
  ghost predicate WellNamed(w: World) {
    forall d :: d in w.manifests && w.manifests[d].package.Some? ==> '@' !in w.manifests[d].package.value.name
  }

  lemma PosedIsSound(w: World, tops: set<Dir>, seeds: seq<Selection>)
    ensures Sound(Posed(w, tops, seeds), Names(w))
    ensures WellNamed(w) ==> PlainNames(Posed(w, tops, seeds))
  {
  }

  /** Success means no flaw, failure means a flaw, and the graph is exactly the reachable set. */
  ghost predicate Decides(q: Problem, r: Result<Graph, ResolveError>) {
    && (r.Ok? <==> !Flawed(q))
    && (r.Ok? ==> forall x {:trigger Listed(q, Members(r.value.packages), x)} :: Listed(q, Members(r.value.packages), x))
  }

  /** The selection is reachable exactly when a package of the graph is it. */
  ghost predicate Listed(q: Problem, ns: set<Node>, x: Selection) {
    Reachable(q, x) <==> exists n :: n in ns && n.selection == x
  }

  ghost predicate DecidedChoice(q: Problem, r: Result<Graph, ResolveError>, pick: Pick) {
    Chooses(q, pick) && Decides(Quotient(q, pick), r)
  }

  /** What a resolution of the problem `q` must answer, in every world: for some choice of one reachable selection
      for each fingerprint it decides the problem of the representatives. */
  ghost predicate Resolves(q: Problem, r: Result<Graph, ResolveError>) {
    && (r.Ok? ==> Solves(q, r.value))
    && exists pick :: DecidedChoice(q, r, pick)
  }

  lemma SolvesDecides(q: Problem, g: Graph)
    requires !Ambiguous(q) && Solves(q, g)
    ensures Decides(q, Ok(g))
  {
    var ns := Members(g.packages);
    ClosureIsSound(q, ns);
    forall x
      ensures Listed(q, ns, x)
    {
      ClosureIsExact(q, ns, x);
    }
  }

  /** An error is a flaw of the problem itself, unless one fingerprint stands for packages of two names. */
  lemma ErrorIsGenuine(q: Problem, names: set<string>, r: Result<Graph, ResolveError>)
    requires Sound(q, names) && Resolves(q, r) && r.Err?
    ensures Flawed(q) || Misnamed(q)
  {
    var pick :| DecidedChoice(q, r, pick);
    QuotientFlaw(q, pick);
  }

  lemma OneNodeFor(q: Problem, g: Graph, n: Node, m: Node)
    requires Solves(q, g) && n in Members(g.packages) && m in Members(g.packages)
    requires q.fingerprintOf(n.selection) == q.fingerprintOf(m.selection)
    ensures n == m
  {
    assert NodeOk(q, n) && NodeOk(q, m);
  }

  lemma NodeFor(q: Problem, g: Graph, a: Selection) returns (n: Node)
    requires Decides(q, Ok(g)) && Reachable(q, a)
    ensures n in Members(g.packages) && n.selection == a
  {
    assert Listed(q, Members(g.packages), a);
    n :| n in Members(g.packages) && n.selection == a;
  }

  lemma SameSelection(q: Problem, g: Graph, a: Selection, b: Selection)
    requires Solves(q, g) && Decides(q, Ok(g)) && Reachable(q, a) && Reachable(q, b)
    requires q.fingerprintOf(a) == q.fingerprintOf(b)
    ensures a == b
  {
    var n := NodeFor(q, g, a);
    var m := NodeFor(q, g, b);
    OneNodeFor(q, g, n, m);
  }

  lemma OneNodeEach(q: Problem, g: Graph)
    requires Solves(q, g) && Decides(q, Ok(g))
    ensures !Ambiguous(q)
  {
    if a, b :| Reachable(q, a) && Reachable(q, b) && a != b && q.fingerprintOf(a) == q.fingerprintOf(b) {
      SameSelection(q, g, a, b);
    }
  }

  ghost predicate AllPackages(q: Problem) {
    forall a :: Reachable(q, a) ==> q.packageOf(a).Some?
  }

  lemma MisnamedIsAmbiguous(q: Problem)
    requires Misnamed(q) && AllPackages(q)
    ensures Ambiguous(q)
  {
    var a, b :| Reachable(q, a) && Reachable(q, b) && q.fingerprintOf(a) == q.fingerprintOf(b) && !SameName(q, a, b);
    assert a != b;
  }

  lemma SuccessDecidesExactly(q: Problem, g: Graph)
    requires Solves(q, g)
    ensures Decides(q, Ok(g)) <==> !Ambiguous(q)
  {
    if !Ambiguous(q) {
      SolvesDecides(q, g);
    }
    if Decides(q, Ok(g)) {
      OneNodeEach(q, g);
    }
  }

  /** Exactly when the answer decides the problem itself: when fingerprints are unambiguous, or when it is an error
      and there is a flaw. In particular a success does so exactly when fingerprints are unambiguous. */
  lemma DecidesExactly(q: Problem, names: set<string>, r: Result<Graph, ResolveError>)
    requires Sound(q, names) && AllPackages(q) && Resolves(q, r)
    ensures Decides(q, r) <==> !Ambiguous(q) || (r.Err? && Flawed(q))
  {
    if r.Ok? {
      SuccessDecidesExactly(q, r.value);
    } else {
      ErrorIsGenuine(q, names, r);
      if Misnamed(q) {
        MisnamedIsAmbiguous(q);
      }
    }
  }

  // ---------------------------------------------------------------- flaws that go unnoticed

  /** A reachable selection that no package of the graph is: another one stands for it, or it lies below such a one. */
  ghost predicate Skipped(q: Problem, g: Graph, x: Selection) {
    Reachable(q, x) && !exists n :: n in Members(g.packages) && n.selection == x
  }

  /** Something is wrong with a skipped selection: one of its dependencies fails, finds another package or is the
      package itself, or it has the name of a reachable package of another source. */
  ghost predicate FlawSkipped(q: Problem, g: Graph, x: Selection) {
    Skipped(q, g, x)
    && ((exists d :: FailedSelection(q, x, d)) || (exists d :: SelfEdge(q, x, d)) || (exists d :: Mismatch(q, x, d))
        || (exists y :: NameClash(q, x, y)))
  }

  lemma ListedIsClean(q: Problem, g: Graph, n: Node, d: Dependency)
    requires Solves(q, g) && n in Members(g.packages) && DependsOn(q, n.selection, d) && Expected(q, n.selection, d)
    ensures !FailedSelection(q, n.selection, d) && !SelfEdge(q, n.selection, d) && !Mismatch(q, n.selection, d)
  {
    var ns := Members(g.packages);
    assert Linked(q, ns, n, d) && NodeOk(q, n);
    var m :| m in ns && m != n && Represents(q, m, q.select(n.selection, d).value);
    assert m.fingerprint != n.fingerprint;
  }

  lemma ListedDoNotClash(q: Problem, n: Node, m: Node)
    requires NodeOk(q, n) && NodeOk(q, m) && (n != m ==> n.package.name != m.package.name)
    ensures !NameClash(q, n.selection, m.selection)
  {
  }

  lemma EdgeFlawSkipped(q: Problem, g: Graph, a: Selection, d: Dependency)
    requires Solves(q, g) && Expected(q, a, d)
    requires FailedSelection(q, a, d) || SelfEdge(q, a, d) || Mismatch(q, a, d)
    ensures FlawSkipped(q, g, a)
  {
    if n :| n in Members(g.packages) && n.selection == a {
      ListedIsClean(q, g, n, d);
      assert false;
    }
  }

  lemma OneIsSkipped(q: Problem, ns: set<Node>, a: Selection, b: Selection)
    requires NameClash(q, a, b) && SingleVersion(ns) && forall n :: n in ns ==> NodeOk(q, n)
    ensures !(exists n :: n in ns && n.selection == a) || !(exists n :: n in ns && n.selection == b)
  {
    if n, m :| n in ns && m in ns && n.selection == a && m.selection == b {
      ListedDoNotClash(q, n, m);
    }
  }

  lemma ClashSkipped(q: Problem, g: Graph, a: Selection, b: Selection)
    requires NameClash(q, a, b) && SingleVersion(Members(g.packages))
    requires forall n :: n in Members(g.packages) ==> NodeOk(q, n)
    ensures FlawSkipped(q, g, a) || FlawSkipped(q, g, b)
  {
    OneIsSkipped(q, Members(g.packages), a, b);
    if Skipped(q, g, a) {
      ClashOfSkipped(q, g, a, b);
    } else {
      ClashOfSkipped(q, g, b, a);
    }
  }

  lemma ClashOfSkipped(q: Problem, g: Graph, a: Selection, b: Selection)
    requires NameClash(q, a, b) && Skipped(q, g, a)
    ensures FlawSkipped(q, g, a)
  {
  }

  lemma FlawIsSkipped(q: Problem, names: set<string>, g: Graph) returns (x: Selection)
    requires Sound(q, names) && Solves(q, g) && Flawed(q)
    ensures FlawSkipped(q, g, x)
  {
    if a, b :| NameClash(q, a, b) {
      ClashSkipped(q, g, a, b);
      x := if FlawSkipped(q, g, a) then a else b;
    } else {
      var a, d :| FailedSelection(q, a, d) || SelfEdge(q, a, d) || Mismatch(q, a, d);
      assert Expected(q, a, d);
      EdgeFlawSkipped(q, g, a, d);
      x := a;
    }
  }

  lemma SkippedIsFlaw(q: Problem, g: Graph, x: Selection)
    requires FlawSkipped(q, g, x)
    ensures Flawed(q)
  {
  }

  /** A success is wrong about the problem itself exactly when something is wrong with a skipped selection. */
  lemma UnnoticedExactly(q: Problem, names: set<string>, g: Graph)
    requires Sound(q, names) && Solves(q, g)
    ensures Flawed(q) <==> exists x :: FlawSkipped(q, g, x)
  {
    if Flawed(q) {
      var x := FlawIsSkipped(q, names, g);
    }
    if x :| FlawSkipped(q, g, x) {
      SkippedIsFlaw(q, g, x);
    }
  }

  lemma ErrorDecides(q: Problem, error: ResolveError)
    requires Explained(q, error) && AllPackages(q)
    ensures Resolves(q, Err(error))
  {
    var pick :| FlawedChoice(q, pick);
    assert DecidedChoice(q, Err(error), pick);
  }

  lemma SolutionResolves(q: Problem, g: Graph)
    requires Solves(q, g) && exists pick :: SolvedChoice(q, g, pick)
    ensures Resolves(q, Ok(g))
  {
    var pick :| SolvedChoice(q, g, pick);
    QuotientUnambiguous(q, pick);
    SolvesDecides(Quotient(q, pick), g);
    assert DecidedChoice(q, Ok(g), pick);
  }

  method ResolvePosed(w: World, tops: set<Dir>, seeds: seq<Selection>) returns (r: Result<Graph, ResolveError>)
    requires WellNamed(w) && WellSeeded(w, tops, seeds)
    ensures Resolves(Posed(w, tops, seeds), r)
    ensures r.Err? ==> Explained(Posed(w, tops, seeds), r.error)
  {
    var q := Posed(w, tops, seeds);
    PosedIsSound(w, tops, seeds);
    NoPackageMissing(w, tops, seeds);
    r := ResolveGraph(q, Names(w));
    if r.Ok? {
      SolutionResolves(q, r.value);
    } else {
      ErrorDecides(q, r.error);
    }
  }

  /** The top-level directories and the seeds that a root manifest determines. */
  ghost predicate Roots(w: World, root: Dir, s: Seeds) {
    && WellSeeded(w, s.tops, s.seeds)
    && (forall x :: x in s.seeds <==> x.origin.Workspace? && x.dir in s.tops)
    && (forall d :: d in s.tops <==> IsTop(w, root, d))
  }

  ghost predicate SuccessRight(q: Problem, g: Graph) {
    && (Decides(q, Ok(g)) <==> !SharedArtifact(q))
    && (Flawed(q) <==> exists x :: FlawSkipped(q, g, x))
  }

  /** What is promised about one resolution. In every world it decides the problem of the representatives. A success
      decides the problem itself exactly when no two reachable checkouts of one registry artifact are in play, and a
      flaw goes unnoticed exactly when it lies with a selection that the graph skips. An error is a flaw, unless it is
      a wrong package name and a digest does not determine the content. */
  ghost predicate Answers(w: World, s: Seeds, r: Result<Graph, ResolveError>) {
    var q := Posed(w, s.tops, s.seeds);
    && Resolves(q, r)
    && (r.Ok? ==> SuccessRight(q, r.value))
    && (r.Err? && (SameContent(w) || !r.error.WrongPackage?) ==> Decides(q, r))
  }

  /** Resolving a project fails when its root is not in order; otherwise it answers as `Answers` says. */
  method ResolveSingleVersionGraph(w: World, root: Dir) returns (r: Result<Graph, ResolveError>)
    requires WellNamed(w)
    ensures !RootOk(w, root) ==> r.Err?
    ensures RootOk(w, root) ==> exists s :: Roots(w, root, s) && Answers(w, s, r)
  {
    var built := BuildRootSeeds(w, root);
    if built.Err? {
      return Err(built.error);
    }
    var s := built.value;
    r := ResolvePosed(w, s.tops, s.seeds);
    assert Roots(w, root, s);
    AnswerIsRight(w, s, r);
  }

  lemma SuccessDecides(w: World, s: Seeds, g: Graph)
    requires WellSeeded(w, s.tops, s.seeds) && Solves(Posed(w, s.tops, s.seeds), g)
    ensures Decides(Posed(w, s.tops, s.seeds), Ok(g)) <==> !SharedArtifact(Posed(w, s.tops, s.seeds))
  {
    AmbiguousExactly(w, s.tops, s.seeds);
    SuccessDecidesExactly(Posed(w, s.tops, s.seeds), g);
  }

  lemma SuccessUnnoticed(w: World, s: Seeds, g: Graph)
    requires Solves(Posed(w, s.tops, s.seeds), g)
    ensures Flawed(Posed(w, s.tops, s.seeds)) <==> exists x :: FlawSkipped(Posed(w, s.tops, s.seeds), g, x)
  {
    PosedIsSound(w, s.tops, s.seeds);
    UnnoticedExactly(Posed(w, s.tops, s.seeds), Names(w), g);
  }

  lemma SuccessIsRight(w: World, s: Seeds, g: Graph)
    requires WellSeeded(w, s.tops, s.seeds) && Solves(Posed(w, s.tops, s.seeds), g)
    ensures SuccessRight(Posed(w, s.tops, s.seeds), g)
  {
    SuccessDecides(w, s, g);
    SuccessUnnoticed(w, s, g);
  }

  lemma ErrorIsRight(w: World, s: Seeds, error: ResolveError)
    requires WellSeeded(w, s.tops, s.seeds) && Resolves(Posed(w, s.tops, s.seeds), Err(error))
    requires Explained(Posed(w, s.tops, s.seeds), error)
    ensures SameContent(w) || !error.WrongPackage? ==> Decides(Posed(w, s.tops, s.seeds), Err(error))
  {
    var q := Posed(w, s.tops, s.seeds);
    PosedIsSound(w, s.tops, s.seeds);
    NoPackageMissing(w, s.tops, s.seeds);
    ErrorIsGenuine(q, Names(w), Err(error));
    if SameContent(w) {
      SameContentNames(w, s.tops, s.seeds);
    }
  }

  lemma AnswerIsRight(w: World, s: Seeds, r: Result<Graph, ResolveError>)
    requires WellSeeded(w, s.tops, s.seeds) && Resolves(Posed(w, s.tops, s.seeds), r)
    requires r.Err? ==> Explained(Posed(w, s.tops, s.seeds), r.error)
    ensures Answers(w, s, r)
  {
    if r.Ok? {
      SuccessIsRight(w, s, r.value);
    } else {
      ErrorIsRight(w, s, r.error);
    }
  }

  lemma SameContentNames(w: World, tops: set<Dir>, seeds: seq<Selection>)
    requires WellSeeded(w, tops, seeds) && SameContent(w)
    ensures !Misnamed(Posed(w, tops, seeds))
  {
    var q := Posed(w, tops, seeds);
    forall x, y | Reachable(q, x) && Reachable(q, y) && q.fingerprintOf(x) == q.fingerprintOf(y)
      ensures SameName(q, x, y)
    {
      ReachableIsGenuine(w, tops, seeds, x);
      ReachableIsGenuine(w, tops, seeds, y);
      if x != y {
        GenuineIdentified(w, tops, x, y);
        assert SameArtifact(x, y);
      }
    }
  }

  lemma NoPackageMissing(w: World, tops: set<Dir>, seeds: seq<Selection>)
    requires WellSeeded(w, tops, seeds)
    ensures AllPackages(Posed(w, tops, seeds))
  {
    var q := Posed(w, tops, seeds);
    forall a | Reachable(q, a)
      ensures q.packageOf(a).Some?
    {
      ReachableIsGenuine(w, tops, seeds, a);
    }
  }
}
