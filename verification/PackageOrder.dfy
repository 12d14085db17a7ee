/** Ordering the packages of a resolved graph: a three-colour depth-first search that lists every
    package after its dependencies or reports a dependency cycle. */
module PackageOrder {
  import opened Prelude
  import opened Ordering

  datatype Package = Package(id: string, dependencies: seq<string>)

  type Graph = map<string, Package>

  datatype PlanError = Cyclic(cycle: seq<string>) | UnknownPackage(id: string)

  // ---------------------------------------------------------------- what an order is

  ghost predicate Edge(g: Graph, a: string, b: string) {
    a in g && b in g[a].dependencies
  }

  ghost predicate Chain(g: Graph, p: seq<string>) {
    forall i :: 0 <= i < |p| - 1 ==> Edge(g, p[i], p[i + 1])
  }

  /** A walk along dependencies that returns to its start. */
  ghost predicate IsCycle(g: Graph, p: seq<string>) {
    |p| >= 2 && p[0] == p[|p| - 1] && Chain(g, p)
  }

  ghost predicate Acyclic(g: Graph) {
    forall p :: !IsCycle(g, p)
  }

  ghost predicate NoDangling(g: Graph) {
    forall a, b :: Edge(g, a, b) ==> b in g
  }

  ghost predicate DependenciesFirst(g: Graph, order: seq<string>) {
    forall i :: 0 <= i < |order| ==> order[i] in g && forall d :: d in g[order[i]].dependencies ==> d in order[..i]
  }

  /** Every package exactly once, each after everything it depends on. */
  ghost predicate BuildOrder(g: Graph, order: seq<string>) {
    && NoDuplicates(order)
    && (forall x :: x in order <==> x in g)
    && DependenciesFirst(g, order)
  }

  /** Along a dependency walk positions in a build order strictly fall. */
  lemma {:induction false} WalkDescends(g: Graph, order: seq<string>, p: seq<string>, i: nat) returns (k: nat)
    requires BuildOrder(g, order) && Chain(g, p) && |p| >= 1 && p[0] in g && i < |order| && order[i] == p[0]
    ensures k < |order| && order[k] == p[|p| - 1]
    ensures |p| > 1 ==> k < i
  {
    k := i;
    if |p| > 1 {
      assert Edge(g, p[0], p[1]);
      assert p[1] in order[..i];
      var j :| 0 <= j < i && order[..i][j] == p[1];
      k := WalkDescends(g, order, p[1..], j);
    }
  }

  lemma OrderMeansAcyclic(g: Graph, order: seq<string>)
    requires BuildOrder(g, order)
    ensures Acyclic(g) && NoDangling(g)
  {
    forall p | IsCycle(g, p)
      ensures false
    {
      assert Edge(g, p[0], p[1]);
      var i :| 0 <= i < |order| && order[i] == p[0];
      var k := WalkDescends(g, order, p, i);
    }
    forall a, b | Edge(g, a, b)
      ensures b in g
    {
      var i :| 0 <= i < |order| && order[i] == a;
      assert b in order[..i];
      assert b in order;
    }
  }

  // ---------------------------------------------------------------- the order that the search makes

  lemma Fewer(ids: set<string>, id: string)
    requires id in ids
    ensures |ids - {id}| < |ids|
  {
    assert ids == (ids - {id}) + {id};
  }

  lemma OneFewer(all: set<string>, active: set<string>, id: string)
    requires id in all && id !in active
    ensures |all - (active + {id})| < |all - active|
  {
    assert all - active == (all - (active + {id})) + {id};
  }

  /** What is listed once `id` was come to with `active` on the stack, when nothing goes wrong: what it depends on in
      the order of its list, then `id` itself. */
  function Post(g: Graph, id: string, active: set<string>, order: seq<string>): (r: seq<string>)
    ensures order <= r
    decreases |g.Keys - active|, 0, 0
  {
    if id in order || id in active || id !in g then order
    else
      OneFewer(g.Keys, active, id);
      PostAll(g, g[id].dependencies, active + {id}, order) + [id]
  }

  function PostAll(g: Graph, ids: seq<string>, active: set<string>, order: seq<string>): (r: seq<string>)
    ensures order <= r
    decreases |g.Keys - active|, 1, |ids|
  {
    if ids == [] then order
    else Post(g, ids[|ids| - 1], active, PostAll(g, ids[..|ids| - 1], active, order))
  }

  // ---------------------------------------------------------------- the search

  datatype VisitState = Unseen | Active | Done

  class Search {
    const graph: Graph
    var visitState: map<string, VisitState>
    var order: seq<string>
    var stack: seq<string>

    constructor (graph: Graph)
      ensures this.graph == graph && Valid() && stack == [] && order == []
    {
      this.graph := graph;
      visitState, order, stack := map[], [], [];
    }

    function StateOf(id: string): VisitState
      reads this
    {
      if id in visitState then visitState[id] else Unseen
    }

    ghost predicate Valid()
      reads this
    {
      && NoDuplicates(stack) && NoDuplicates(order)
      && (forall x :: StateOf(x).Done? <==> x in order)
      && (forall x :: StateOf(x).Active? <==> x in stack)
      && DependenciesFirst(graph, order)
      && (forall x :: x in stack ==> x in graph)
      && Chain(graph, stack)
    }

    ghost function Unvisited(): set<string>
      reads this
    {
      set x | x in graph && StateOf(x).Unseen?
    }

    ghost function Stacked(): set<string>
      reads this
    {
      set x | x in stack
    }

    /** `id` may be visited next: it is a root, or the top of the stack depends on it. */
    ghost predicate Reached(id: string)
      reads this
    {
      if stack == [] then id in graph else Edge(graph, stack[|stack| - 1], id)
    }

    ghost predicate Explained(error: PlanError)
      reads this
    {
      match error
      case Cyclic(p) => IsCycle(graph, p)
      case UnknownPackage(u) => u !in graph && exists a :: Edge(graph, a, u)
    }

    method ReportCycle(id: string) returns (error: PlanError)
      requires Valid() && Reached(id) && id in stack
      ensures error.Cyclic? && IsCycle(graph, error.cycle)
    {
      var start := 0;
      while stack[start] != id
        invariant 0 <= start < |stack|
        invariant id !in stack[..start]
        decreases |stack| - start
      {
        assert id in stack[start + 1..];
        start := start + 1;
      }
      error := Cyclic(stack[start..] + [id]);
      forall i | 0 <= i < |error.cycle| - 1
        ensures Edge(graph, error.cycle[i], error.cycle[i + 1])
      {
        if i < |error.cycle| - 2 {
          assert Edge(graph, stack[start + i], stack[start + i + 1]);
        }
      }
    }

    method Enter(id: string)
      requires Valid() && Reached(id) && StateOf(id).Unseen? && id in graph
      modifies this`visitState, this`stack
      ensures Valid() && stack == old(stack) + [id]
      ensures Unvisited() == old(Unvisited()) - {id}
    {
      visitState := visitState[id := Active];
      stack := stack + [id];
      assert forall x :: x in stack <==> x in old(stack) || x == id;
    }

    method Leave(id: string)
      requires Valid() && stack != [] && stack[|stack| - 1] == id
      requires forall d :: d in graph[id].dependencies ==> d in order
      modifies this
      ensures Valid() && stack == old(stack)[..|old(stack)| - 1] && order == old(order) + [id]
      ensures Unvisited() == old(Unvisited())
    {
      ghost var before := stack;
      assert StateOf(id).Active? && id !in order;
      stack := stack[..|stack| - 1];
      visitState := visitState[id := Done];
      order := order + [id];
      assert before == stack + [id];
      assert forall x :: x in stack <==> x in before && x != id;
      assert forall i :: 0 <= i < |old(order)| ==> order[..i] == old(order)[..i];
    }

    /** Lists `id` after everything it depends on, or explains why that cannot be done. */
    method Visit(id: string) returns (failure: Option<PlanError>)
      requires Valid() && Reached(id)
      modifies this
      ensures failure.None? ==> Valid() && stack == old(stack) && old(order) <= order && id in order
      ensures failure.None? ==> Unvisited() <= old(Unvisited())
      ensures failure.None? ==> order == Post(graph, id, old(Stacked()), old(order))
      ensures failure.Some? ==> Explained(failure.value)
      decreases |Unvisited()|, 1
    {
      if StateOf(id).Done? {
        return None;
      }
      if StateOf(id).Active? {
        var error := ReportCycle(id);
        return Some(error);
      }
      if id !in graph {
        return Some(UnknownPackage(id));
      }
      ghost var before := Unvisited();
      ghost var path := Stacked();
      Enter(id);
      assert Stacked() == path + {id};
      Fewer(before, id);
      failure := VisitAll(id);
      if failure.None? {
        Leave(id);
      }
    }

    /** The ids before `i` in the dependencies of `id` were visited. */
    ghost predicate Listed(id: string, i: nat, start: seq<string>)
      reads this
      requires id in graph && i <= |graph[id].dependencies|
    {
      && start <= order && order == PostAll(graph, graph[id].dependencies[..i], Stacked(), start)
      && forall k :: 0 <= k < i ==> graph[id].dependencies[k] in order
    }

    method VisitNext(id: string, i: nat, ghost start: seq<string>) returns (failure: Option<PlanError>)
      requires Valid() && stack != [] && stack[|stack| - 1] == id && i < |graph[id].dependencies| && Listed(id, i, start)
      modifies this
      ensures failure.None? ==> Valid() && stack == old(stack) && Unvisited() <= old(Unvisited()) && Listed(id, i + 1, start)
      ensures failure.Some? ==> Explained(failure.value)
      decreases |Unvisited()|, 2
    {
      ghost var dependencies, was := graph[id].dependencies, order;
      assert dependencies[..i + 1][..i] == dependencies[..i];
      failure := Visit(graph[id].dependencies[i]);
      assert failure.None? ==> forall x :: x in was ==> x in order;
    }

    method VisitAll(id: string) returns (failure: Option<PlanError>)
      requires Valid() && stack != [] && stack[|stack| - 1] == id
      modifies this
      ensures failure.None? ==> Valid() && stack == old(stack) && old(order) <= order
      ensures failure.None? ==> forall d :: d in graph[id].dependencies ==> d in order
      ensures failure.None? ==> Unvisited() <= old(Unvisited())
      ensures failure.None? ==> order == PostAll(graph, graph[id].dependencies, old(Stacked()), old(order))
      ensures failure.Some? ==> Explained(failure.value)
      decreases |Unvisited()|, 3
    {
      var i := 0;
      while i < |graph[id].dependencies|
        invariant 0 <= i <= |graph[id].dependencies|
        invariant Valid() && stack == old(stack) && Listed(id, i, old(order))
        invariant Unvisited() <= old(Unvisited())
      {
        SubsetSize(Unvisited(), old(Unvisited()));
        failure := VisitNext(id, i, old(order));
        if failure.Some? {
          return;
        }
        i := i + 1;
      }
      assert graph[id].dependencies[..i] == graph[id].dependencies;
      return None;
    }
  }

  /** Visits every root in turn. */
  method VisitRoots(search: Search, ids: seq<string>) returns (failure: Option<PlanError>)
    requires search.Valid() && search.stack == [] && search.order == [] && forall x :: x in ids ==> x in search.graph
    modifies search
    ensures failure.None? ==> search.Valid() && forall k :: 0 <= k < |ids| ==> ids[k] in search.order
    ensures failure.None? ==> search.order == PostAll(search.graph, ids, {}, [])
    ensures failure.Some? ==> search.Explained(failure.value)
  {
    var i := 0;
    while i < |ids|
      invariant 0 <= i <= |ids|
      invariant search.Valid() && search.stack == []
      invariant forall k :: 0 <= k < i ==> ids[k] in search.order
      invariant search.order == PostAll(search.graph, ids[..i], {}, [])
    {
      assert ids[..i + 1][..i] == ids[..i] && search.Stacked() == {};
      ghost var was := search.order;
      assert ids[i] in ids;
      failure := search.Visit(ids[i]);
      if failure.Some? {
        return;
      }
      assert forall x :: x in was ==> x in search.order;
      i := i + 1;
    }
    assert ids[..i] == ids;
    return None;
  }

  // ---------------------------------------------------------------- the entry point

  /** Packages by id; as in the source, the first package with an id wins. */
  function IndexById(packages: seq<Package>): (g: Graph)
    ensures forall x :: x in g <==> exists i :: 0 <= i < |packages| && packages[i].id == x
    ensures forall x :: x in g ==> g[x].id == x && g[x] in packages
  {
    if packages == [] then map[] else
      var n := |packages| - 1;
      var g := IndexById(packages[..n]);
      assert forall i :: 0 <= i < n ==> packages[..n][i] == packages[i];
      if packages[n].id in g then g else g[packages[n].id := packages[n]]
  }

  ghost predicate DistinctIds(packages: seq<Package>) {
    forall i, j :: 0 <= i < j < |packages| ==> packages[i].id != packages[j].id
  }

  /** No earlier package has the same id. */
  ghost predicate IsFirst(packages: seq<Package>, i: nat) {
    i < |packages| && forall j :: 0 <= j < i ==> packages[j].id != packages[i].id
  }

  lemma {:induction false} FirstIsIndexed(packages: seq<Package>, i: nat)
    requires IsFirst(packages, i)
    ensures IndexById(packages)[packages[i].id] == packages[i]
  {
    var n := |packages| - 1;
    if i < n {
      assert packages[..n][i] == packages[i];
      FirstIsIndexed(packages[..n], i);
    }
  }

  function IdOf(): Package -> string { (p: Package) => p.id }

  method BuildPackageOrder(packages: seq<Package>) returns (r: Result<seq<string>, PlanError>)
    ensures var g := IndexById(packages);
            match r
            case Ok(order) => BuildOrder(g, order)
            case Err(Cyclic(p)) => IsCycle(g, p)
            case Err(UnknownPackage(u)) => u !in g && exists a :: Edge(g, a, u)
    ensures r.Ok? ==> r.value == PostAll(IndexById(packages), SortText(MapSeq(packages, IdOf())), {}, [])
    ensures r.Ok? <==> Acyclic(IndexById(packages)) && NoDangling(IndexById(packages))
    ensures r.Ok? && DistinctIds(packages) ==> multiset(r.value) == multiset(MapSeq(packages, IdOf()))
  {
    ghost var g := IndexById(packages);
    var search := new Search(IndexById(packages));
    var ids := SortText(MapSeq(packages, IdOf()));
    assert forall x :: x in ids ==> x in g;
    var failure := VisitRoots(search, ids);
    if failure.Some? {
      assert !Acyclic(g) || !NoDangling(g);
      return Err(failure.value);
    }
    IdsCoverGraph(packages, ids, search.order);
    OrderMeansAcyclic(g, search.order);
    return Ok(search.order);
  }

  lemma IdsCoverGraph(packages: seq<Package>, ids: seq<string>, order: seq<string>)
    requires multiset(ids) == multiset(MapSeq(packages, IdOf()))
    requires NoDuplicates(order) && DependenciesFirst(IndexById(packages), order)
    requires forall k :: 0 <= k < |ids| ==> ids[k] in order
    ensures BuildOrder(IndexById(packages), order)
    ensures DistinctIds(packages) ==> multiset(order) == multiset(MapSeq(packages, IdOf()))
  {
    var g, names := IndexById(packages), MapSeq(packages, IdOf());
    SameMultiset(ids, names);
    forall x
      ensures x in order <==> x in g
      ensures x in names <==> x in g
    {
      if x in g {
        var i :| 0 <= i < |packages| && packages[i].id == x;
        assert names[i] in names;
        assert x in ids;
      }
    }
    if DistinctIds(packages) {
      NoDuplicatesMultiset(order);
      NoDuplicatesMultiset(names);
      assert multiset(order) == multiset(names);
    }
  }
}
