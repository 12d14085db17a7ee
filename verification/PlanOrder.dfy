/** Which of the possible build orders is chosen. */
module PlanOrder {
  import opened Prelude
  import opened Ordering
  import opened PackageOrder

  /** A walk along dependencies leads from `a` to `b`. */
  ghost predicate Needs(g: Graph, a: string, b: string) {
    exists p: seq<string> :: p != [] && p[0] == a && p[|p| - 1] == b && Chain(g, p)
  }

  lemma NeedsItself(g: Graph, a: string)
    ensures Needs(g, a, a)
  {
    var p := [a];
    assert p[0] == a && p[|p| - 1] == a && Chain(g, p);
  }

  lemma NeedsThrough(g: Graph, a: string, d: string, b: string)
    requires Edge(g, a, d) && Needs(g, d, b)
    ensures Needs(g, a, b)
  {
    var p: seq<string> :| p != [] && p[0] == d && p[|p| - 1] == b && Chain(g, p);
    var q := [a] + p;
    assert q[0] == a && q[|q| - 1] == b && Chain(g, q);
  }

  /** What is listed on coming to `id` is needed by it. */
  lemma {:induction false} NewIsNeeded(g: Graph, id: string, active: set<string>, order: seq<string>, x: string)
    requires x in Post(g, id, active, order) && x !in order
    ensures Needs(g, id, x)
    decreases |g.Keys - active|, 0, 0
  {
    if x == id {
      NeedsItself(g, id);
    } else {
      OneFewer(g.Keys, active, id);
      var d := NewNeededByOne(g, g[id].dependencies, active + {id}, order, x);
      NeedsThrough(g, id, g[id].dependencies[d], x);
    }
  }

  lemma {:induction false} NewNeededByOne(g: Graph, ids: seq<string>, active: set<string>, order: seq<string>, x: string)
    returns (k: nat)
    requires x in PostAll(g, ids, active, order) && x !in order
    ensures k < |ids| && Needs(g, ids[k], x)
    decreases |g.Keys - active|, 1, |ids|
  {
    var n := |ids| - 1;
    var before := PostAll(g, ids[..n], active, order);
    if x in before {
      k := NewNeededByOne(g, ids[..n], active, order, x);
    } else {
      NewIsNeeded(g, ids[n], active, before, x);
      k := n;
    }
  }

  lemma {:induction false} RootsListed(g: Graph, ids: seq<string>, k: nat)
    requires k < |ids| && ids[k] in g
    ensures ids[k] in PostAll(g, ids, {}, [])
  {
    var n := |ids| - 1;
    var before := PostAll(g, ids[..n], {}, []);
    if k < n {
      RootsListed(g, ids[..n], k);
      assert ids[..n][k] in before;
    } else {
      assert ids[n] in Post(g, ids[n], {}, before);
    }
  }

  /** The roots come in text order, and `n` of them were visited. */
  lemma {:induction false} EarlyAt(g: Graph, ids: seq<string>, n: nat, i: nat, j: nat) returns (r: string)
    requires n <= |ids| && Sorted(ids, ByText()) && forall x :: x in ids ==> x in g
    requires var order := PostAll(g, ids[..n], {}, []);
             i <= j < |order| && order[j] in ids && NoDuplicates(order)
    ensures var order := PostAll(g, ids[..n], {}, []);
            r in ids && StrLe(r, order[j]) && Needs(g, r, order[i])
  {
    var order := PostAll(g, ids[..n], {}, []);
    var before := PostAll(g, ids[..n - 1], {}, []);
    assert ids[..n][..n - 1] == ids[..n - 1];
    if j < |before| {
      assert before == order[..|before|];
      r := EarlyAt(g, ids, n - 1, i, j);
    } else {
      var k := NewNeededByOne(g, ids[..n], {}, [], order[i]);
      var m :| 0 <= m < |ids| && ids[m] == order[j];
      assert order[j] !in before by {
        assert forall at :: 0 <= at < |before| ==> before[at] == order[at];
      }
      if m < n - 1 {
        assert ids[..n - 1][m] == ids[m];
        RootsListed(g, ids[..n - 1], m);
        assert false;
      }
      r := ids[k];
      StrLeTotal(r, r);
      StrLeTotal(ids[m], ids[m]);
      assert StrLe(ids[k], ids[m]) by {
        if k < m { assert ByText()(ids[k], ids[m]); }
      }
    }
  }

  /** A package is listed before another only when something needs it that does not come later in text order: the search
      begins with the least id. */
  lemma EarlyIsNeeded(packages: seq<Package>, i: nat, j: nat)
    requires var g := IndexById(packages); var order := PostAll(g, SortText(MapSeq(packages, IdOf())), {}, []);
             BuildOrder(g, order) && i <= j < |order|
    ensures var g := IndexById(packages); var order := PostAll(g, SortText(MapSeq(packages, IdOf())), {}, []);
            exists r :: r in g && StrLe(r, order[j]) && Needs(g, r, order[i])
  {
    var g, names := IndexById(packages), MapSeq(packages, IdOf());
    var ids := SortText(names);
    var order := PostAll(g, ids, {}, []);
    forall x ensures x in ids <==> x in g {
      if x in g {
        var k :| 0 <= k < |packages| && packages[k].id == x;
        assert names[k] in names;
      }
    }
    assert ids[..|ids|] == ids && order[j] in order;
    var r := EarlyAt(g, ids, |ids|, i, j);
  }

  lemma {:induction false} MapPermuted<T, U>(a: seq<T>, b: seq<T>, f: T -> U)
    requires multiset(a) == multiset(b)
    ensures multiset(MapSeq(a, f)) == multiset(MapSeq(b, f))
  {
    if a == [] {
      EmptyAlike(b);
    } else {
      var n := |a| - 1;
      var i := WithoutLast(a, b);
      MapPermuted(a[..n], b[..i] + b[i + 1..], f);
      assert MapSeq(a, f) == MapSeq(a[..n], f) + [f(a[n])];
      assert MapSeq(b[..i] + b[i + 1..], f) == MapSeq(b[..i], f) + MapSeq(b[i + 1..], f);
      assert MapSeq(b, f) == MapSeq(b[..i], f) + [f(b[i])] + MapSeq(b[i + 1..], f);
    }
  }

  /** With distinct ids the order in which the packages are listed makes no difference. */
  lemma ListingIsForgotten(ps: seq<Package>, qs: seq<Package>)
    requires DistinctIds(ps) && multiset(ps) == multiset(qs)
    ensures IndexById(ps) == IndexById(qs) && SortText(MapSeq(ps, IdOf())) == SortText(MapSeq(qs, IdOf()))
  {
    var g, h := IndexById(ps), IndexById(qs);
    SameMultiset(ps, qs);
    forall x ensures x in g <==> x in h {
      if x in g { assert g[x] in qs; }
      if x in h { assert h[x] in ps; }
    }
    forall x | x in g ensures g[x] == h[x] {
      assert h[x] in ps;
      var i :| 0 <= i < |ps| && ps[i] == g[x];
      var j :| 0 <= j < |ps| && ps[j] == h[x];
    }
    MapPermuted(ps, qs, IdOf());
    SortTextCanonical(MapSeq(ps, IdOf()), MapSeq(qs, IdOf()));
  }
}
