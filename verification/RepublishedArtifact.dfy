/** Two worlds in which one registry artifact is published twice, and so checked out at two places: in the first a
    conflict goes unnoticed, in the second a wrong package is reported although nothing is wrong. */
module RepublishedArtifact {
  import opened Prelude
  import opened Ordering
  import opened ResolverModel
  import opened Representatives
  import opened Resolver
  import opened ResolvedGraph

  // ---------------------------------------------------------------- bounding what is reachable

  ghost predicate StaysIn(q: Problem, all: set<Selection>, a: Selection, d: Dependency) {
    a in all && DependsOn(q, a, d) && q.select(a, d).Ok? ==> q.select(a, d).value in all
  }

  lemma {:induction false} WalkStaysIn(q: Problem, all: set<Selection>, p: seq<Selection>, i: nat)
    requires (forall x :: x in q.seeds ==> x in all) && (forall a, d {:trigger StaysIn(q, all, a, d)} :: StaysIn(q, all, a, d))
    requires Walk(q, p) && i < |p|
    ensures p[i] in all
  {
    if i > 0 {
      WalkStaysIn(q, all, p, i - 1);
      assert Edge(q, p[i - 1], p[i - 1 + 1]);
      var d :| DependsOn(q, p[i - 1], d) && q.select(p[i - 1], d) == Ok(p[i]);
      assert StaysIn(q, all, p[i - 1], d);
    }
  }

  lemma ReachableStaysIn(q: Problem, all: set<Selection>, x: Selection)
    requires (forall s :: s in q.seeds ==> s in all) && (forall a, d {:trigger StaysIn(q, all, a, d)} :: StaysIn(q, all, a, d))
    requires Reachable(q, x)
    ensures x in all
  {
    var p :| Walk(q, p) && p[|p| - 1] == x;
    WalkStaysIn(q, all, p, |p| - 1);
  }

  lemma InDependencies(p: PackageConfig, d: Dependency)
    ensures d in DependenciesOf(p) <==> d in p.dependencies || d in p.devDependencies
  {
    SortPermutes(p.dependencies + p.devDependencies, ByAlias());
  }

  // ---------------------------------------------------------------- the worlds

  const C1: Dir := ["c1"]
  const C2: Dir := ["c2"]
  const SUB1: Dir := ["c1", "sub"]
  const SUB2: Dir := ["c2", "sub"]

  const TOP := Selection([], Workspace)
  const FIRST := Selection(C1, Registry("registry", "digest", C1))
  const SECOND := Selection(C2, Registry("registry", "digest", C2))
  const PART1 := Selection(SUB1, Path)
  const PART2 := Selection(SUB2, Path)

  function Needs(alias: string, name: string, version: string): Dependency {
    RegistryDependency(alias, Some(name), "registry", Some(version))
  }

  function Plain(p: PackageConfig): Manifest { Manifest(Some(p), None) }

  const APP := PackageConfig("n/a", "1", [Needs("x", "n/p", "1"), Needs("y", "n/p", "2")], [])
  const LIB := PackageConfig("n/p", "1", [PathDependency("s", None, ["sub"])], [])
  const PART := PackageConfig("n/s", "1", [], [])

  function Checkout(version: string): Materialized {
    Materialized("registry", "digest", if version == "1" then C1 else C2)
  }

  /** One artifact under two versions; each checkout has a package below it. */
  function Republished(): World {
    World(map[[] := Plain(APP), C1 := Plain(LIB), C2 := Plain(LIB), SUB1 := Plain(PART), SUB2 := Plain(PART)],
          (source: string, dir: Dir) => source,
          (source: string, rev: string) => None,
          (registry: string, name: string, version: string) => Some(Checkout(version)))
  }

  /** The seeds that the root manifest gives. */
  ghost predicate OnlyTop(s: Seeds) {
    s.tops == {[]} && forall x :: x in s.seeds <==> x == TOP
  }

  lemma Checkouts(version: string)
    ensures Select(Republished(), {[]}, TOP, Needs("x", "n/p", version)) == Ok(if version == "1" then FIRST else SECOND)
    ensures Select(Republished(), {[]}, TOP, Needs("y", "n/p", version)) == Ok(if version == "1" then FIRST else SECOND)
  {
  }

  lemma Parts()
    ensures Select(Republished(), {[]}, FIRST, PathDependency("s", None, ["sub"])) == Ok(PART1)
    ensures Select(Republished(), {[]}, SECOND, PathDependency("s", None, ["sub"])) == Ok(PART2)
  {
    assert Join(C1, ["sub"]) == Join(C1 + ["sub"], []) == SUB1;
    assert Join(C2, ["sub"]) == Join(C2 + ["sub"], []) == SUB2;
  }

  // ---------------------------------------------------------------- the problem it poses

  /** A top that leads to a left and a right side, and each of these to a part. */
  ghost predicate Branches(q: Problem, top: Selection, l: Selection, r: Selection, l': Selection, r': Selection) {
    && (forall x :: x in q.seeds <==> x == top)
    && (forall d :: DependsOn(q, top, d) ==> q.select(top, d).Ok? && q.select(top, d).value in {l, r})
    && (forall d :: DependsOn(q, l, d) ==> q.select(l, d) == Ok(l'))
    && (forall d :: DependsOn(q, r, d) ==> q.select(r, d) == Ok(r'))
    && (forall d :: !DependsOn(q, l', d) && !DependsOn(q, r', d))
    && Edge(q, top, l) && Edge(q, top, r) && Edge(q, l, l') && Edge(q, r, r')
  }

  /** The two sides share a fingerprint; the others have their own. */
  ghost predicate Prints(q: Problem, top: Selection, l: Selection, r: Selection, l': Selection, r': Selection) {
    && q.fingerprintOf(l) == q.fingerprintOf(r)
    && q.fingerprintOf(top) != q.fingerprintOf(l) && q.fingerprintOf(top) != q.fingerprintOf(l')
    && q.fingerprintOf(top) != q.fingerprintOf(r') && q.fingerprintOf(l) != q.fingerprintOf(l')
    && q.fingerprintOf(l) != q.fingerprintOf(r') && q.fingerprintOf(l') != q.fingerprintOf(r')
  }

  ghost predicate Forks(q: Problem, top: Selection, l: Selection, r: Selection, l': Selection, r': Selection) {
    Branches(q, top, l, r, l', r') && Prints(q, top, l, r, l', r')
  }

  /** The names of the three levels: one for both sides, and different from each other. */
  ghost predicate Levels(q: Problem, top: Selection, l: Selection, r: Selection, l': Selection, r': Selection) {
    && SameName(q, l, r) && SameName(q, l', r')
    && q.packageOf(top).Some? && !SameName(q, top, l) && !SameName(q, top, l') && !SameName(q, l, l')
    && (forall x, d {:trigger Expected(q, x, d)} :: Expected(q, x, d))
  }

  lemma AllReachable(q: Problem, top: Selection, l: Selection, r: Selection, l': Selection, r': Selection, x: Selection)
    requires Forks(q, top, l, r, l', r')
    ensures Reachable(q, x) <==> x in {top, l, r, l', r'}
  {
    var all := {top, l, r, l', r'};
    if Reachable(q, x) {
      forall a, d ensures StaysIn(q, all, a, d) {
      }
      ReachableStaysIn(q, all, x);
    }
    ReachSeed(q, top);
    ReachEdge(q, top, l);
    ReachEdge(q, top, r);
    ReachEdge(q, l, l');
    ReachEdge(q, r, r');
  }

  lemma ReachEdge(q: Problem, a: Selection, b: Selection)
    requires Reachable(q, a) && Edge(q, a, b)
    ensures Reachable(q, b)
  {
    var d :| DependsOn(q, a, d) && q.select(a, d) == Ok(b);
    ReachNext(q, a, d, b);
  }

  /** The parts below the two sides have one name and two sources. */
  lemma ForkIsFlawed(q: Problem, top: Selection, l: Selection, r: Selection, l': Selection, r': Selection)
    requires Forks(q, top, l, r, l', r') && Levels(q, top, l, r, l', r')
    ensures Flawed(q)
  {
    AllReachable(q, top, l, r, l', r', l');
    AllReachable(q, top, l, r, l', r', r');
    assert NameClash(q, l', r');
  }

  lemma PickStays(q: Problem, pick: Pick, top: Selection, l: Selection, r: Selection, l': Selection, r': Selection, x: Selection)
    requires Forks(q, top, l, r, l', r') && Chooses(q, pick) && x in {top, l, r, l', r'}
    ensures pick(q.fingerprintOf(x)) == x || (x in {l, r} && pick(q.fingerprintOf(x)) in {l, r})
  {
    AllReachable(q, top, l, r, l', r', x);
    assert ChosenAt(q, pick, x);
    AllReachable(q, top, l, r, l', r', pick(q.fingerprintOf(x)));
  }

  // ---------------------------------------------------------------- the conflict goes unnoticed

  lemma QuotientIsSmall(q: Problem, pick: Pick, top: Selection, l: Selection, r: Selection, l': Selection, r': Selection,
                        c: Selection, c': Selection, x: Selection)
    requires Forks(q, top, l, r, l', r') && Chooses(q, pick)
    requires c == pick(q.fingerprintOf(l)) && c' == (if c == l then l' else r')
    requires Reachable(Quotient(q, pick), x)
    ensures x in {top, c, c'} && c in {l, r}
  {
    var q', all := Quotient(q, pick), {top, c, c'};
    PickStays(q, pick, top, l, r, l', r', top);
    PickStays(q, pick, top, l, r, l', r', l);
    PickStays(q, pick, top, l, r, l', r', l');
    PickStays(q, pick, top, l, r, l', r', r');
    forall a, d ensures StaysIn(q', all, a, d) {
      if a in all && DependsOn(q, a, d) {
        FoldedStays(q, pick, top, l, r, l', r', c, c', a, d);
      }
    }
    forall z | z in q'.seeds ensures z in all {
      var s := SeedFolded(q, pick, z);
    }
    ReachableStaysIn(q', all, x);
  }

  lemma FoldedStays(q: Problem, pick: Pick, top: Selection, l: Selection, r: Selection, l': Selection, r': Selection,
                    c: Selection, c': Selection, a: Selection, d: Dependency)
    requires Forks(q, top, l, r, l', r') && DependsOn(q, a, d) && a in {top, c, c'}
    requires c == pick(q.fingerprintOf(l)) && c in {l, r} && c' == (if c == l then l' else r')
    requires pick(q.fingerprintOf(l')) == l' && pick(q.fingerprintOf(r')) == r'
    ensures StaysIn(Quotient(q, pick), {top, c, c'}, a, d)
  {
    assert Quotient(q, pick).select(a, d) == Fold(q, pick, q.select(a, d));
  }

  /** Whichever side stands for both, the other part is never met. */
  lemma QuotientIsClean(q: Problem, pick: Pick, top: Selection, l: Selection, r: Selection, l': Selection, r': Selection)
    requires Forks(q, top, l, r, l', r') && Levels(q, top, l, r, l', r') && Chooses(q, pick)
    ensures !Flawed(Quotient(q, pick))
  {
    var q' := Quotient(q, pick);
    var c := pick(q.fingerprintOf(l));
    var c' := if c == l then l' else r';
    forall a, d ensures !FailedSelection(q', a, d) && !SelfEdge(q', a, d) && !Mismatch(q', a, d) {
      if Reachable(q', a) && DependsOn(q', a, d) {
        QuotientIsSmall(q, pick, top, l, r, l', r', c, c', a);
        EdgeIsClean(q, pick, top, l, r, l', r', a, d);
      }
    }
    forall a, b ensures !NameClash(q', a, b) {
      if Reachable(q', a) && Reachable(q', b) {
        QuotientIsSmall(q, pick, top, l, r, l', r', c, c', a);
        QuotientIsSmall(q, pick, top, l, r, l', r', c, c', b);
      }
    }
  }

  lemma EdgeIsClean(q: Problem, pick: Pick, top: Selection, l: Selection, r: Selection, l': Selection, r': Selection,
                    a: Selection, d: Dependency)
    requires Forks(q, top, l, r, l', r') && Levels(q, top, l, r, l', r') && Chooses(q, pick)
    requires a in {top, l, r, l', r'} && DependsOn(q, a, d)
    ensures var q' := Quotient(q, pick); !FailedSelection(q', a, d) && !SelfEdge(q', a, d) && !Mismatch(q', a, d)
  {
    var y := q.select(a, d).value;
    assert Quotient(q, pick).select(a, d) == Fold(q, pick, q.select(a, d));
    assert Expected(q, a, d);
    PickStays(q, pick, top, l, r, l', r', y);
  }

  const USE_FIRST := Needs("x", "n/p", "1")
  const USE_SECOND := Needs("y", "n/p", "2")
  const USE_PART := PathDependency("s", None, ["sub"])

  lemma Declared(d: Dependency)
    ensures d in DependenciesOf(APP) <==> d == USE_FIRST || d == USE_SECOND
    ensures d in DependenciesOf(LIB) <==> d == USE_PART
    ensures d !in DependenciesOf(PART)
  {
    InDependencies(APP, d);
    InDependencies(LIB, d);
    InDependencies(PART, d);
  }

  lemma Distinct()
    ensures C1 != C2 && SUB1 != SUB2 && C1 != SUB1 && C2 != SUB2 && C1 != SUB2 && C2 != SUB1
    ensures [] !in {C1, C2, SUB1, SUB2}
    ensures APP.name != LIB.name && APP.name != PART.name && LIB.name != PART.name
  {
    assert C1[0] != C2[0] && SUB1[0] != SUB2[0];
    assert |C1| == |C2| == 1 && |SUB1| == |SUB2| == 2;
    assert APP.name[2] == 'a' && LIB.name[2] == 'p' && PART.name[2] == 's';
  }

  lemma Packages(w: World)
    requires w == Republished()
    ensures PackageAt(w, []) == Some(APP) && PackageAt(w, C1) == PackageAt(w, C2) == Some(LIB)
    ensures PackageAt(w, SUB1) == PackageAt(w, SUB2) == Some(PART)
  {
    Distinct();
  }

  /** What the declared dependencies of each selection lead to. */
  lemma Dependencies(q: Problem, s: Seeds, d: Dependency)
    requires OnlyTop(s) && q == Posed(Republished(), s.tops, s.seeds)
    ensures DependsOn(q, TOP, d) <==> d == USE_FIRST || d == USE_SECOND
    ensures DependsOn(q, FIRST, d) <==> d == USE_PART
    ensures DependsOn(q, SECOND, d) <==> d == USE_PART
    ensures !DependsOn(q, PART1, d) && !DependsOn(q, PART2, d)
    ensures q.select(TOP, USE_FIRST) == Ok(FIRST) && q.select(TOP, USE_SECOND) == Ok(SECOND)
    ensures q.select(FIRST, USE_PART) == Ok(PART1) && q.select(SECOND, USE_PART) == Ok(PART2)
  {
    Packages(Republished());
    Declared(d);
    Checkouts("1");
    Checkouts("2");
    Parts();
  }

  lemma Edges(q: Problem, s: Seeds)
    requires OnlyTop(s) && q == Posed(Republished(), s.tops, s.seeds)
    ensures Edge(q, TOP, FIRST) && Edge(q, TOP, SECOND) && Edge(q, FIRST, PART1) && Edge(q, SECOND, PART2)
  {
    Dependencies(q, s, USE_FIRST);
    Dependencies(q, s, USE_SECOND);
    Dependencies(q, s, USE_PART);
  }

  lemma RepublishedBranches(q: Problem, s: Seeds)
    requires OnlyTop(s) && q == Posed(Republished(), s.tops, s.seeds)
    ensures Branches(q, TOP, FIRST, SECOND, PART1, PART2)
  {
    forall d
      ensures DependsOn(q, TOP, d) ==> q.select(TOP, d).Ok? && q.select(TOP, d).value in {FIRST, SECOND}
    {
      Dependencies(q, s, d);
    }
    forall d
      ensures DependsOn(q, FIRST, d) ==> q.select(FIRST, d) == Ok(PART1)
      ensures DependsOn(q, SECOND, d) ==> q.select(SECOND, d) == Ok(PART2)
      ensures !DependsOn(q, PART1, d) && !DependsOn(q, PART2, d)
    {
      Dependencies(q, s, d);
    }
    Edges(q, s);
  }

  lemma RepublishedPrints(q: Problem, s: Seeds)
    requires q == Posed(Republished(), s.tops, s.seeds)
    ensures Prints(q, TOP, FIRST, SECOND, PART1, PART2)
  {
    Distinct();
    assert Relative(C1, C1) == Relative(C2, C2);
  }

  lemma RepublishedLevels(q: Problem, s: Seeds)
    requires OnlyTop(s) && q == Posed(Republished(), s.tops, s.seeds)
    ensures Levels(q, TOP, FIRST, SECOND, PART1, PART2)
  {
    Packages(Republished());
    Distinct();
    PosedIsSound(Republished(), s.tops, s.seeds);
  }

  /** The problem is flawed, and yet every resolution of it succeeds. */
  lemma ConflictUnnoticed(s: Seeds, r: Result<Graph, ResolveError>)
    requires OnlyTop(s) && Resolves(Posed(Republished(), s.tops, s.seeds), r)
    ensures r.Ok? && Flawed(Posed(Republished(), s.tops, s.seeds))
  {
    var q := Posed(Republished(), s.tops, s.seeds);
    RepublishedBranches(q, s);
    RepublishedPrints(q, s);
    RepublishedLevels(q, s);
    ForkIsFlawed(q, TOP, FIRST, SECOND, PART1, PART2);
    var pick :| DecidedChoice(q, r, pick);
    QuotientIsClean(q, pick, TOP, FIRST, SECOND, PART1, PART2);
  }

  lemma RepublishedRoots(s: Seeds)
    ensures WellNamed(Republished()) && RootOk(Republished(), [])
    ensures Roots(Republished(), [], s) ==> OnlyTop(s)
  {
    Packages(Republished());
    assert MembersOf(Republished(), []) == [];
    forall d ensures IsTop(Republished(), [], d) <==> d == [] {
    }
  }

  /** The resolver itself answers with a graph in that world. */
  method ResolveRepublished() returns (r: Result<Graph, ResolveError>, ghost s: Seeds)
    ensures OnlyTop(s) && r.Ok? && Flawed(Posed(Republished(), s.tops, s.seeds))
  {
    RepublishedRoots(Seeds([], {}));
    r := ResolveSingleVersionGraph(Republished(), []);
    s :| Roots(Republished(), [], s) && Answers(Republished(), s, r);
    RepublishedRoots(s);
    ConflictUnnoticed(s, r);
  }

  /** Where each directory lies, seen from a checkout: itself, the part below it, the top above it, or elsewhere. */
  lemma Places(dir: Dir)
    requires dir in {[], C1, C2, SUB1, SUB2}
    ensures Relative(C1, dir) == if dir == [] then RelativeKey(1, []) else if dir == C1 then RelativeKey(0, [])
                                 else if dir == SUB1 then RelativeKey(0, ["sub"]) else RelativeKey(1, dir)
    ensures Relative(C2, dir) == if dir == [] then RelativeKey(1, []) else if dir == C2 then RelativeKey(0, [])
                                 else if dir == SUB2 then RelativeKey(0, ["sub"]) else RelativeKey(1, dir)
  {
    Distinct();
    assert C1[1..] == C2[1..] == [] && SUB1[1..] == SUB2[1..] == ["sub"];
    assert C1[0] == SUB1[0] && C2[0] == SUB2[0] && C1[0] != C2[0];
  }

  /** Nothing is wrong with the digest in that world: the two checkouts have the same content. */
  lemma RepublishedSameContent()
    ensures SameContent(Republished())
  {
    var w := Republished();
    Packages(w);
    forall x, y
      | && SameArtifact(x, y) && PackageAt(w, x.dir).Some? && PackageAt(w, y.dir).Some?
        && Fetched(w, Materialized(x.origin.registryRoot, x.origin.sha256, x.origin.snapshotRoot))
        && Fetched(w, Materialized(y.origin.registryRoot, y.origin.sha256, y.origin.snapshotRoot))
      ensures PackageAt(w, x.dir).value.name == PackageAt(w, y.dir).value.name
    {
      SamePlaceSameName(x.origin.snapshotRoot, x.dir, y.origin.snapshotRoot, y.dir);
    }
  }

  /** From a checkout the place tells the package, or the directory. */
  lemma PlaceTells(r: Dir, a: Dir)
    requires r in {C1, C2} && a in {[], C1, C2, SUB1, SUB2}
    ensures var k := Relative(r, a);
            if k == RelativeKey(1, []) then a == []
            else if k == RelativeKey(0, []) then a in {C1, C2}
            else if k == RelativeKey(0, ["sub"]) then a in {SUB1, SUB2}
            else k.rest == a
  {
    Distinct();
    Places(a);
  }

  lemma SamePlaceSameName(r: Dir, a: Dir, r': Dir, b: Dir)
    requires r in {C1, C2} && r' in {C1, C2} && Relative(r, a) == Relative(r', b)
    requires a in {[], C1, C2, SUB1, SUB2} && b in {[], C1, C2, SUB1, SUB2}
    ensures a == b || {a, b} <= {C1, C2} || {a, b} <= {SUB1, SUB2}
  {
    PlaceTells(r, a);
    PlaceTells(r', b);
  }

  // ---------------------------------------------------------------- a wrong package is reported

  const BOTH := PackageConfig("n/a", "1", [Needs("x", "n/p", "1"), Needs("y", "n/x", "2")], [])
  const ONE := PackageConfig("n/p", "1", [], [])
  const OTHER := PackageConfig("n/x", "1", [], [])
  const USE_OTHER := Needs("y", "n/x", "2")

  /** One digest whose two checkouts hold packages of different names. */
  function Mislabelled(): World {
    World(map[[] := Plain(BOTH), C1 := Plain(ONE), C2 := Plain(OTHER)],
          (source: string, dir: Dir) => source,
          (source: string, rev: string) => None,
          (registry: string, name: string, version: string) => Some(Checkout(version)))
  }

  /** A top with two dependencies that name what they find, on selections with one fingerprint. */
  ghost predicate Twins(q: Problem, top: Selection, l: Selection, r: Selection, dl: Dependency, dr: Dependency) {
    && (forall x :: x in q.seeds <==> x == top)
    && (forall d :: DependsOn(q, top, d) <==> d == dl || d == dr)
    && q.select(top, dl) == Ok(l) && q.select(top, dr) == Ok(r)
    && (forall d :: !DependsOn(q, l, d) && !DependsOn(q, r, d))
    && q.fingerprintOf(l) == q.fingerprintOf(r) && q.fingerprintOf(top) != q.fingerprintOf(l)
    && q.packageOf(top).Some? && q.packageOf(l).Some? && q.packageOf(r).Some?
    && !SameName(q, top, l) && !SameName(q, top, r) && !SameName(q, l, r)
    && dl.package == Some(q.packageOf(l).value.name) && dr.package == Some(q.packageOf(r).value.name)
  }

  lemma TwinsReachable(q: Problem, top: Selection, l: Selection, r: Selection, dl: Dependency, dr: Dependency, x: Selection)
    requires Twins(q, top, l, r, dl, dr)
    ensures Reachable(q, x) <==> x in {top, l, r}
  {
    var all := {top, l, r};
    if Reachable(q, x) {
      forall a, d ensures StaysIn(q, all, a, d) {
      }
      ReachableStaysIn(q, all, x);
    }
    ReachSeed(q, top);
    ReachNext(q, top, dl, l);
    ReachNext(q, top, dr, r);
  }

  lemma TwinsAreClean(q: Problem, top: Selection, l: Selection, r: Selection, dl: Dependency, dr: Dependency)
    requires Twins(q, top, l, r, dl, dr)
    ensures !Flawed(q)
  {
    forall a, d ensures !FailedSelection(q, a, d) && !SelfEdge(q, a, d) && !Mismatch(q, a, d) {
      TwinsReachable(q, top, l, r, dl, dr, a);
    }
    forall a, b ensures !NameClash(q, a, b) {
      TwinsReachable(q, top, l, r, dl, dr, a);
      TwinsReachable(q, top, l, r, dl, dr, b);
    }
  }

  /** Whichever stands for both, the other's dependency finds a wrong name. */
  lemma TwinsMismatch(q: Problem, pick: Pick, top: Selection, l: Selection, r: Selection, dl: Dependency, dr: Dependency)
    requires Twins(q, top, l, r, dl, dr) && Chooses(q, pick)
    ensures Flawed(Quotient(q, pick))
  {
    var q' := Quotient(q, pick);
    var c := pick(q.fingerprintOf(l));
    TwinsReachable(q, top, l, r, dl, dr, l);
    TwinsReachable(q, top, l, r, dl, dr, top);
    assert ChosenAt(q, pick, l) && ChosenAt(q, pick, top);
    TwinsReachable(q, top, l, r, dl, dr, c);
    TwinsReachable(q, top, l, r, dl, dr, pick(q.fingerprintOf(top)));
    var k :| 0 <= k < |q.seeds| && q.seeds[k] == top;
    assert q'.seeds[k] == top;
    ReachSeed(q', top);
    var d := if c == l then dr else dl;
    assert q'.select(top, d) == Fold(q, pick, q.select(top, d)) == Ok(c);
    assert DependsOn(q, top, d) && DependsOn(q', top, d);
    assert Mismatch(q', top, d);
  }

  lemma MislabelledTwins(q: Problem, s: Seeds)
    requires OnlyTop(s) && q == Posed(Mislabelled(), s.tops, s.seeds)
    ensures Twins(q, TOP, FIRST, SECOND, USE_FIRST, USE_OTHER)
  {
    var w := Mislabelled();
    Distinct();
    assert PackageAt(w, []) == Some(BOTH) && PackageAt(w, C1) == Some(ONE) && PackageAt(w, C2) == Some(OTHER);
    forall d
      ensures d in DependenciesOf(BOTH) <==> d == USE_FIRST || d == USE_OTHER
      ensures d !in DependenciesOf(ONE) && d !in DependenciesOf(OTHER)
    {
      InDependencies(BOTH, d);
      InDependencies(ONE, d);
      InDependencies(OTHER, d);
    }
    assert BOTH.name[2] == 'a' && ONE.name[2] == 'p' && OTHER.name[2] == 'x';
    assert Relative(C1, C1) == Relative(C2, C2);
  }

  /** Nothing is wrong with the closure, and yet every resolution fails. */
  lemma WrongPackageReported(s: Seeds, r: Result<Graph, ResolveError>)
    requires OnlyTop(s) && Resolves(Posed(Mislabelled(), s.tops, s.seeds), r)
    ensures r.Err? && !Flawed(Posed(Mislabelled(), s.tops, s.seeds))
  {
    var q := Posed(Mislabelled(), s.tops, s.seeds);
    MislabelledTwins(q, s);
    TwinsAreClean(q, TOP, FIRST, SECOND, USE_FIRST, USE_OTHER);
    var pick :| DecidedChoice(q, r, pick);
    TwinsMismatch(q, pick, TOP, FIRST, SECOND, USE_FIRST, USE_OTHER);
  }
}
