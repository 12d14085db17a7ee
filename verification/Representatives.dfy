/** The resolver keeps one node for each fingerprint. When two reachable selections share a fingerprint the
    first one met stands for both; this module says what problem is then being solved. */
module Representatives {
  import opened Prelude
  import opened ResolverModel

  /** Which selection stands for a fingerprint. */
  type Pick = Fingerprint -> Selection

  ghost function Fold(q: Problem, pick: Pick, r: Result<Selection, ResolveError>): Result<Selection, ResolveError> {
    if r.Ok? then Ok(pick(q.fingerprintOf(r.value))) else r
  }

  ghost function FoldAll(q: Problem, pick: Pick, xs: seq<Selection>): (ys: seq<Selection>)
    ensures |ys| == |xs| && forall i :: 0 <= i < |xs| ==> ys[i] == pick(q.fingerprintOf(xs[i]))
  {
    MapSeq(xs, (x: Selection) => pick(q.fingerprintOf(x)))
  }

  /** The same problem, with every selection replaced by the one that stands for it. */
  ghost function Quotient(q: Problem, pick: Pick): Problem {
    Problem(FoldAll(q, pick, q.seeds), q.packageOf, q.fingerprintOf,
            (x: Selection, d: Dependency) => Fold(q, pick, q.select(x, d)))
  }

  ghost predicate ChosenAt(q: Problem, pick: Pick, x: Selection) {
    Reachable(q, x) ==>
      Reachable(q, pick(q.fingerprintOf(x))) && q.fingerprintOf(pick(q.fingerprintOf(x))) == q.fingerprintOf(x)
  }

  /** Every reachable fingerprint is represented by a reachable selection that has it. */
  ghost predicate Chooses(q: Problem, pick: Pick) {
    forall x {:trigger ChosenAt(q, pick, x)} :: ChosenAt(q, pick, x)
  }

  // ---------------------------------------------------------------- the quotient is unambiguous

  lemma {:induction false} QuotientWalk(q: Problem, pick: Pick, p: seq<Selection>, i: nat)
    requires Chooses(q, pick) && Walk(Quotient(q, pick), p) && i < |p|
    ensures Reachable(q, p[i]) && p[i] == pick(q.fingerprintOf(p[i]))
  {
    var q' := Quotient(q, pick);
    if i == 0 {
      var k :| 0 <= k < |q'.seeds| && q'.seeds[k] == p[0];
      ReachSeed(q, q.seeds[k]);
      assert ChosenAt(q, pick, q.seeds[k]);
    } else {
      QuotientWalk(q, pick, p, i - 1);
      assert Edge(q', p[i - 1], p[i - 1 + 1]);
      var d :| DependsOn(q', p[i - 1], d) && q'.select(p[i - 1], d) == Ok(p[i]);
      assert q'.select(p[i - 1], d) == Fold(q, pick, q.select(p[i - 1], d));
      var y := q.select(p[i - 1], d).value;
      ReachNext(q, p[i - 1], d, y);
      assert ChosenAt(q, pick, y);
    }
  }

  lemma QuotientReachable(q: Problem, pick: Pick, x: Selection)
    requires Chooses(q, pick) && Reachable(Quotient(q, pick), x)
    ensures Reachable(q, x) && x == pick(q.fingerprintOf(x))
  {
    var p :| Walk(Quotient(q, pick), p) && p[|p| - 1] == x;
    QuotientWalk(q, pick, p, |p| - 1);
  }

  /** With one selection for each fingerprint nothing is ambiguous. */
  lemma QuotientUnambiguous(q: Problem, pick: Pick)
    requires Chooses(q, pick)
    ensures !Ambiguous(Quotient(q, pick))
  {
    var q' := Quotient(q, pick);
    forall a, b | Reachable(q', a) && Reachable(q', b) && q'.fingerprintOf(a) == q'.fingerprintOf(b)
      ensures a == b
    {
      QuotientReachable(q, pick, a);
      QuotientReachable(q, pick, b);
    }
  }

  /** Two reachable selections share a fingerprint but not a package name. */
  ghost predicate Misnamed(q: Problem) {
    exists a, b :: Reachable(q, a) && Reachable(q, b) && q.fingerprintOf(a) == q.fingerprintOf(b) && !SameName(q, a, b)
  }

  /** A flaw of the quotient is a flaw of the problem, except where the representative has another name. */
  lemma QuotientFlaw(q: Problem, pick: Pick)
    requires Chooses(q, pick) && Flawed(Quotient(q, pick))
    requires forall a, d {:trigger Expected(q, a, d)} :: Expected(q, a, d)
    ensures Flawed(q) || Misnamed(q)
  {
    var q' := Quotient(q, pick);
    if a, d :| FailedSelection(q', a, d) {
      QuotientReachable(q, pick, a);
      assert FailedSelection(q, a, d);
    } else if a, d :| SelfEdge(q', a, d) {
      QuotientReachable(q, pick, a);
      TargetChosen(q, pick, a, d);
      assert SelfEdge(q, a, d);
    } else if a, b :| NameClash(q', a, b) {
      QuotientReachable(q, pick, a);
      QuotientReachable(q, pick, b);
      assert NameClash(q, a, b);
    } else {
      var a, d :| Mismatch(q', a, d);
      QuotientReachable(q, pick, a);
      TargetChosen(q, pick, a, d);
      assert Expected(q, a, d);
      var y := q.select(a, d).value;
      assert !SameName(q, y, pick(q.fingerprintOf(y)));
    }
  }

  lemma TargetChosen(q: Problem, pick: Pick, a: Selection, d: Dependency)
    requires Chooses(q, pick) && Reachable(q, a) && DependsOn(q, a, d) && q.select(a, d).Ok?
    ensures var y := q.select(a, d).value;
            && Reachable(q, y) && Reachable(q, pick(q.fingerprintOf(y)))
            && q.fingerprintOf(pick(q.fingerprintOf(y))) == q.fingerprintOf(y)
  {
    ReachNext(q, a, d, q.select(a, d).value);
    assert ChosenAt(q, pick, q.select(a, d).value);
  }

  // ---------------------------------------------------------------- choosing from what was met

  /** Some reachable selection with the fingerprint, if there is one. */
  ghost function SomeWith(q: Problem, f: Fingerprint): Selection {
    if exists x :: Reachable(q, x) && q.fingerprintOf(x) == f then
      var x :| Reachable(q, x) && q.fingerprintOf(x) == f;
      x
    else
      Selection([], Workspace)
  }

  /** The selections met so far stand for their fingerprints; for the others any will do. */
  ghost function PickFrom(q: Problem, met: map<Fingerprint, Selection>): Pick {
    (f: Fingerprint) => if f in met then met[f] else SomeWith(q, f)
  }

  ghost predicate MetAt(q: Problem, met: map<Fingerprint, Selection>, f: Fingerprint) {
    f in met ==> Reachable(q, met[f]) && q.fingerprintOf(met[f]) == f
  }

  ghost predicate Met(q: Problem, met: map<Fingerprint, Selection>) {
    forall f {:trigger MetAt(q, met, f)} :: MetAt(q, met, f)
  }

  lemma PickChooses(q: Problem, met: map<Fingerprint, Selection>)
    requires Met(q, met)
    ensures Chooses(q, PickFrom(q, met))
  {
    var pick := PickFrom(q, met);
    forall x ensures ChosenAt(q, pick, x) {
      assert MetAt(q, met, q.fingerprintOf(x));
    }
  }

  // ---------------------------------------------------------------- walks among what was met

  /** `b` stands for the target of a dependency of `a`. */
  ghost predicate Leads(q: Problem, a: Selection, b: Selection) {
    exists d :: DependsOn(q, a, d) && q.select(a, d).Ok? && q.fingerprintOf(q.select(a, d).value) == q.fingerprintOf(b)
  }

  ghost predicate StartsAt(q: Problem, x: Selection) {
    exists s :: s in q.seeds && q.fingerprintOf(s) == q.fingerprintOf(x)
  }

  ghost predicate MetWalk(q: Problem, met: set<Selection>, p: seq<Selection>) {
    && |p| >= 1 && StartsAt(q, p[0]) && (forall i :: 0 <= i < |p| ==> p[i] in met)
    && forall i :: 0 <= i < |p| - 1 ==> Leads(q, p[i], p[i + 1])
  }

  /** `x` is reached from the seeds through selections that were met. */
  ghost predicate Drawn(q: Problem, met: set<Selection>, x: Selection) {
    exists p :: MetWalk(q, met, p) && p[|p| - 1] == x
  }

  lemma DrawnSeed(q: Problem, met: set<Selection>, x: Selection)
    requires x in met && StartsAt(q, x)
    ensures Drawn(q, met, x)
  {
    assert MetWalk(q, met, [x]) && [x][|[x]| - 1] == x;
  }

  lemma DrawnNext(q: Problem, met: set<Selection>, a: Selection, b: Selection)
    requires Drawn(q, met, a) && b in met && Leads(q, a, b)
    ensures Drawn(q, met, b)
  {
    var p :| MetWalk(q, met, p) && p[|p| - 1] == a;
    var p' := p + [b];
    forall i | 0 <= i < |p'| - 1 ensures Leads(q, p'[i], p'[i + 1]) {
      assert i < |p| - 1 ==> Leads(q, p[i], p[i + 1]);
    }
    assert MetWalk(q, met, p') && p'[|p'| - 1] == b;
  }

  lemma DrawnGrows(q: Problem, met: set<Selection>, met': set<Selection>, x: Selection)
    requires Drawn(q, met, x) && met <= met'
    ensures Drawn(q, met', x)
  {
    var p :| MetWalk(q, met, p) && p[|p| - 1] == x;
    assert MetWalk(q, met', p);
  }

  /** What is drawn is reachable once everything met stands for its own fingerprint. */
  lemma DrawnIsReachable(q: Problem, pick: Pick, met: set<Selection>, x: Selection)
    requires Drawn(q, met, x) && forall y :: y in met ==> pick(q.fingerprintOf(y)) == y
    ensures Reachable(Quotient(q, pick), x)
  {
    var q' := Quotient(q, pick);
    var p :| MetWalk(q, met, p) && p[|p| - 1] == x;
    var s :| s in q.seeds && q.fingerprintOf(s) == q.fingerprintOf(p[0]);
    var k :| 0 <= k < |q.seeds| && q.seeds[k] == s;
    assert q'.seeds[k] == p[0];
    forall i | 0 <= i < |p| - 1 ensures Edge(q', p[i], p[i + 1]) {
      assert Leads(q, p[i], p[i + 1]);
      LeadsIsEdge(q, pick, p[i], p[i + 1]);
    }
    assert Walk(q', p);
  }

  lemma LeadsIsEdge(q: Problem, pick: Pick, a: Selection, b: Selection)
    requires Leads(q, a, b) && pick(q.fingerprintOf(b)) == b
    ensures Edge(Quotient(q, pick), a, b)
  {
    var d :| DependsOn(q, a, d) && q.select(a, d).Ok? && q.fingerprintOf(q.select(a, d).value) == q.fingerprintOf(b);
    assert DependsOn(Quotient(q, pick), a, d) && Quotient(q, pick).select(a, d) == Ok(b);
  }
}
