/** The canonical lockfile printer and the rules of the loader. */
module Lockfile {
  import opened Prelude
  import opened Ordering

  datatype LockPackage = LockPackage(
    id: string, name: string, version: string, sourceKind: string,
    git: Option<string>, rev: Option<string>, registry: Option<string>, sha256: Option<string>,
    dependencies: seq<string>)

  datatype LockfileDocument = LockfileDocument(generatedBy: string, resolver: string, packages: seq<LockPackage>)

  // ---------------------------------------------------------------- printing, before a given rest

  predicate Special(c: char) { c == '"' || c == '\\' }

  /** The inside of a quoted string and its closing quote: quotes and backslashes are escaped. */
  function EscapeThen(s: string, rest: string): string {
    if s == [] then ['"'] + rest
    else (if Special(s[0]) then ['\\', s[0]] else [s[0]]) + EscapeThen(s[1..], rest)
  }

  function QuoteThen(s: string, rest: string): string { ['"'] + EscapeThen(s, rest) }

  function Line(key: string, value: string, rest: string): string {
    key + QuoteThen(value, ['\n'] + rest)
  }

  function MoreThen(items: seq<string>, rest: string): string {
    if items == [] then [']', '\n'] + rest
    else [',', ' '] + QuoteThen(items[0], MoreThen(items[1..], rest))
  }

  function ListThen(items: seq<string>, rest: string): string {
    if items == [] then [']', '\n'] + rest else QuoteThen(items[0], MoreThen(items[1..], rest))
  }

  function OrEmpty(o: Option<string>): string { if o.Some? then o.value else "" }

  const PACKAGE := "\n[[package]]\n"
  const ID := "id = "
  const NAME := "name = "
  const VERSION := "version = "
  const KIND := "source-kind = "
  const GIT := "git = "
  const REV := "rev = "
  const REGISTRY := "registry = "
  const SHA256 := "sha256 = "
  const DEPENDENCIES := "dependencies = ["
  const HEADER := "lock-version = 1\n\n[metadata]\n"
  const GENERATED := "generated-by = "
  const RESOLVER := "resolver = "

  function SourceThen(p: LockPackage, rest: string): string {
    if p.sourceKind == "git" then Line(GIT, OrEmpty(p.git), Line(REV, OrEmpty(p.rev), rest))
    else if p.sourceKind == "registry" then Line(REGISTRY, OrEmpty(p.registry), Line(SHA256, OrEmpty(p.sha256), rest))
    else rest
  }

  function DependenciesThen(p: LockPackage, rest: string): string {
    DEPENDENCIES + ListThen(SortText(p.dependencies), rest)
  }

  function BodyThen(p: LockPackage, rest: string): string {
    Line(NAME, p.name, Line(VERSION, p.version,
      Line(KIND, p.sourceKind, SourceThen(p, DependenciesThen(p, rest)))))
  }

  function PackagesThen(packages: seq<LockPackage>): string {
    if packages == [] then "" else
      PACKAGE + Line(ID, packages[0].id, BodyThen(packages[0], PackagesThen(packages[1..])))
  }

  function ById(): Order<LockPackage> { (p: LockPackage, q: LockPackage) => StrLe(p.id, q.id) }

  /** The canonical text: packages by id, dependencies in order. */
  function Text(lock: LockfileDocument): string {
    HEADER + Line(GENERATED, lock.generatedBy, Line(RESOLVER, lock.resolver, PackagesThen(SortBy(lock.packages, ById()))))
  }

  // ---------------------------------------------------------------- the text determines what was printed

  lemma {:induction false} EscapeDetermines(a: string, x: string, b: string, y: string)
    requires EscapeThen(a, x) == EscapeThen(b, y)
    ensures a == b && x == y
  {
    var t, u := EscapeThen(a, x), EscapeThen(b, y);
    if a == [] {
      assert t[0] == '"';
      assert b == [];
      assert t[1..] == x && u[1..] == y;
    } else {
      assert t[0] != '"';
      assert b != [];
      var k := if Special(a[0]) then 2 else 1;
      assert Special(a[0]) <==> t[0] == '\\';
      assert a[0] == t[k - 1] && b[0] == u[k - 1];
      assert t[k..] == EscapeThen(a[1..], x) && u[k..] == EscapeThen(b[1..], y);
      EscapeDetermines(a[1..], x, b[1..], y);
      assert a == [a[0]] + a[1..] && b == [b[0]] + b[1..];
    }
  }

  lemma PrefixCancels(key: string, x: string, y: string)
    requires key + x == key + y
    ensures x == y
  {
    assert (key + x)[|key|..] == x && (key + y)[|key|..] == y;
  }

  lemma QuoteDetermines(a: string, x: string, b: string, y: string)
    requires QuoteThen(a, x) == QuoteThen(b, y)
    ensures a == b && x == y
  {
    PrefixCancels(['"'], EscapeThen(a, x), EscapeThen(b, y));
    EscapeDetermines(a, x, b, y);
  }

  lemma LineDetermines(key: string, a: string, x: string, b: string, y: string)
    requires Line(key, a, x) == Line(key, b, y)
    ensures a == b && x == y
  {
    PrefixCancels(key, QuoteThen(a, ['\n'] + x), QuoteThen(b, ['\n'] + y));
    QuoteDetermines(a, ['\n'] + x, b, ['\n'] + y);
    PrefixCancels(['\n'], x, y);
  }

  lemma {:induction false} MoreDetermines(a: seq<string>, x: string, b: seq<string>, y: string)
    requires MoreThen(a, x) == MoreThen(b, y)
    ensures a == b && x == y
  {
    assert MoreThen(a, x)[0] == if a == [] then ']' else ',';
    assert MoreThen(b, y)[0] == if b == [] then ']' else ',';
    if a == [] {
      PrefixCancels([']', '\n'], x, y);
    } else {
      PrefixCancels([',', ' '], QuoteThen(a[0], MoreThen(a[1..], x)), QuoteThen(b[0], MoreThen(b[1..], y)));
      QuoteDetermines(a[0], MoreThen(a[1..], x), b[0], MoreThen(b[1..], y));
      MoreDetermines(a[1..], x, b[1..], y);
      assert a == [a[0]] + a[1..] && b == [b[0]] + b[1..];
    }
  }

  lemma ListDetermines(a: seq<string>, x: string, b: seq<string>, y: string)
    requires ListThen(a, x) == ListThen(b, y)
    ensures a == b && x == y
  {
    assert ListThen(a, x)[0] == if a == [] then ']' else '"';
    assert ListThen(b, y)[0] == if b == [] then ']' else '"';
    if a == [] {
      PrefixCancels([']', '\n'], x, y);
    } else {
      QuoteDetermines(a[0], MoreThen(a[1..], x), b[0], MoreThen(b[1..], y));
      MoreDetermines(a[1..], x, b[1..], y);
      assert a == [a[0]] + a[1..] && b == [b[0]] + b[1..];
    }
  }

  /** The loader's rule for the source fields: exactly those of the source kind are present. */
  ghost predicate SourceShape(p: LockPackage) {
    && (p.git.Some? <==> p.sourceKind == "git") && (p.rev.Some? <==> p.sourceKind == "git")
    && (p.registry.Some? <==> p.sourceKind == "registry") && (p.sha256.Some? <==> p.sourceKind == "registry")
  }

  /** The source fields of two packages agree. */
  ghost predicate SameSource(p: LockPackage, q: LockPackage) {
    p.git == q.git && p.rev == q.rev && p.registry == q.registry && p.sha256 == q.sha256
  }

  lemma SourceDetermines(p: LockPackage, x: string, q: LockPackage, y: string)
    requires SourceShape(p) && SourceShape(q) && p.sourceKind == q.sourceKind
    requires SourceThen(p, x) == SourceThen(q, y)
    ensures SameSource(p, q) && x == y
  {
    if p.sourceKind == "git" {
      LineDetermines(GIT, OrEmpty(p.git), Line(REV, OrEmpty(p.rev), x), OrEmpty(q.git), Line(REV, OrEmpty(q.rev), y));
      LineDetermines(REV, OrEmpty(p.rev), x, OrEmpty(q.rev), y);
    } else if p.sourceKind == "registry" {
      LineDetermines(REGISTRY, OrEmpty(p.registry), Line(SHA256, OrEmpty(p.sha256), x),
                     OrEmpty(q.registry), Line(SHA256, OrEmpty(q.sha256), y));
      LineDetermines(SHA256, OrEmpty(p.sha256), x, OrEmpty(q.sha256), y);
    }
  }

  /** A package without the order of its dependencies. */
  datatype Entry = Entry(
    id: string, name: string, version: string, sourceKind: string,
    git: Option<string>, rev: Option<string>, registry: Option<string>, sha256: Option<string>,
    dependencies: multiset<string>)

  ghost function EntryOf(p: LockPackage): Entry {
    Entry(p.id, p.name, p.version, p.sourceKind, p.git, p.rev, p.registry, p.sha256, multiset(p.dependencies))
  }

  lemma BodyDetermines(p: LockPackage, x: string, q: LockPackage, y: string)
    requires SourceShape(p) && SourceShape(q) && p.id == q.id
    requires BodyThen(p, x) == BodyThen(q, y)
    ensures EntryOf(p) == EntryOf(q) && x == y
  {
    var p4, q4 := DependenciesThen(p, x), DependenciesThen(q, y);
    var p3, q3 := SourceThen(p, p4), SourceThen(q, q4);
    var p2, q2 := Line(KIND, p.sourceKind, p3), Line(KIND, q.sourceKind, q3);
    LineDetermines(NAME, p.name, Line(VERSION, p.version, p2), q.name, Line(VERSION, q.version, q2));
    LineDetermines(VERSION, p.version, p2, q.version, q2);
    LineDetermines(KIND, p.sourceKind, p3, q.sourceKind, q3);
    SourceDetermines(p, p4, q, q4);
    PrefixCancels(DEPENDENCIES, ListThen(SortText(p.dependencies), x), ListThen(SortText(q.dependencies), y));
    ListDetermines(SortText(p.dependencies), x, SortText(q.dependencies), y);
    SortTextCanonical(p.dependencies, q.dependencies);
  }

  ghost function Entries(packages: seq<LockPackage>): (es: seq<Entry>)
    ensures |es| == |packages| && forall i :: 0 <= i < |es| ==> es[i] == EntryOf(packages[i])
  {
    if packages == [] then [] else [EntryOf(packages[0])] + Entries(packages[1..])
  }

  lemma {:induction false} PackagesDetermine(ps: seq<LockPackage>, qs: seq<LockPackage>)
    requires forall p :: p in ps || p in qs ==> SourceShape(p)
    requires PackagesThen(ps) == PackagesThen(qs)
    ensures Entries(ps) == Entries(qs)
  {
    if ps == [] || qs == [] {
      assert |PACKAGE| > 0;
    } else {
      var x, y := PackagesThen(ps[1..]), PackagesThen(qs[1..]);
      PrefixCancels(PACKAGE, Line(ID, ps[0].id, BodyThen(ps[0], x)), Line(ID, qs[0].id, BodyThen(qs[0], y)));
      LineDetermines(ID, ps[0].id, BodyThen(ps[0], x), qs[0].id, BodyThen(qs[0], y));
      BodyDetermines(ps[0], x, qs[0], y);
      PackagesDetermine(ps[1..], qs[1..]);
    }
  }

  lemma {:induction false} EntriesDetermine(ps: seq<LockPackage>, qs: seq<LockPackage>)
    requires Entries(ps) == Entries(qs)
    ensures PackagesThen(ps) == PackagesThen(qs)
  {
    assert |ps| == |qs|;
    if ps != [] {
      assert Entries(ps)[1..] == Entries(ps[1..]) && Entries(qs)[1..] == Entries(qs[1..]);
      EntriesDetermine(ps[1..], qs[1..]);
      var p, q := ps[0], qs[0];
      assert EntryOf(p) == Entries(ps)[0] == Entries(qs)[0] == EntryOf(q);
      SortTextCanonical(p.dependencies, q.dependencies);
      SameBody(p, q, PackagesThen(ps[1..]));
    }
  }

  lemma SameBody(p: LockPackage, q: LockPackage, rest: string)
    requires EntryOf(p) == EntryOf(q) && SortText(p.dependencies) == SortText(q.dependencies)
    ensures BodyThen(p, rest) == BodyThen(q, rest)
  {
  }

  // ---------------------------------------------------------------- sorting by id

  ghost function EntryById(): Order<Entry> { (e: Entry, f: Entry) => StrLe(e.id, f.id) }

  lemma {:induction false} InsertEntries(p: LockPackage, s: seq<LockPackage>)
    ensures Entries(Insert(p, s, ById())) == Insert(EntryOf(p), Entries(s), EntryById())
  {
    if s != [] && !StrLe(p.id, s[0].id) {
      InsertEntries(p, s[1..]);
      assert Entries(s)[1..] == Entries(s[1..]);
      assert Insert(p, s, ById())[1..] == Insert(p, s[1..], ById());
    }
  }

  lemma {:induction false} SortEntries(s: seq<LockPackage>)
    ensures Entries(SortBy(s, ById())) == SortBy(Entries(s), EntryById())
  {
    if s != [] {
      SortEntries(s[1..]);
      InsertEntries(s[0], SortBy(s[1..], ById()));
      assert Entries(s)[1..] == Entries(s[1..]);
    }
  }

  lemma EntryOrderOk()
    ensures TotalPreorder(EntryById())
  {
    forall e: Entry, f: Entry ensures EntryById()(e, f) || EntryById()(f, e) {
      StrLeTotal(e.id, f.id);
    }
    forall e: Entry, f: Entry, g: Entry | EntryById()(e, f) && EntryById()(f, g) ensures EntryById()(e, g) {
      StrLeTransitive(e.id, f.id, g.id);
    }
  }

  ghost predicate DistinctIds(packages: seq<LockPackage>) {
    forall i, j :: 0 <= i < j < |packages| ==> packages[i].id != packages[j].id
  }

  /** With distinct ids, sorting by id forgets exactly the order. */
  lemma SortForgetsOrder(ps: seq<LockPackage>, qs: seq<LockPackage>)
    requires DistinctIds(ps)
    ensures SortBy(Entries(ps), EntryById()) == SortBy(Entries(qs), EntryById())
       <==> multiset(Entries(ps)) == multiset(Entries(qs))
  {
    var a, b := SortBy(Entries(ps), EntryById()), SortBy(Entries(qs), EntryById());
    SortPermutes(Entries(ps), EntryById());
    SortPermutes(Entries(qs), EntryById());
    if multiset(Entries(ps)) == multiset(Entries(qs)) {
      EntryOrderOk();
      SortSorts(Entries(ps), EntryById());
      SortSorts(Entries(qs), EntryById());
      forall e | e in a ensures TiesAt(a, EntryById(), e) {
        StrLeTotal(e.id, e.id);
        forall f | f in a && EntryById()(e, f) && EntryById()(f, e) ensures e == f {
          StrLeAntisymmetric(e.id, f.id);
          SameIdSameEntry(ps, e, f);
        }
      }
      SortedUnique(a, b, EntryById());
    }
  }

  lemma SameIdSameEntry(ps: seq<LockPackage>, e: Entry, f: Entry)
    requires DistinctIds(ps) && e in Entries(ps) && f in Entries(ps) && e.id == f.id
    ensures e == f
  {
    var i :| 0 <= i < |ps| && Entries(ps)[i] == e;
    var j :| 0 <= j < |ps| && Entries(ps)[j] == f;
    assert ps[i].id == ps[j].id;
  }

  // ---------------------------------------------------------------- the main result

  /** Equal up to the order of packages and of dependencies. */
  ghost predicate SameUpToOrder(a: LockfileDocument, b: LockfileDocument) {
    && a.generatedBy == b.generatedBy && a.resolver == b.resolver
    && multiset(Entries(a.packages)) == multiset(Entries(b.packages))
  }

  ghost predicate Shaped(lock: LockfileDocument) { forall p :: p in lock.packages ==> SourceShape(p) }

  /** Two lockfiles print alike exactly when they are equal up to order. */
  lemma CanonicalText(a: LockfileDocument, b: LockfileDocument)
    requires Shaped(a) && Shaped(b) && DistinctIds(a.packages) && DistinctIds(b.packages)
    ensures Text(a) == Text(b) <==> SameUpToOrder(a, b)
  {
    var ps, qs := SortBy(a.packages, ById()), SortBy(b.packages, ById());
    SortPermutes(a.packages, ById());
    SortPermutes(b.packages, ById());
    SortEntries(a.packages);
    SortEntries(b.packages);
    SortForgetsOrder(a.packages, b.packages);
    if Text(a) == Text(b) {
      var x, y := Line(RESOLVER, a.resolver, PackagesThen(ps)), Line(RESOLVER, b.resolver, PackagesThen(qs));
      PrefixCancels(HEADER, Line(GENERATED, a.generatedBy, x), Line(GENERATED, b.generatedBy, y));
      LineDetermines(GENERATED, a.generatedBy, x, b.generatedBy, y);
      LineDetermines(RESOLVER, a.resolver, PackagesThen(ps), b.resolver, PackagesThen(qs));
      PackagesDetermine(ps, qs);
    }
    if SameUpToOrder(a, b) {
      EntriesDetermine(ps, qs);
    }
  }
}
