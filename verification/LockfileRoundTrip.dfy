/** What a TOML reader finds in a printed lockfile: exactly the lockfile, unless a text has a control character. */
module LockfileRoundTrip {
  import opened Prelude
  import opened Ordering
  import opened Lockfile
  import opened LockfileIo
  import Decimals
  import T = Toml

  // ---------------------------------------------------------------- strings

  predicate Clear(s: string) { forall i :: 0 <= i < |s| ==> !T.Control(s[i]) }

  predicate AllClear(items: seq<string>) { forall i :: 0 <= i < |items| ==> Clear(items[i]) }

  /** A printed string reads back, and is refused exactly for a control character. */
  lemma {:induction false} BasicReads(v: string, rest: string)
    ensures T.ReadBasic(EscapeThen(v, rest)) == if Clear(v) then Some((v, rest)) else None
  {
    var t := EscapeThen(v, rest);
    if v == [] {
      assert t[0] == '"' && t[1..] == rest;
    } else {
      BasicReads(v[1..], rest);
      assert v == [v[0]] + v[1..];
      if Special(v[0]) {
        assert t[0] == '\\' && t[1] == v[0] && t[2..] == EscapeThen(v[1..], rest);
      } else {
        assert t[0] == v[0] && t[1..] == EscapeThen(v[1..], rest);
      }
    }
  }

  lemma {:induction false} ListReads(items: seq<string>, rest: string)
    requires items != []
    ensures T.ReadTexts(QuoteThen(items[0], MoreThen(items[1..], rest))) ==
            if AllClear(items) then Some((items, "\n" + rest)) else None
    decreases |items|
  {
    var more := MoreThen(items[1..], rest);
    var t := QuoteThen(items[0], more);
    assert t[0] == '"' && t[1..] == EscapeThen(items[0], more);
    assert T.After(T.SkipBlanks(t), '"') == Some(EscapeThen(items[0], more));
    BasicReads(items[0], more);
    assert items == [items[0]] + items[1..];
    if |items| == 1 {
      assert more[0] == ']' && more[1..] == "\n" + rest;
      assert T.SkipBlanks(more) == more;
    } else {
      var next := QuoteThen(items[1], MoreThen(items[2..], rest));
      assert items[1..][0] == items[1] && items[1..][1..] == items[2..];
      assert more[0] == ',' && more[1..] == [' '] + next;
      assert T.SkipBlanks(more) == more;
      BlankFirst(next);
      ListReads(items[1..], rest);
    }
  }

  lemma BlankFirst(s: string)
    ensures T.SkipBlanks([' '] + s) == T.SkipBlanks(s) && T.ReadTexts([' '] + s) == T.ReadTexts(s)
  {
    assert ([' '] + s)[1..] == s;
  }

  /** The array of a dependencies line. */
  lemma ArrayReads(items: seq<string>, rest: string)
    ensures T.ReadValue(['['] + ListThen(items, rest)) == if AllClear(items) then Some((T.Texts(items), "\n" + rest)) else None
  {
    var t := ListThen(items, rest);
    assert (['['] + t)[1..] == t;
    if items == [] {
      assert t[0] == ']' && t[1..] == "\n" + rest;
      assert T.SkipBlanks(t) == t;
    } else {
      ListReads(items, rest);
    }
  }

  lemma StringReads(v: string, rest: string)
    ensures T.ReadValue(QuoteThen(v, rest)) == if Clear(v) then Some((T.Text(v), rest)) else None
  {
    var t := QuoteThen(v, rest);
    assert t[0] == '"' && t[1..] == EscapeThen(v, rest);
    BasicReads(v, rest);
  }

  // ---------------------------------------------------------------- lines

  predicate Key(k: string) { k != "" && forall i :: 0 <= i < |k| ==> T.BareKey(k[i]) }

  lemma {:induction false} RunStops(k: string, rest: string, kind: char -> bool)
    requires (forall i :: 0 <= i < |k| ==> kind(k[i])) && (rest != [] ==> !kind(rest[0]))
    ensures T.Run(k + rest, kind) == |k|
  {
    if k == [] {
      assert k + rest == rest;
    } else {
      assert (k + rest)[1..] == k[1..] + rest;
      RunStops(k[1..], rest, kind);
    }
  }

  lemma EndReads(rest: string)
    ensures T.LineEnd("\n" + rest) == Some(rest)
  {
    assert ("\n" + rest)[1..] == rest;
    assert T.SkipBlanks("\n" + rest) == "\n" + rest;
  }

  lemma KeySplits(k: string, t: string)
    requires Key(k) && t != [] && t[0] != ' ' && t[0] != '\t'
    ensures var s := k + " = " + t;
            && T.Run(s, T.BareKey) == |k| && s[..|k|] == k && T.After(T.SkipBlanks(s[|k|..]), '=') == Some(" " + t)
            && s[0] == k[0]
  {
    var s := k + " = " + t;
    assert s == k + (" = " + t);
    RunStops(k, " = " + t, T.BareKey);
    assert s[|k|..] == " = " + t;
    assert (" = " + t)[1..] == "= " + t && ("= " + t)[1..] == " " + t;
    assert T.SkipBlanks(" = " + t) == "= " + t;
  }

  /** A key line whose value is printed as `t`, which takes up the rest of the line. */
  lemma KeyReads(k: string, t: string, v: Option<T.Value>, rest: string, d: T.Document)
    requires Key(k) && t != [] && t[0] != ' ' && t[0] != '\t'
    requires T.ReadValue(t) == if v.Some? then Some((v.value, "\n" + rest)) else None
    ensures T.ReadLines(k + " = " + t, d) ==
            if v.None? || T.Put(d, k, v.value).None? then None else T.ReadLines(rest, T.Put(d, k, v.value).value)
  {
    KeySplits(k, t);
    assert (" " + t)[1..] == t && T.SkipBlanks(" " + t) == t;
    EndReads(rest);
  }

  lemma LineReads(k: string, v: string, rest: string, d: T.Document)
    requires Key(k)
    ensures T.ReadLines(Line(k + " = ", v, rest), d) ==
            if !Clear(v) || T.Put(d, k, T.Text(v)).None? then None else T.ReadLines(rest, T.Put(d, k, T.Text(v)).value)
  {
    var t := QuoteThen(v, ['\n'] + rest);
    StringReads(v, ['\n'] + rest);
    assert t[0] == '"';
    KeyReads(k, t, if Clear(v) then Some(T.Text(v)) else None, rest, d);
  }

  // ---------------------------------------------------------------- keys

  const METADATA := "metadata"
  const PACKAGES := "package"

  const TOP: T.Table := map["lock-version" := T.Number(1)]

  /** The document of which the lines up to the last of these packages were read. */
  function At(metadata: T.Table, tables: seq<T.Table>): T.Document {
    if tables == [] then T.Document(TOP, map[METADATA := metadata], map[], T.In(METADATA))
    else T.Document(TOP, map[METADATA := metadata], map[PACKAGES := tables], T.LastOf(PACKAGES))
  }

  lemma EntryPut(m: T.Table, done: seq<T.Table>, t: T.Table, key: string, v: T.Value)
    ensures T.Put(At(m, done + [t]), key, v) == if key in t then None else Some(At(m, done + [t[key := v]]))
  {
    var d := At(m, done + [t]);
    assert d.lists[PACKAGES][|done|] == t;
    assert (done + [t])[|done| := t[key := v]] == done + [t[key := v]];
    assert map[PACKAGES := done + [t]][PACKAGES := done + [t[key := v]]] == map[PACKAGES := done + [t[key := v]]];
  }

  /** A string line of a package entry whose key is new. */
  lemma EntryLine(m: T.Table, done: seq<T.Table>, t: T.Table, k: string, v: string, rest: string)
    requires Key(k) && k !in t
    ensures T.ReadLines(Line(k + " = ", v, rest), At(m, done + [t])) ==
            if Clear(v) then T.ReadLines(rest, At(m, done + [t[k := T.Text(v)]])) else None
  {
    LineReads(k, v, rest, At(m, done + [t]));
    EntryPut(m, done, t, k, T.Text(v));
  }

  // ---------------------------------------------------------------- one package

  /** The lines up to the source kind. */
  function Named(p: LockPackage): T.Table {
    map[]["id" := T.Text(p.id)]["name" := T.Text(p.name)]["version" := T.Text(p.version)]["source-kind" := T.Text(p.sourceKind)]
  }

  function Sourced(p: LockPackage): T.Table {
    if p.sourceKind == "git" then Named(p)["git" := T.Text(OrEmpty(p.git))]["rev" := T.Text(OrEmpty(p.rev))]
    else if p.sourceKind == "registry" then
      Named(p)["registry" := T.Text(OrEmpty(p.registry))]["sha256" := T.Text(OrEmpty(p.sha256))]
    else Named(p)
  }

  function TableOf(p: LockPackage): T.Table { Sourced(p)["dependencies" := T.Texts(SortText(p.dependencies))] }

  predicate NamedClear(p: LockPackage) { Clear(p.id) && Clear(p.name) && Clear(p.version) && Clear(p.sourceKind) }

  predicate SourceClear(p: LockPackage) {
    && (p.sourceKind == "git" ==> Clear(OrEmpty(p.git)) && Clear(OrEmpty(p.rev)))
    && (p.sourceKind == "registry" ==> Clear(OrEmpty(p.registry)) && Clear(OrEmpty(p.sha256)))
  }

  predicate PackageClear(p: LockPackage) { NamedClear(p) && SourceClear(p) && AllClear(p.dependencies) }

  lemma KeysDiffer()
    ensures "id" != "name" && "id" != "version" && "name" != "version"
    ensures "source-kind" != "id" && "source-kind" != "name" && "source-kind" != "version"
  {
    assert |"id"| == 2 && |"name"| == 4 && |"version"| == 7 && |"source-kind"| == 11;
  }

  lemma SourceKeysDiffer(p: LockPackage)
    ensures "git" !in Named(p) && "rev" !in Named(p) && "git" != "rev"
    ensures "registry" !in Named(p) && "sha256" !in Named(p) && "registry" != "sha256"
    ensures "dependencies" !in Sourced(p)
  {
    assert |"id"| == 2 && |"name"| == 4 && |"version"| == 7 && |"source-kind"| == 11;
    assert |"git"| == 3 && |"rev"| == 3 && |"registry"| == 8 && |"sha256"| == 6 && |"dependencies"| == 12;
    assert "git"[0] == 'g' && "rev"[0] == 'r';
  }

  lemma TwoLines(m: T.Table, done: seq<T.Table>, t: T.Table, k: string, v: string, l: string, w: string, rest: string)
    requires Key(k) && Key(l) && k !in t && l !in t && k != l
    ensures T.ReadLines(Line(k + " = ", v, Line(l + " = ", w, rest)), At(m, done + [t])) ==
            if Clear(v) && Clear(w) then T.ReadLines(rest, At(m, done + [t[k := T.Text(v)][l := T.Text(w)]])) else None
  {
    EntryLine(m, done, t, k, v, Line(l + " = ", w, rest));
    EntryLine(m, done, t[k := T.Text(v)], l, w, rest);
  }

  lemma NamedReads(p: LockPackage, rest: string, m: T.Table, done: seq<T.Table>)
    ensures T.ReadLines(Line(ID, p.id, Line(NAME, p.name, Line(VERSION, p.version, Line(KIND, p.sourceKind, rest)))),
                        At(m, done + [map[]])) ==
            if NamedClear(p) then T.ReadLines(rest, At(m, done + [Named(p)])) else None
  {
    KeysDiffer();
    assert "id" + " = " == ID && "name" + " = " == NAME && "version" + " = " == VERSION && "source-kind" + " = " == KIND;
    var t: T.Table := map[]["id" := T.Text(p.id)]["name" := T.Text(p.name)];
    TwoLines(m, done, map[], "id", p.id, "name", p.name, Line(VERSION, p.version, Line(KIND, p.sourceKind, rest)));
    TwoLines(m, done, t, "version", p.version, "source-kind", p.sourceKind, rest);
  }

  lemma SourceReads(p: LockPackage, rest: string, m: T.Table, done: seq<T.Table>)
    ensures T.ReadLines(SourceThen(p, rest), At(m, done + [Named(p)])) ==
            if SourceClear(p) then T.ReadLines(rest, At(m, done + [Sourced(p)])) else None
  {
    SourceKeysDiffer(p);
    if p.sourceKind == "git" {
      assert "git" + " = " == GIT && "rev" + " = " == REV;
      TwoLines(m, done, Named(p), "git", OrEmpty(p.git), "rev", OrEmpty(p.rev), rest);
    } else if p.sourceKind == "registry" {
      assert "registry" + " = " == REGISTRY && "sha256" + " = " == SHA256;
      TwoLines(m, done, Named(p), "registry", OrEmpty(p.registry), "sha256", OrEmpty(p.sha256), rest);
    }
  }

  lemma ClearPermuted(items: seq<string>, others: seq<string>)
    requires forall x :: x in items <==> x in others
    ensures AllClear(items) == AllClear(others)
  {
    assert AllClear(items) <==> forall x :: x in items ==> Clear(x);
    assert AllClear(others) <==> forall x :: x in others ==> Clear(x);
  }

  lemma DependenciesKey(list: string)
    ensures Key("dependencies") && "dependencies" + " = " + (['['] + list) == DEPENDENCIES + list
  {
    assert "dependencies" + " = " + ['['] == DEPENDENCIES;
    assert "dependencies" + " = " + (['['] + list) == ("dependencies" + " = " + ['[']) + list;
  }

  lemma ListLineReads(items: seq<string>, rest: string, d: T.Document)
    ensures T.ReadLines(DEPENDENCIES + ListThen(items, rest), d) ==
            var after := T.Put(d, "dependencies", T.Texts(items));
            if !AllClear(items) || after.None? then None else T.ReadLines(rest, after.value)
  {
    var t := ['['] + ListThen(items, rest);
    ArrayReads(items, rest);
    DependenciesKey(ListThen(items, rest));
    KeyReads("dependencies", t, if AllClear(items) then Some(T.Texts(items)) else None, rest, d);
  }

  lemma DependenciesRead(p: LockPackage, rest: string, m: T.Table, done: seq<T.Table>)
    ensures T.ReadLines(DependenciesThen(p, rest), At(m, done + [Sourced(p)])) ==
            if AllClear(p.dependencies) then T.ReadLines(rest, At(m, done + [TableOf(p)])) else None
  {
    var items := SortText(p.dependencies);
    ClearPermuted(items, p.dependencies);
    SourceKeysDiffer(p);
    ListLineReads(items, rest, At(m, done + [Sourced(p)]));
    EntryPut(m, done, Sourced(p), "dependencies", T.Texts(items));
  }

  lemma BodyReads(p: LockPackage, rest: string, m: T.Table, done: seq<T.Table>)
    ensures T.ReadLines(Line(ID, p.id, BodyThen(p, rest)), At(m, done + [map[]])) ==
            if PackageClear(p) then T.ReadLines(rest, At(m, done + [TableOf(p)])) else None
  {
    NamedReads(p, SourceThen(p, DependenciesThen(p, rest)), m, done);
    SourceReads(p, DependenciesThen(p, rest), m, done);
    DependenciesRead(p, rest, m, done);
  }

  // ---------------------------------------------------------------- the whole text

  lemma BlankLine(s: string, d: T.Document)
    ensures T.ReadLines(['\n'] + s, d) == T.ReadLines(s, d)
  {
    assert (['\n'] + s)[1..] == s;
  }

  lemma TableHeaderReads(name: string, rest: string, d: T.Document)
    requires Key(name)
    ensures T.ReadLines(['['] + (name + ("]" + ("\n" + rest))), d) ==
            if T.OpenTable(d, name).None? then None else T.ReadLines(rest, T.OpenTable(d, name).value)
  {
    var s := name + ("]" + ("\n" + rest));
    assert (['['] + s)[1..] == s && (['['] + s)[1] == name[0];
    RunStops(name, "]" + ("\n" + rest), T.BareKey);
    assert s[..|name|] == name && s[|name|..] == "]" + ("\n" + rest);
    assert ("]" + ("\n" + rest))[1..] == "\n" + rest;
    EndReads(rest);
  }

  lemma EntryHeaderReads(name: string, rest: string, d: T.Document)
    requires Key(name)
    ensures T.ReadLines("[[" + (name + ("]]" + ("\n" + rest))), d) ==
            if T.OpenEntry(d, name).None? then None else T.ReadLines(rest, T.OpenEntry(d, name).value)
  {
    var s := name + ("]]" + ("\n" + rest));
    assert ("[[" + s)[2..] == s;
    RunStops(name, "]]" + ("\n" + rest), T.BareKey);
    assert s[..|name|] == name && s[|name|..] == "]]" + ("\n" + rest);
    assert ("]]" + ("\n" + rest))[1..] == "]" + ("\n" + rest) && ("]" + ("\n" + rest))[1..] == "\n" + rest;
    EndReads(rest);
  }

  lemma PackageOpens(m: T.Table, done: seq<T.Table>)
    ensures T.OpenEntry(At(m, done), PACKAGES) == Some(At(m, done + [map[]]))
  {
    assert |METADATA| == 8 && |PACKAGES| == 7 && |"lock-version"| == 12;
    if done != [] {
      assert map[PACKAGES := done][PACKAGES := done + [map[]]] == map[PACKAGES := done + [map[]]];
    } else {
      assert done + [map[]] == [map[]];
    }
  }

  lemma PackageHeaderReads(rest: string, m: T.Table, done: seq<T.Table>)
    ensures T.ReadLines(PACKAGE + rest, At(m, done)) == T.ReadLines(rest, At(m, done + [map[]]))
  {
    var s := "[[" + (PACKAGES + ("]]" + ("\n" + rest)));
    assert PACKAGE + rest == ['\n'] + s;
    BlankLine(s, At(m, done));
    PackageOpens(m, done);
    EntryHeaderReads(PACKAGES, rest, At(m, done));
  }

  function TablesOf(ps: seq<LockPackage>): (ts: seq<T.Table>)
    ensures |ts| == |ps| && forall i :: 0 <= i < |ts| ==> ts[i] == TableOf(ps[i])
  {
    if ps == [] then [] else [TableOf(ps[0])] + TablesOf(ps[1..])
  }

  lemma PackageReads(p: LockPackage, rest: string, m: T.Table, done: seq<T.Table>)
    ensures T.ReadLines(PACKAGE + Line(ID, p.id, BodyThen(p, rest)), At(m, done)) ==
            if PackageClear(p) then T.ReadLines(rest, At(m, done + [TableOf(p)])) else None
  {
    PackageHeaderReads(Line(ID, p.id, BodyThen(p, rest)), m, done);
    BodyReads(p, rest, m, done);
  }

  predicate PackagesClear(ps: seq<LockPackage>) { forall p :: p in ps ==> PackageClear(p) }

  lemma ClearSplits(ps: seq<LockPackage>)
    requires ps != []
    ensures PackagesClear(ps) == (PackageClear(ps[0]) && PackagesClear(ps[1..]))
  {
    assert ps == [ps[0]] + ps[1..];
  }

  lemma TablesJoin(ps: seq<LockPackage>, done: seq<T.Table>)
    requires ps != []
    ensures (done + [TableOf(ps[0])]) + TablesOf(ps[1..]) == done + TablesOf(ps)
  {
  }

  lemma {:induction false} PackagesRead(ps: seq<LockPackage>, m: T.Table, done: seq<T.Table>)
    ensures T.ReadLines(PackagesThen(ps), At(m, done)) ==
            if PackagesClear(ps) then Some(At(m, done + TablesOf(ps))) else None
  {
    if ps == [] {
      assert done + [] == done;
    } else {
      PackageReads(ps[0], PackagesThen(ps[1..]), m, done);
      PackagesRead(ps[1..], m, done + [TableOf(ps[0])]);
      TablesJoin(ps, done);
      ClearSplits(ps);
    }
  }

  lemma NumberReads(next: string)
    ensures T.ReadValue("1" + ("\n" + next)) == Some((T.Number(1), "\n" + next))
  {
    var t := "1" + ("\n" + next);
    assert t[0] == '1' && t[1..] == "\n" + next && t[..1] == "1";
    RunStops("1", "\n" + next, T.Digit);
    assert Decimals.Value("1") == 1;
  }

  lemma MetadataOpens()
    ensures var d := T.Document(TOP, map[], map[], T.Top);
            T.Put(T.EMPTY, "lock-version", T.Number(1)) == Some(d) && T.OpenTable(d, METADATA) == Some(At(map[], []))
  {
    assert |METADATA| == 8 && |"lock-version"| == 12;
  }

  lemma HeaderSplits(rest: string)
    ensures HEADER + rest == "lock-version" + " = " + ("1" + ("\n" + (['\n'] + (['['] + (METADATA + ("]" + ("\n" + rest)))))))
  {
    var first := "lock-version" + " = ";
    var head := "1" + ("\n" + (['\n'] + (['['] + (METADATA + "]\n"))));
    assert HEADER == first + head;
    assert (first + head) + rest == first + (head + rest);
    assert head + rest == "1" + ("\n" + (['\n'] + (['['] + (METADATA + ("]" + ("\n" + rest))))));
  }

  lemma FirstLineReads(next: string)
    ensures T.ReadLines("lock-version" + " = " + ("1" + ("\n" + next)), T.EMPTY) ==
            T.ReadLines(next, T.Document(TOP, map[], map[], T.Top))
  {
    NumberReads(next);
    MetadataOpens();
    KeyReads("lock-version", "1" + ("\n" + next), Some(T.Number(1)), next, T.EMPTY);
  }

  lemma MetadataHeaderReads(rest: string)
    ensures T.ReadLines(['['] + (METADATA + ("]" + ("\n" + rest))), T.Document(TOP, map[], map[], T.Top)) ==
            T.ReadLines(rest, At(map[], []))
  {
    MetadataOpens();
    TableHeaderReads(METADATA, rest, T.Document(TOP, map[], map[], T.Top));
  }

  lemma VersionReads(rest: string)
    ensures T.ReadLines(HEADER + rest, T.EMPTY) == T.ReadLines(rest, At(map[], []))
  {
    var table := ['['] + (METADATA + ("]" + ("\n" + rest)));
    HeaderSplits(rest);
    FirstLineReads(['\n'] + table);
    BlankLine(table, T.Document(TOP, map[], map[], T.Top));
    MetadataHeaderReads(rest);
  }

  function MetadataOf(lock: LockfileDocument): T.Table {
    map[]["generated-by" := T.Text(lock.generatedBy)]["resolver" := T.Text(lock.resolver)]
  }

  lemma MetadataPut(t: T.Table, key: string, v: T.Value)
    ensures T.Put(At(t, []), key, v) == if key in t then None else Some(At(t[key := v], []))
  {
    assert map[METADATA := t][METADATA := t[key := v]] == map[METADATA := t[key := v]];
  }

  lemma MetadataReads(lock: LockfileDocument, rest: string)
    ensures T.ReadLines(Line(GENERATED, lock.generatedBy, Line(RESOLVER, lock.resolver, rest)), At(map[], [])) ==
            if Clear(lock.generatedBy) && Clear(lock.resolver) then T.ReadLines(rest, At(MetadataOf(lock), [])) else None
  {
    assert |"generated-by"| == 12 && |"resolver"| == 8;
    assert "generated-by" + " = " == GENERATED && "resolver" + " = " == RESOLVER;
    LineReads("generated-by", lock.generatedBy, Line(RESOLVER, lock.resolver, rest), At(map[], []));
    MetadataPut(map[], "generated-by", T.Text(lock.generatedBy));
    var t: T.Table := map[]["generated-by" := T.Text(lock.generatedBy)];
    LineReads("resolver", lock.resolver, rest, At(t, []));
    MetadataPut(t, "resolver", T.Text(lock.resolver));
  }

  /** No text that is printed holds a control character. */
  predicate LockClear(lock: LockfileDocument) {
    Clear(lock.generatedBy) && Clear(lock.resolver) && PackagesClear(lock.packages)
  }

  lemma TextReads(lock: LockfileDocument)
    ensures T.Read(Text(lock)) ==
            if LockClear(lock) then Some(At(MetadataOf(lock), TablesOf(SortBy(lock.packages, ById())))) else None
  {
    var ps := SortBy(lock.packages, ById());
    SortPermutes(lock.packages, ById());
    assert PackagesClear(ps) == PackagesClear(lock.packages);
    VersionReads(Line(GENERATED, lock.generatedBy, Line(RESOLVER, lock.resolver, PackagesThen(ps))));
    MetadataReads(lock, PackagesThen(ps));
    PackagesRead(ps, MetadataOf(lock), []);
    assert [] + TablesOf(ps) == TablesOf(ps);
  }

  // ---------------------------------------------------------------- what the loader is given

  function TextAt(t: T.Table, key: string): Option<string> {
    if key in t && t[key].Text? then Some(t[key].s) else None
  }

  function TextsAt(t: T.Table, key: string): Option<seq<Option<string>>> {
    if key in t && t[key].Texts? then Some(seq(|t[key].items|, i requires 0 <= i < |t[key].items| => Some(t[key].items[i])))
    else None
  }

  function RawPackageOf(t: T.Table): RawPackage {
    Table(TextAt(t, "id"), TextAt(t, "name"), TextAt(t, "version"), TextAt(t, "source-kind"),
          TextAt(t, "git"), TextAt(t, "rev"), TextAt(t, "registry"), TextAt(t, "sha256"), TextsAt(t, "dependencies"))
  }

  /** The queries of the loader, on a parsed document. */
  function RawOf(d: T.Document): RawDocument {
    RawDocument(
      if "lock-version" in d.top && d.top["lock-version"].Number? then Some(d.top["lock-version"].n) else None,
      if METADATA in d.tables
      then Some(RawMetadata(TextAt(d.tables[METADATA], "generated-by"), TextAt(d.tables[METADATA], "resolver")))
      else None,
      if PACKAGES in d.lists
      then Some(seq(|d.lists[PACKAGES]|, i requires 0 <= i < |d.lists[PACKAGES]| => RawPackageOf(d.lists[PACKAGES][i])))
      else if PACKAGES in d.top && d.top[PACKAGES].Texts?
      then Some(seq(|d.top[PACKAGES].items|, i requires 0 <= i < |d.top[PACKAGES].items| => NotATable))
      else None)
  }

  function Tidy(p: LockPackage): LockPackage { p.(dependencies := SortText(p.dependencies)) }

  function AllTidy(ps: seq<LockPackage>): (qs: seq<LockPackage>)
    ensures |qs| == |ps| && forall i :: 0 <= i < |qs| ==> qs[i] == Tidy(ps[i])
  {
    if ps == [] then [] else [Tidy(ps[0])] + AllTidy(ps[1..])
  }

  /** The lockfile in its printed order. */
  function Canonical(lock: LockfileDocument): LockfileDocument {
    lock.(packages := AllTidy(SortBy(lock.packages, ById())))
  }

  lemma TableSays(p: LockPackage)
    requires SourceShape(p)
    ensures Says(RawPackageOf(TableOf(p)), Tidy(p))
  {
    KeysDiffer();
    SourceKeysDiffer(p);
  }

  lemma TidyTexts(ps: seq<LockPackage>)
    ensures Entries(AllTidy(ps)) == Entries(ps)
  {
    forall i | 0 <= i < |ps| ensures Entries(AllTidy(ps))[i] == Entries(ps)[i] {
    }
  }

  lemma TidyValid(rules: Patterns, ps: seq<LockPackage>)
    ensures (forall q :: q in AllTidy(ps) ==> ValidPackage(rules, q)) <==> (forall p :: p in ps ==> ValidPackage(rules, p))
  {
    var qs := AllTidy(ps);
    assert forall i :: 0 <= i < |ps| ==> (ValidPackage(rules, qs[i]) <==> ValidPackage(rules, ps[i]));
    if forall q :: q in qs ==> ValidPackage(rules, q) {
      forall i | 0 <= i < |ps| ensures ValidPackage(rules, ps[i]) { assert qs[i] in qs; }
    }
    if forall p :: p in ps ==> ValidPackage(rules, p) {
      forall i | 0 <= i < |ps| ensures ValidPackage(rules, qs[i]) { assert ps[i] in ps; }
    }
  }

  lemma CanonicalAlike(rules: Patterns, lock: LockfileDocument)
    ensures SameUpToOrder(Canonical(lock), lock)
    ensures ValidLockfile(rules, lock) <==> ValidLockfile(rules, Canonical(lock))
  {
    var ps := SortBy(lock.packages, ById());
    TidyTexts(ps);
    SortEntries(lock.packages);
    SortPermutes(Entries(lock.packages), EntryById());
    SortPermutes(lock.packages, ById());
    TidyValid(rules, ps);
  }

  lemma DocumentSays(lock: LockfileDocument, ps: seq<LockPackage>)
    requires forall p :: p in ps ==> SourceShape(p)
    ensures Represents(RawOf(At(MetadataOf(lock), TablesOf(ps))), lock.(packages := AllTidy(ps)))
  {
    forall i | 0 <= i < |ps| ensures Says(RawPackageOf(TableOf(ps[i])), Tidy(ps[i])) {
      assert ps[i] in ps;
      TableSays(ps[i]);
    }
    assert |METADATA| == 8 && |PACKAGES| == 7 && |"lock-version"| == 12;
    assert |"generated-by"| == 12 && |"resolver"| == 8;
  }

  /** A printed lockfile can be parsed exactly when no text in it has a control character, and then the loader is given
      the lockfile in its printed order: the same packages with the same fields, and it passes the loader's rules if the
      original does. */
  lemma RoundTrip(rules: Patterns, lock: LockfileDocument)
    requires Shaped(lock)
    ensures T.Read(Text(lock)).Some? <==> LockClear(lock)
    ensures LockClear(lock) ==> Represents(RawOf(T.Read(Text(lock)).value), Canonical(lock))
    ensures SameUpToOrder(Canonical(lock), lock)
    ensures ValidLockfile(rules, lock) <==> ValidLockfile(rules, Canonical(lock))
  {
    TextReads(lock);
    SortPermutes(lock.packages, ById());
    DocumentSays(lock, SortBy(lock.packages, ById()));
    CanonicalAlike(rules, lock);
  }
}
