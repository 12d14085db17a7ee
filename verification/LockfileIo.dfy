/** Printing a lockfile into a stream, and loading one from a parsed table. */
module LockfileIo {
  import opened Prelude
  import opened Ordering
  import opened Lockfile

  // ---------------------------------------------------------------- printing

  function QuoteTomlString(value: string): string { QuoteThen(value, "") }

  lemma {:induction false} EscapeFirst(s: string, rest: string)
    ensures EscapeThen(s, "") + rest == EscapeThen(s, rest)
  {
    if s != [] {
      EscapeFirst(s[1..], rest);
    }
  }

  lemma QuoteFirst(s: string, rest: string)
    ensures QuoteTomlString(s) + rest == QuoteThen(s, rest)
  {
    EscapeFirst(s, rest);
  }

  /** `rest` stands for whatever is printed later. */
  method AppendLine(before: string, key: string, value: string, ghost rest: string) returns (out: string)
    ensures out + rest == before + Line(key, value, rest)
  {
    out := before + key + QuoteTomlString(value) + "\n";
    QuoteFirst(value, ['\n'] + rest);
    assert out + rest == before + (key + (QuoteTomlString(value) + (['\n'] + rest)));
  }

  ghost function Remaining(items: seq<string>, index: nat, rest: string): string
    requires index <= |items|
  {
    if index == 0 then ListThen(items, rest) else MoreThen(items[index..], rest)
  }

  lemma NextItem(items: seq<string>, index: nat, rest: string)
    requires index < |items|
    ensures Remaining(items, index, rest) ==
            (if index > 0 then ", " else "") + (QuoteTomlString(items[index]) + Remaining(items, index + 1, rest))
  {
    assert items[index..][1..] == items[index + 1..];
    QuoteFirst(items[index], Remaining(items, index + 1, rest));
  }

  lemma Associate(a: string, b: string, c: string, d: string)
    ensures a + (b + (c + d)) == ((a + b) + c) + d
  {
  }

  lemma JoinLeft(a: string, b: string, c: string)
    ensures (a + b) + c == a + (b + c)
  {
  }

  method AppendItem(before: string, items: seq<string>, index: nat, ghost rest: string) returns (out: string)
    requires index < |items|
    ensures out + Remaining(items, index + 1, rest) == before + Remaining(items, index, rest)
  {
    NextItem(items, index, rest);
    Associate(before, if index > 0 then ", " else "", QuoteTomlString(items[index]), Remaining(items, index + 1, rest));
    out := before;
    if index > 0 {
      out := out + ", ";
    } else {
      assert before + "" == before;
    }
    out := out + QuoteTomlString(items[index]);
  }

  method AppendItems(before: string, items: seq<string>, ghost rest: string) returns (out: string)
    ensures out + rest == before + ListThen(items, rest)
  {
    out := before;
    var index := 0;
    while index < |items|
      invariant 0 <= index <= |items|
      invariant out + Remaining(items, index, rest) == before + ListThen(items, rest)
    {
      out := AppendItem(out, items, index, rest);
      index := index + 1;
    }
    assert Remaining(items, index, rest) == [']', '\n'] + rest;
    Associate(out, [']', '\n'], rest, "");
    assert rest + "" == rest && ((out + [']', '\n']) + rest) + "" == (out + [']', '\n']) + rest;
    out := out + "]\n";
  }

  method AppendDependencies(before: string, dependencies: seq<string>, ghost rest: string) returns (out: string)
    ensures out + rest == before + (DEPENDENCIES + ListThen(dependencies, rest))
  {
    out := AppendItems(before + DEPENDENCIES, dependencies, rest);
  }

  method AppendSource(before: string, package: LockPackage, ghost rest: string) returns (out: string)
    ensures out + rest == before + SourceThen(package, rest)
  {
    out := before;
    if package.sourceKind == "git" {
      out := AppendLine(out, GIT, OrEmpty(package.git), Line(REV, OrEmpty(package.rev), rest));
      out := AppendLine(out, REV, OrEmpty(package.rev), rest);
    } else if package.sourceKind == "registry" {
      out := AppendLine(out, REGISTRY, OrEmpty(package.registry), Line(SHA256, OrEmpty(package.sha256), rest));
      out := AppendLine(out, SHA256, OrEmpty(package.sha256), rest);
    }
  }

  method AppendBody(before: string, package: LockPackage, ghost rest: string) returns (out: string)
    ensures out + rest == before + BodyThen(package, rest)
  {
    ghost var r4 := DependenciesThen(package, rest);
    ghost var r3 := SourceThen(package, r4);
    ghost var r2 := Line(KIND, package.sourceKind, r3);
    out := AppendLine(before, NAME, package.name, Line(VERSION, package.version, r2));
    out := AppendLine(out, VERSION, package.version, r2);
    out := AppendLine(out, KIND, package.sourceKind, r3);
    out := AppendSource(out, package, r4);
    out := AppendDependencies(out, SortText(package.dependencies), rest);
  }

  method AppendPackage(before: string, package: LockPackage, ghost rest: string) returns (out: string)
    ensures out + rest == before + (PACKAGE + Line(ID, package.id, BodyThen(package, rest)))
  {
    ghost var body := BodyThen(package, rest);
    out := AppendLine(before + PACKAGE, ID, package.id, body);
    JoinLeft(before, PACKAGE, Line(ID, package.id, body));
    out := AppendBody(out, package, rest);
  }

  method SerializeLockfileCanonical(lockfile: LockfileDocument) returns (out: string)
    ensures out == Text(lockfile)
  {
    var packages := SortBy(lockfile.packages, ById());
    ghost var rest := PackagesThen(packages);
    out := AppendLine(HEADER, GENERATED, lockfile.generatedBy, Line(RESOLVER, lockfile.resolver, rest));
    out := AppendLine(out, RESOLVER, lockfile.resolver, rest);
    var i := 0;
    assert packages[0..] == packages;
    while i < |packages|
      invariant 0 <= i <= |packages|
      invariant out + PackagesThen(packages[i..]) == Text(lockfile)
    {
      assert packages[i..][1..] == packages[i + 1..];
      out := AppendPackage(out, packages[i], PackagesThen(packages[i + 1..]));
      i := i + 1;
    }
  }

  // ---------------------------------------------------------------- loading

  /** What the parser found for one package: a missing or ill-typed field is `None`. */
  datatype RawPackage = NotATable | Table(
    id: Option<string>, name: Option<string>, version: Option<string>, sourceKind: Option<string>,
    git: Option<string>, rev: Option<string>, registry: Option<string>, sha256: Option<string>,
    dependencies: Option<seq<Option<string>>>)

  datatype RawMetadata = RawMetadata(generatedBy: Option<string>, resolver: Option<string>)

  datatype RawDocument = RawDocument(
    lockVersion: Option<int>, metadata: Option<RawMetadata>, packages: Option<seq<RawPackage>>)

  /** The three patterns that names, versions and digests must match. */
  datatype Patterns = Patterns(name: string -> bool, version: string -> bool, digest: string -> bool)

  datatype LoadError =
    | BadLockVersion | NoMetadata | MissingField(field: string) | EmptyGenerator | WrongResolver
    | EntryNotATable | NotOnlyStrings | EmptyId | BadName | BadVersion | BadSourceKind
    | NeedsGit | NeedsRev | NeedsRegistry | NeedsDigest | BadDigest | ForeignSourceField

  predicate HasText(o: Option<string>) { o.Some? && o.value != "" }

  ghost predicate ValidPackage(rules: Patterns, p: LockPackage) {
    && p.id != "" && rules.name(p.name) && rules.version(p.version)
    && p.sourceKind in {"workspace", "path", "git", "registry"}
    && SourceShape(p)
    && (p.sourceKind == "git" ==> HasText(p.git) && HasText(p.rev))
    && (p.sourceKind == "registry" ==> HasText(p.registry) && rules.digest(p.sha256.value))
  }

  ghost predicate ValidLockfile(rules: Patterns, lock: LockfileDocument) {
    && lock.generatedBy != "" && lock.resolver == "single-version-v1"
    && forall p :: p in lock.packages ==> ValidPackage(rules, p)
  }

  /** The table says exactly this. */
  ghost predicate Lists(raw: seq<Option<string>>, items: seq<string>) {
    |raw| == |items| && forall i :: 0 <= i < |raw| ==> raw[i] == Some(items[i])
  }

  ghost predicate Says(raw: RawPackage, p: LockPackage) {
    && raw.Table? && raw.id == Some(p.id) && raw.name == Some(p.name) && raw.version == Some(p.version)
    && raw.sourceKind == Some(p.sourceKind) && raw.git == p.git && raw.rev == p.rev
    && raw.registry == p.registry && raw.sha256 == p.sha256
    && raw.dependencies.Some? && Lists(raw.dependencies.value, p.dependencies)
  }

  ghost predicate SaysAll(raw: seq<RawPackage>, ps: seq<LockPackage>) {
    |raw| == |ps| && forall i :: 0 <= i < |raw| ==> Says(raw[i], ps[i])
  }

  ghost predicate Represents(raw: RawDocument, lock: LockfileDocument) {
    && raw.lockVersion == Some(1) && raw.metadata.Some?
    && raw.metadata.value.generatedBy == Some(lock.generatedBy) && raw.metadata.value.resolver == Some(lock.resolver)
    && SaysAll(if raw.packages.Some? then raw.packages.value else [], lock.packages)
  }

  /** The error names something that is wrong with the package. */
  ghost predicate PackageFault(rules: Patterns, p: LockPackage, e: LoadError) {
    match e
    case EmptyId => p.id == ""
    case BadName => !rules.name(p.name)
    case BadVersion => !rules.version(p.version)
    case BadSourceKind => p.sourceKind !in {"workspace", "path", "git", "registry"}
    case NeedsGit => p.sourceKind == "git" && !HasText(p.git)
    case NeedsRev => p.sourceKind == "git" && !HasText(p.rev)
    case NeedsRegistry => p.sourceKind == "registry" && !HasText(p.registry)
    case NeedsDigest => p.sourceKind == "registry" && p.sha256.None?
    case BadDigest => p.sourceKind == "registry" && p.sha256.Some? && !rules.digest(p.sha256.value)
    case ForeignSourceField =>
      || (p.sourceKind != "git" && (p.git.Some? || p.rev.Some?))
      || (p.sourceKind != "registry" && (p.registry.Some? || p.sha256.Some?))
    case _ => false
  }

  ghost predicate FieldMissing(raw: RawPackage, field: string) {
    raw.Table? &&
    ( (field == "id" && raw.id.None?) || (field == "name" && raw.name.None?) || (field == "version" && raw.version.None?)
      || (field == "source-kind" && raw.sourceKind.None?) || (field == "dependencies" && raw.dependencies.None?))
  }

  ghost predicate EntryFault(rules: Patterns, raw: RawPackage, e: LoadError) {
    match e
    case EntryNotATable => raw.NotATable?
    case MissingField(field) => FieldMissing(raw, field)
    case NotOnlyStrings => raw.Table? && raw.dependencies.Some? && None in raw.dependencies.value
    case _ => exists p {:trigger Says(raw, p)} :: Says(raw, p) && PackageFault(rules, p, e)
  }

  ghost predicate SomeEntryFault(rules: Patterns, raw: RawDocument, e: LoadError) {
    raw.packages.Some? && exists entry :: entry in raw.packages.value && EntryFault(rules, entry, e)
  }

  ghost predicate MetadataMissing(raw: RawMetadata, field: string) {
    (field == "generated-by" && raw.generatedBy.None?) || (field == "resolver" && raw.resolver.None?)
  }

  ghost predicate DocumentFault(rules: Patterns, raw: RawDocument, e: LoadError) {
    match e
    case BadLockVersion => raw.lockVersion != Some(1)
    case NoMetadata => raw.metadata.None?
    case EmptyGenerator => raw.metadata.Some? && raw.metadata.value.generatedBy == Some("")
    case WrongResolver =>
      raw.metadata.Some? && raw.metadata.value.resolver.Some? && raw.metadata.value.resolver.value != "single-version-v1"
    case MissingField(field) =>
      (raw.metadata.Some? && MetadataMissing(raw.metadata.value, field)) || SomeEntryFault(rules, raw, e)
    case _ => SomeEntryFault(rules, raw, e)
  }

  method ParseStringArray(raw: Option<seq<Option<string>>>) returns (r: Result<seq<string>, LoadError>)
    ensures forall items {:trigger Lists(raw.value, items)} :: r == Ok(items) <==> raw.Some? && Lists(raw.value, items)
    ensures r.Ok? ==> raw.Some? && Lists(raw.value, r.value)
    ensures r.Err? ==> r.error == if raw.None? then MissingField("dependencies") else NotOnlyStrings
    ensures r.Err? && raw.Some? ==> None in raw.value
  {
    if raw.None? {
      return Err(MissingField("dependencies"));
    }
    var values: seq<string> := [];
    for i := 0 to |raw.value|
      invariant |values| == i && forall k :: 0 <= k < i ==> raw.value[k] == Some(values[k])
    {
      if raw.value[i].None? {
        return Err(NotOnlyStrings);
      }
      values := values + [raw.value[i].value];
    }
    forall items | Lists(raw.value, items) ensures items == values {
    }
    r := Ok(values);
  }

  /** The checks on the source fields, in their order. */
  method CheckSource(rules: Patterns, p: LockPackage) returns (r: Result<(), LoadError>)
    requires p.sourceKind in {"workspace", "path", "git", "registry"}
    ensures r.Ok? <==>
      && SourceShape(p) && (p.sourceKind == "git" ==> HasText(p.git) && HasText(p.rev))
      && (p.sourceKind == "registry" ==> HasText(p.registry) && rules.digest(p.sha256.value))
    ensures r.Err? ==> PackageFault(rules, p, r.error)
  {
    if p.sourceKind == "git" {
      if !HasText(p.git) { return Err(NeedsGit); }
      if !HasText(p.rev) { return Err(NeedsRev); }
      if p.registry.Some? || p.sha256.Some? { return Err(ForeignSourceField); }
    } else if p.sourceKind == "registry" {
      if !HasText(p.registry) { return Err(NeedsRegistry); }
      if p.sha256.None? { return Err(NeedsDigest); }
      if !rules.digest(p.sha256.value) { return Err(BadDigest); }
      if p.git.Some? || p.rev.Some? { return Err(ForeignSourceField); }
    } else if p.git.Some? || p.rev.Some? || p.registry.Some? || p.sha256.Some? {
      return Err(ForeignSourceField);
    }
    r := Ok(());
  }

  /** The checks on one package, in their order. */
  method CheckPackage(rules: Patterns, p: LockPackage) returns (r: Result<(), LoadError>)
    ensures r.Ok? <==> ValidPackage(rules, p)
    ensures r.Err? ==> PackageFault(rules, p, r.error)
  {
    if p.id == "" { return Err(EmptyId); }
    if !rules.name(p.name) { return Err(BadName); }
    if !rules.version(p.version) { return Err(BadVersion); }
    if p.sourceKind !in {"workspace", "path", "git", "registry"} { return Err(BadSourceKind); }
    r := CheckSource(rules, p);
  }

  /** A package is loaded exactly when the table says what a valid package says. */
  method LoadPackage(rules: Patterns, raw: RawPackage) returns (r: Result<LockPackage, LoadError>)
    ensures forall p {:trigger Says(raw, p)} :: r == Ok(p) <==> Says(raw, p) && ValidPackage(rules, p)
    ensures r.Err? ==> EntryFault(rules, raw, r.error)
  {
    if raw.NotATable? { return Err(EntryNotATable); }
    if raw.id.None? { return Err(MissingField("id")); }
    if raw.name.None? { return Err(MissingField("name")); }
    if raw.version.None? { return Err(MissingField("version")); }
    if raw.sourceKind.None? { return Err(MissingField("source-kind")); }
    var dependencies := ParseStringArray(raw.dependencies);
    if dependencies.Err? {
      forall p ensures !Says(raw, p) {
        assert raw.dependencies.Some? && Lists(raw.dependencies.value, p.dependencies) ==> dependencies == Ok(p.dependencies);
      }
      return Err(dependencies.error);
    }
    assert Lists(raw.dependencies.value, dependencies.value);
    var parsed := LockPackage(raw.id.value, raw.name.value, raw.version.value, raw.sourceKind.value,
                              raw.git, raw.rev, raw.registry, raw.sha256, dependencies.value);
    assert forall p :: Says(raw, p) ==> p == parsed;
    assert Says(raw, parsed);
    var checked := CheckPackage(rules, parsed);
    if checked.Err? {
      return Err(checked.error);
    }
    r := Ok(parsed);
  }

  method LoadPackages(rules: Patterns, raw: seq<RawPackage>) returns (r: Result<seq<LockPackage>, LoadError>)
    ensures r.Ok? ==> SaysAll(raw, r.value) && forall p :: p in r.value ==> ValidPackage(rules, p)
    ensures r.Err? ==> forall ps {:trigger SaysAll(raw, ps)} :: SaysAll(raw, ps) ==>
                         exists p :: p in ps && !ValidPackage(rules, p)
    ensures r.Err? ==> exists entry :: entry in raw && EntryFault(rules, entry, r.error)
  {
    var packages: seq<LockPackage> := [];
    for i := 0 to |raw|
      invariant |packages| == i && forall k :: 0 <= k < i ==> Says(raw[k], packages[k])
      invariant forall p :: p in packages ==> ValidPackage(rules, p)
    {
      var next := LoadPackage(rules, raw[i]);
      if next.Err? {
        forall ps | SaysAll(raw, ps) ensures exists p :: p in ps && !ValidPackage(rules, p) {
          assert Says(raw[i], ps[i]) && ps[i] in ps;
        }
        return Err(next.error);
      }
      assert Says(raw[i], next.value);
      packages := packages + [next.value];
    }
    r := Ok(packages);
  }

  lemma SaysUnique(raw: seq<RawPackage>, ps: seq<LockPackage>, qs: seq<LockPackage>)
    requires SaysAll(raw, ps) && SaysAll(raw, qs)
    ensures ps == qs
  {
    forall i | 0 <= i < |raw| ensures ps[i] == qs[i] {
      assert Says(raw[i], ps[i]) && Says(raw[i], qs[i]);
      assert ps[i].dependencies == qs[i].dependencies;
    }
  }

  /** The loader accepts a parsed file exactly when it represents a valid lockfile, and returns that one; an error names
      something that is wrong with the file. */
  method LoadLockfile(rules: Patterns, raw: RawDocument) returns (r: Result<LockfileDocument, LoadError>)
    ensures r.Ok? ==> Represents(raw, r.value) && ValidLockfile(rules, r.value)
    ensures forall lock {:trigger Represents(raw, lock)} ::
              Represents(raw, lock) && ValidLockfile(rules, lock) ==> r == Ok(lock)
    ensures r.Err? ==> DocumentFault(rules, raw, r.error)
  {
    if raw.lockVersion != Some(1) { return Err(BadLockVersion); }
    if raw.metadata.None? { return Err(NoMetadata); }
    var metadata := raw.metadata.value;
    if metadata.generatedBy.None? { return Err(MissingField("generated-by")); }
    if metadata.resolver.None? { return Err(MissingField("resolver")); }
    if metadata.generatedBy.value == "" { return Err(EmptyGenerator); }
    if metadata.resolver.value != "single-version-v1" { return Err(WrongResolver); }
    var packages: seq<LockPackage> := [];
    if raw.packages.Some? {
      var loaded := LoadPackages(rules, raw.packages.value);
      if loaded.Err? {
        return Err(loaded.error);
      }
      packages := loaded.value;
    }
    var lock := LockfileDocument(metadata.generatedBy.value, metadata.resolver.value, packages);
    forall other | Represents(raw, other) ensures other == lock {
      SaysUnique(if raw.packages.Some? then raw.packages.value else [], other.packages, packages);
    }
    r := Ok(lock);
  }
}
