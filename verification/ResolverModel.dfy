/** The single-version resolver's world: manifests, dependency selection, fingerprints and lock
    ids, and the closure of the root seeds that a resolution has to produce. */
module ResolverModel {
  import opened Prelude
  import opened Ordering

  /** A canonical absolute directory: its components, none of them "." or "..". */
  type Dir = seq<string>
  type RelPath = seq<string>

  datatype Dependency =
    | PathDependency(alias: string, package: Option<string>, path: RelPath)
    | GitDependency(alias: string, package: Option<string>, source: string, rev: string)
    | RegistryDependency(alias: string, package: Option<string>, registry: string, version: Option<string>)

  datatype PackageConfig = PackageConfig(
    name: string, version: string, dependencies: seq<Dependency>, devDependencies: seq<Dependency>)

  datatype WorkspaceConfig = WorkspaceConfig(members: seq<RelPath>, exclude: seq<RelPath>)

  datatype Manifest = Manifest(package: Option<PackageConfig>, workspace: Option<WorkspaceConfig>)

  datatype Materialized = Materialized(registryRoot: string, sha256: string, snapshotRoot: Dir)

  /** Everything the resolver reads: the loadable manifests by directory, and where git revisions
      and registry releases are checked out. */
  datatype World = World(
    manifests: map<Dir, Manifest>,
    normalizeGit: (string, Dir) -> string,
    git: (string, string) -> Option<Dir>,
    registry: (string, string, string) -> Option<Materialized>)

  datatype Origin =
    | Workspace
    | Path
    | Git(source: string, rev: string, snapshotRoot: Dir)
    | Registry(registryRoot: string, sha256: string, snapshotRoot: Dir)

  datatype Selection = Selection(dir: Dir, origin: Origin)

  datatype ResolveError =
    | MemberExcluded(member: RelPath)
    | ManifestMissing(dir: Dir)
    | PackageMissing(dir: Dir)
    | PackageRequired(dir: Dir)
    | PackageNotFound(dir: Dir)
    | PackageAmbiguous(dir: Dir)
    | EscapesSnapshot(dir: Dir)
    | SourceUnavailable(alias: string)
    | RegistryFieldMissing(alias: string)
    | SelectionFailed(cause: ResolveError)
    | VersionConflict(name: string)
    | SourceConflict(name: string)
    | WrongPackage(alias: string)
    | SelfDependency(name: string)

  // ---------------------------------------------------------------- paths

  /** `dir / path`, normalised. */
  function Join(dir: Dir, path: RelPath): Dir
    decreases path
  {
    if path == [] then dir
    else if path[0] == "." || path[0] == "" then Join(dir, path[1..])
    else if path[0] == ".." then Join(if dir == [] then [] else dir[..|dir| - 1], path[1..])
    else Join(dir + [path[0]], path[1..])
  }

  function CommonPrefix(a: Dir, b: Dir): (n: nat)
    ensures n <= |a| && n <= |b| && a[..n] == b[..n]
  {
    if a == [] || b == [] || a[0] != b[0] then 0
    else
      var n := CommonPrefix(a[1..], b[1..]);
      assert a[..n + 1] == [a[0]] + a[1..][..n] && b[..n + 1] == [b[0]] + b[1..][..n];
      n + 1
  }

  /** A lexically relative path: how many levels up from the root, then down. */
  datatype RelativeKey = RelativeKey(ups: nat, rest: RelPath)

  function Relative(root: Dir, dir: Dir): RelativeKey {
    var n := CommonPrefix(root, dir);
    RelativeKey(|root| - n, dir[n..])
  }

  predicate Within(dir: Dir, root: Dir) {
    Relative(root, dir).ups == 0
  }

  lemma RelativeInjective(root: Dir, a: Dir, b: Dir)
    requires Relative(root, a) == Relative(root, b)
    ensures a == b
  {
    var m, n := CommonPrefix(root, a), CommonPrefix(root, b);
    assert m == n;
    assert a == a[..m] + a[m..] && b == b[..n] + b[n..];
  }

  lemma WithinIsPrefix(dir: Dir, root: Dir)
    ensures Within(dir, root) <==> root <= dir
  {
    var n := CommonPrefix(root, dir);
    if root <= dir {
      CommonPrefixIsLongest(root, dir, |root|);
    }
  }

  lemma {:induction false} CommonPrefixIsLongest(a: Dir, b: Dir, k: nat)
    requires k <= |a| && k <= |b| && a[..k] == b[..k]
    ensures k <= CommonPrefix(a, b)
  {
    if k > 0 {
      assert a[0] == a[..k][0] == b[..k][0] == b[0];
      assert a[1..][..k - 1] == a[..k][1..] && b[1..][..k - 1] == b[..k][1..];
      CommonPrefixIsLongest(a[1..], b[1..], k - 1);
    }
  }

  predicate Plain(path: RelPath) {
    forall i :: 0 <= i < |path| ==> path[i] != "" && path[i] != "." && path[i] != ".."
  }

  function Ups(k: nat): RelPath { seq(k, _ => "..") }

  /** Going along one path and then along another. */
  lemma {:induction false} JoinTwice(dir: Dir, a: RelPath, b: RelPath)
    ensures Join(dir, a + b) == Join(Join(dir, a), b)
    decreases a
  {
    if a == [] {
      assert a + b == b;
    } else {
      assert (a + b)[1..] == a[1..] + b;
      var next := if a[0] == "." || a[0] == "" then dir
                  else if a[0] == ".." then (if dir == [] then [] else dir[..|dir| - 1]) else dir + [a[0]];
      JoinTwice(next, a[1..], b);
    }
  }

  lemma {:induction false} JoinDown(dir: Dir, down: RelPath)
    requires Plain(down)
    ensures Join(dir, down) == dir + down
    decreases down
  {
    if down != [] {
      JoinDown(dir + [down[0]], down[1..]);
      assert dir + [down[0]] + down[1..] == dir + down;
    }
  }

  lemma {:induction false} JoinUp(dir: Dir, k: nat)
    ensures Join(dir, Ups(k)) == dir[..if k <= |dir| then |dir| - k else 0]
  {
    if k > 0 {
      assert Ups(k)[1..] == Ups(k - 1);
      JoinUp(if dir == [] then [] else dir[..|dir| - 1], k - 1);
    }
  }

  /** Up k levels, though not above the root, and then down. */
  lemma JoinUpDown(dir: Dir, k: nat, down: RelPath)
    requires Plain(down)
    ensures Join(dir, Ups(k) + down) == dir[..if k <= |dir| then |dir| - k else 0] + down
  {
    JoinTwice(dir, Ups(k), down);
    JoinUp(dir, k);
    JoinDown(Join(dir, Ups(k)), down);
  }

  /** The path that a key spells. */
  function Spell(key: RelativeKey): RelPath { Ups(key.ups) + key.rest }

  /** The relative path from a root leads back to the directory. */
  lemma JoinUndoesRelative(root: Dir, dir: Dir)
    requires Plain(dir)
    ensures Join(root, Spell(Relative(root, dir))) == dir
  {
    var n := CommonPrefix(root, dir);
    JoinUpDown(root, |root| - n, dir[n..]);
    assert dir == dir[..n] + dir[n..];
  }

  // ---------------------------------------------------------------- fingerprints and lock ids

  datatype Fingerprint =
    | LocalSource(workspace: bool, dir: Dir)
    | GitSource(source: string, rev: string, key: RelativeKey)
    | RegistrySource(registryRoot: string, sha256: string, key: RelativeKey)

  function FingerprintOf(sel: Selection): Fingerprint {
    match sel.origin
    case Workspace => LocalSource(true, sel.dir)
    case Path => LocalSource(false, sel.dir)
    case Git(source, rev, root) => GitSource(source, rev, Relative(root, sel.dir))
    case Registry(registry, sha, root) => RegistrySource(registry, sha, Relative(root, sel.dir))
  }

  function KindText(origin: Origin): (s: string)
    ensures ':' !in s
  {
    match origin
    case Workspace => "workspace"
    case Path => "path"
    case Git(_, _, _) => "git"
    case Registry(_, _, _) => "registry"
  }

  function LockId(origin: Origin, package: PackageConfig): string {
    KindText(origin) + ":" + (package.name + "@" + (package.version +
      match origin
      case Git(_, rev, _) => "#" + rev
      case Registry(_, sha, _) => "#" + sha
      case _ => ""))
  }

  /** A separator that does not occur before it splits a string in only one way. */
  lemma {:induction false} SplitOnce(a: string, x: string, b: string, y: string, c: char)
    requires c !in a && c !in b && a + [c] + x == b + [c] + y
    ensures a == b && x == y
  {
    var s, t := a + [c] + x, b + [c] + y;
    if a == [] || b == [] {
      assert s[0] == t[0];
      assert a == [] && b == [];
      assert s[1..] == x && t[1..] == y;
    } else {
      assert s[1..] == a[1..] + [c] + x && t[1..] == b[1..] + [c] + y;
      SplitOnce(a[1..], x, b[1..], y, c);
      assert a[0] == s[0] == t[0] == b[0];
      assert a == [a[0]] + a[1..] && b == [b[0]] + b[1..];
    }
  }

  /** A lock id names its package: different package names give different ids. */
  lemma LockIdNamesPackage(o: Origin, p: PackageConfig, o': Origin, p': PackageConfig)
    requires '@' !in p.name && '@' !in p'.name
    requires LockId(o, p) == LockId(o', p')
    ensures p.name == p'.name && KindText(o) == KindText(o')
  {
    var a, b := LockId(o, p)[|KindText(o)| + 1..], LockId(o', p')[|KindText(o')| + 1..];
    assert LockId(o, p) == KindText(o) + [':'] + a && LockId(o', p') == KindText(o') + [':'] + b;
    SplitOnce(KindText(o), a, KindText(o'), b, ':');
    var v, v' := a[|p.name| + 1..], b[|p'.name| + 1..];
    assert a == p.name + ['@'] + v && b == p'.name + ['@'] + v';
    SplitOnce(p.name, v, p'.name, v', '@');
  }

  function Stamp(o: Origin): Option<string> {
    match o
    case Git(_, rev, _) => Some(rev)
    case Registry(_, sha, _) => Some(sha)
    case _ => None
  }

  /** Where versions have no number sign, equal lock ids also force equal versions and equal revisions or digests. */
  lemma LockIdDetermines(o: Origin, p: PackageConfig, o': Origin, p': PackageConfig)
    requires '@' !in p.name && '@' !in p'.name && '#' !in p.version && '#' !in p'.version
    requires LockId(o, p) == LockId(o', p')
    ensures p.name == p'.name && p.version == p'.version && KindText(o) == KindText(o') && Stamp(o) == Stamp(o')
  {
    LockIdNamesPackage(o, p, o', p');
    var head := KindText(o) + ":" + p.name + "@";
    var a, b := LockId(o, p)[|head|..], LockId(o', p')[|head|..];
    assert a == StampedVersion(o, p.version) && b == StampedVersion(o', p'.version);
    StampsDetermine(o, p.version, o', p'.version);
  }

  function StampedVersion(o: Origin, version: string): string {
    version + match Stamp(o) case None => "" case Some(stamp) => "#" + stamp
  }

  lemma StampShows(o: Origin, version: string)
    requires '#' !in version
    ensures '#' in StampedVersion(o, version) <==> Stamp(o).Some?
  {
    if Stamp(o).Some? {
      assert StampedVersion(o, version)[|version|] == '#';
    }
  }

  lemma StampsDetermine(o: Origin, v: string, o': Origin, v': string)
    requires '#' !in v && '#' !in v' && StampedVersion(o, v) == StampedVersion(o', v')
    ensures v == v' && Stamp(o) == Stamp(o')
  {
    var a, b := StampedVersion(o, v), StampedVersion(o', v');
    StampShows(o, v);
    StampShows(o', v');
    if Stamp(o).Some? && Stamp(o').Some? {
      assert a == v + ['#'] + Stamp(o).value && b == v' + ['#'] + Stamp(o').value;
      SplitOnce(v, Stamp(o).value, v', Stamp(o').value, '#');
    } else if Stamp(o).None? && Stamp(o').None? {
      assert a == v && b == v';
    }
  }

  // ---------------------------------------------------------------- selecting a package

  function PackageAt(w: World, dir: Dir): Option<PackageConfig> {
    if dir in w.manifests then w.manifests[dir].package else None
  }

  /** The members of a workspace that define the package `name`, in member order. */
  function MemberMatches(w: World, root: Dir, members: seq<RelPath>, exclude: seq<RelPath>, name: string)
    : (r: Result<seq<Dir>, ResolveError>)
    ensures r.Ok? ==> forall d :: d in r.value ==> PackageAt(w, d).Some? && PackageAt(w, d).value.name == name
  {
    if members == [] then Ok([]) else
      var n := |members| - 1;
      var before := MemberMatches(w, root, members[..n], exclude, name);
      var dir := Join(root, members[n]);
      if before.Err? then before
      else if members[n] in exclude then before
      else if dir !in w.manifests then Err(ManifestMissing(dir))
      else if PackageAt(w, dir).None? then Err(PackageMissing(dir))
      else if PackageAt(w, dir).value.name == name then Ok(before.value + [dir])
      else before
  }

  predicate PathLe(a: RelPath, b: RelPath) {
    if a == [] then true
    else if b == [] then false
    else (a[0] != b[0] && StrLe(a[0], b[0])) || (a[0] == b[0] && PathLe(a[1..], b[1..]))
  }

  /** A path stands before those that it is a prefix of; otherwise the first component that differs decides. */
  lemma {:induction false} PathOrder(a: RelPath, b: RelPath, k: nat)
    requires k <= |a| && k <= |b| && a[..k] == b[..k]
    ensures k == |a| ==> PathLe(a, b)
    ensures k < |a| && k == |b| ==> !PathLe(a, b)
    ensures k < |a| && k < |b| && a[k] != b[k] ==> (PathLe(a, b) <==> StrLe(a[k], b[k]))
  {
    if k > 0 {
      assert a[0] == a[..k][0] == b[..k][0] == b[0];
      assert a[1..][..k - 1] == a[..k][1..] && b[1..][..k - 1] == b[..k][1..];
      PathOrder(a[1..], b[1..], k - 1);
    }
  }

  function ByPath(): Order<RelPath> { (a: RelPath, b: RelPath) => PathLe(a, b) }

  function RootMatch(w: World, root: Dir, expected: Option<string>): seq<Dir> {
    var package := PackageAt(w, root);
    if package.Some? && (expected.None? || package.value.name == expected.value) then [root] else []
  }

  function Matches(w: World, root: Dir, expected: Option<string>): Result<seq<Dir>, ResolveError>
    requires root in w.manifests
  {
    var own := RootMatch(w, root, expected);
    match w.manifests[root].workspace
    case None => Ok(own)
    case Some(ws) =>
      if expected.None? then
        if PackageAt(w, root).None? then Err(PackageRequired(root)) else Ok(own)
      else
        var members := MemberMatches(w, root, SortBy(ws.members, ByPath()), ws.exclude, expected.value);
        if members.Err? then members else Ok(own + members.value)
  }

  /** A local selection is a workspace member exactly when its directory is a top-level one. */
  function Relabel(hint: Origin, dir: Dir, tops: set<Dir>): Origin {
    if hint.Workspace? || hint.Path? then (if dir in tops then Workspace else Path) else hint
  }

  function SelectFromRoot(w: World, tops: set<Dir>, root: Dir, hint: Origin, expected: Option<string>)
    : (r: Result<Selection, ResolveError>)
    ensures r.Ok? ==> PackageAt(w, r.value.dir).Some?
    ensures r.Ok? && expected.Some? ==> PackageAt(w, r.value.dir).value.name == expected.value
    ensures r.Ok? ==> r.value.origin == Relabel(hint, r.value.dir, tops)
  {
    if root !in w.manifests then Err(ManifestMissing(root)) else
      var matches := Matches(w, root, expected);
      if matches.Err? then Err(matches.error)
      else if matches.value == [] then Err(PackageNotFound(root))
      else if |matches.value| > 1 then Err(PackageAmbiguous(root))
      else Ok(Selection(matches.value[0], Relabel(hint, matches.value[0], tops)))
  }

  lemma {:induction false} MemberErrorSticks(w: World, root: Dir, members: seq<RelPath>, exclude: seq<RelPath>, name: string, k: nat)
    requires k <= |members| && MemberMatches(w, root, members[..k], exclude, name).Err?
    ensures MemberMatches(w, root, members, exclude, name) == MemberMatches(w, root, members[..k], exclude, name)
  {
    var n := |members| - 1;
    if k <= n {
      assert members[..n][..k] == members[..k];
      MemberErrorSticks(w, root, members[..n], exclude, name, k);
    } else {
      assert members[..k] == members;
    }
  }

  predicate HasName(w: World, dir: Dir, name: string) {
    PackageAt(w, dir).Some? && PackageAt(w, dir).value.name == name
  }

  function NamesMember(w: World, root: Dir, exclude: seq<RelPath>, name: string): RelPath -> bool {
    (m: RelPath) => m !in exclude && HasName(w, Join(root, m), name)
  }

  ghost predicate MembersLoad(w: World, root: Dir, members: seq<RelPath>, exclude: seq<RelPath>) {
    forall m :: m in members && m !in exclude ==> PackageAt(w, Join(root, m)).Some?
  }

  ghost predicate IsCandidate(root: Dir, ws: WorkspaceConfig, dir: Dir) {
    dir == root || exists m :: m in ws.members && m !in ws.exclude && dir == Join(root, m)
  }

  lemma {:induction false} MatchesCount(w: World, root: Dir, members: seq<RelPath>, exclude: seq<RelPath>, name: string)
    ensures var r := MemberMatches(w, root, members, exclude, name);
            && (r.Ok? <==> MembersLoad(w, root, members, exclude))
            && (r.Ok? ==> |r.value| == Count(members, NamesMember(w, root, exclude, name)))
            && (r.Ok? ==> forall d :: d in r.value ==> exists m :: m in members && m !in exclude && d == Join(root, m))
  {
    if members != [] {
      var n := |members| - 1;
      MatchesCount(w, root, members[..n], exclude, name);
      assert members == members[..n] + [members[n]];
    }
  }

  lemma SortedMatches(w: World, root: Dir, ws: WorkspaceConfig, name: string)
    ensures var r := MemberMatches(w, root, SortBy(ws.members, ByPath()), ws.exclude, name);
            && (r.Ok? <==> MembersLoad(w, root, ws.members, ws.exclude))
            && (r.Ok? ==> |r.value| == Count(ws.members, NamesMember(w, root, ws.exclude, name)))
            && (r.Ok? ==> forall d :: d in r.value ==> IsCandidate(root, ws, d))
  {
    var sorted := SortBy(ws.members, ByPath());
    SortPermutes(ws.members, ByPath());
    MatchesCount(w, root, sorted, ws.exclude, name);
    CountPermuted(ws.members, sorted, NamesMember(w, root, ws.exclude, name));
  }

  /** A package asked for by name in a workspace: found exactly when every member that is not excluded has a package and
      exactly one of the root and these members has the name, and then it is that one. */
  lemma NamedSelectsExactly(w: World, tops: set<Dir>, root: Dir, hint: Origin, name: string)
    requires root in w.manifests && w.manifests[root].workspace.Some?
    ensures var ws := w.manifests[root].workspace.value;
            var found := Count(ws.members, NamesMember(w, root, ws.exclude, name)) + if HasName(w, root, name) then 1 else 0;
            SelectFromRoot(w, tops, root, hint, Some(name)).Ok? <==> MembersLoad(w, root, ws.members, ws.exclude) && found == 1
    ensures var r := SelectFromRoot(w, tops, root, hint, Some(name));
            r.Ok? ==> HasName(w, r.value.dir, name) && IsCandidate(root, w.manifests[root].workspace.value, r.value.dir)
  {
    SortedMatches(w, root, w.manifests[root].workspace.value, name);
  }

  /** The scan over the members of a workspace, as the program's loop makes it. */
  method ScanMembers(w: World, root: Dir, members: seq<RelPath>, exclude: seq<RelPath>, name: string)
    returns (r: Result<seq<Dir>, ResolveError>)
    ensures r == MemberMatches(w, root, members, exclude, name)
  {
    var found := [];
    var i := 0;
    while i < |members|
      invariant 0 <= i <= |members|
      invariant MemberMatches(w, root, members[..i], exclude, name) == Ok(found)
    {
      assert members[..i + 1][..i] == members[..i];
      if members[i] !in exclude {
        var dir := Join(root, members[i]);
        if dir !in w.manifests {
          MemberErrorSticks(w, root, members, exclude, name, i + 1);
          return Err(ManifestMissing(dir));
        }
        if PackageAt(w, dir).None? {
          MemberErrorSticks(w, root, members, exclude, name, i + 1);
          return Err(PackageMissing(dir));
        }
        if PackageAt(w, dir).value.name == name {
          found := found + [dir];
        }
      }
      i := i + 1;
    }
    assert members[..i] == members;
    return Ok(found);
  }

  function Select(w: World, tops: set<Dir>, parent: Selection, d: Dependency): (r: Result<Selection, ResolveError>)
    ensures r.Ok? ==> PackageAt(w, r.value.dir).Some?
    ensures r.Ok? && d.package.Some? ==> PackageAt(w, r.value.dir).value.name == d.package.value
  {
    match d
    case PathDependency(_, package, path) =>
      var root := Join(parent.dir, path);
      if root !in w.manifests then Err(ManifestMissing(root))
      else if parent.origin.Git? then
        if !Within(root, parent.origin.snapshotRoot) then Err(EscapesSnapshot(root))
        else SelectFromRoot(w, tops, root, parent.origin, package)
      else SelectFromRoot(w, tops, root, Path, package)
    case GitDependency(alias, package, source, rev) =>
      var normalized := w.normalizeGit(source, parent.dir);
      (match w.git(normalized, rev)
       case None => Err(SourceUnavailable(alias))
       case Some(root) => SelectFromRoot(w, tops, root, Git(normalized, rev, root), package))
    case RegistryDependency(alias, package, registry, version) =>
      if package.None? || version.None? then Err(RegistryFieldMissing(alias)) else
        match w.registry(registry, package.value, version.value)
        case None => Err(SourceUnavailable(alias))
        case Some(m) =>
          SelectFromRoot(w, tops, m.snapshotRoot, Registry(m.registryRoot, m.sha256, m.snapshotRoot), package)
  }

  /** Where a path dependency leads: up k levels from the package that declares it and then down. */
  function Landing(parent: Selection, k: nat, down: RelPath): Dir {
    parent.dir[..if k <= |parent.dir| then |parent.dir| - k else 0] + down
  }

  /** A path dependency is looked for exactly there. It is refused when nothing is there, and, for a git parent, exactly
      when its snapshot root is not a prefix of the place. */
  lemma PathLands(w: World, tops: set<Dir>, parent: Selection, d: Dependency, k: nat, down: RelPath)
    requires d.PathDependency? && d.path == Ups(k) + down && Plain(down)
    ensures var at := Landing(parent, k, down); var r := Select(w, tops, parent, d);
            if at !in w.manifests then r == Err(ManifestMissing(at))
            else if !parent.origin.Git? then r == SelectFromRoot(w, tops, at, Path, d.package)
            else r == if parent.origin.snapshotRoot <= at then SelectFromRoot(w, tops, at, parent.origin, d.package)
                      else Err(EscapesSnapshot(at))
  {
    JoinUpDown(parent.dir, k, down);
    if parent.origin.Git? {
      WithinIsPrefix(Landing(parent, k, down), parent.origin.snapshotRoot);
    }
  }

  /** A git or registry dependency is selected in the checkout of just the source that it names. */
  lemma FetchedLands(w: World, tops: set<Dir>, parent: Selection, d: Dependency)
    requires !d.PathDependency? && Select(w, tops, parent, d).Ok?
    ensures var o := Select(w, tops, parent, d).value.origin;
            if d.GitDependency? then
              && o.Git? && o.source == w.normalizeGit(d.source, parent.dir) && o.rev == d.rev
              && w.git(o.source, o.rev) == Some(o.snapshotRoot)
            else
              && d.package.Some? && d.version.Some? && o.Registry?
              && w.registry(d.registry, d.package.value, d.version.value)
                 == Some(Materialized(o.registryRoot, o.sha256, o.snapshotRoot))
  {
  }

  /** A workspace asked for no package in particular gives its root package, and needs to have one. */
  lemma UnnamedSelects(w: World, tops: set<Dir>, root: Dir, hint: Origin)
    requires root in w.manifests && w.manifests[root].workspace.Some?
    ensures SelectFromRoot(w, tops, root, hint, None) ==
            if w.manifests[root].package.None? then Err(PackageRequired(root))
            else Ok(Selection(root, if hint.Workspace? || hint.Path? then (if root in tops then Workspace else Path) else hint))
  {
  }

  /** Where no workspace is declared, the package at the place itself is selected, and only when it has the name. */
  lemma PlainRootSelects(w: World, tops: set<Dir>, root: Dir, hint: Origin, expected: Option<string>)
    requires root in w.manifests && w.manifests[root].workspace.None?
    ensures var r := SelectFromRoot(w, tops, root, hint, expected); var package := w.manifests[root].package;
            if package.Some? && (expected.None? || package.value.name == expected.value) then
              r == Ok(Selection(root, if hint.Workspace? || hint.Path? then (if root in tops then Workspace else Path) else hint))
            else r == Err(PackageNotFound(root))
  {
  }

  function ByAlias(): Order<Dependency> { (a: Dependency, b: Dependency) => StrLe(a.alias, b.alias) }

  /** Declared dependencies and dev-dependencies in alias order. */
  function DependenciesOf(p: PackageConfig): seq<Dependency> {
    SortBy(p.dependencies + p.devDependencies, ByAlias())
  }

  /** Every dependency once, dev-dependencies included, in the order of the aliases. */
  lemma DependenciesInOrder(p: PackageConfig)
    ensures multiset(DependenciesOf(p)) == multiset(p.dependencies) + multiset(p.devDependencies)
    ensures forall i, j :: 0 <= i < j < |DependenciesOf(p)| ==> StrLe(DependenciesOf(p)[i].alias, DependenciesOf(p)[j].alias)
  {
    var all := p.dependencies + p.devDependencies;
    SortPermutes(all, ByAlias());
    AliasesOrder();
    SortSorts(all, ByAlias());
    forall i, j | 0 <= i < j < |DependenciesOf(p)|
      ensures StrLe(DependenciesOf(p)[i].alias, DependenciesOf(p)[j].alias)
    {
      assert ByAlias()(DependenciesOf(p)[i], DependenciesOf(p)[j]);
    }
  }

  lemma AliasesOrder()
    ensures TotalPreorder(ByAlias())
  {
    forall x: Dependency, y: Dependency ensures ByAlias()(x, y) || ByAlias()(y, x) {
      StrLeTotal(x.alias, y.alias);
    }
    forall x: Dependency, y: Dependency, z: Dependency | ByAlias()(x, y) && ByAlias()(y, z) ensures ByAlias()(x, z) {
      StrLeTransitive(x.alias, y.alias, z.alias);
    }
  }

  // ---------------------------------------------------------------- the closure of the seeds

  /** One resolution: the seeds and how packages, fingerprints and dependencies are read. */
  datatype Problem = Problem(
    seeds: seq<Selection>,
    packageOf: Selection -> Option<PackageConfig>,
    fingerprintOf: Selection -> Fingerprint,
    select: (Selection, Dependency) -> Result<Selection, ResolveError>)

  /** The problem that a world, its top-level directories and its seeds pose. */
  function Posed(w: World, tops: set<Dir>, seeds: seq<Selection>): Problem {
    Problem(seeds,
            (x: Selection) => PackageAt(w, x.dir),
            (x: Selection) => FingerprintOf(x),
            (x: Selection, d: Dependency) => Select(w, tops, x, d))
  }

  ghost predicate DependsOn(q: Problem, a: Selection, d: Dependency) {
    q.packageOf(a).Some? && d in DependenciesOf(q.packageOf(a).value)
  }

  ghost predicate Edge(q: Problem, a: Selection, b: Selection) {
    exists d :: DependsOn(q, a, d) && q.select(a, d) == Ok(b)
  }

  ghost predicate Walk(q: Problem, p: seq<Selection>) {
    |p| >= 1 && p[0] in q.seeds && forall i :: 0 <= i < |p| - 1 ==> Edge(q, p[i], p[i + 1])
  }

  ghost predicate Reachable(q: Problem, x: Selection) {
    exists p :: Walk(q, p) && p[|p| - 1] == x
  }

  lemma ReachSeed(q: Problem, x: Selection)
    requires x in q.seeds
    ensures Reachable(q, x)
  {
    assert Walk(q, [x]) && [x][|[x]| - 1] == x;
  }

  lemma ReachNext(q: Problem, a: Selection, d: Dependency, b: Selection)
    requires Reachable(q, a) && DependsOn(q, a, d) && q.select(a, d) == Ok(b)
    ensures Reachable(q, b)
  {
    var p :| Walk(q, p) && p[|p| - 1] == a;
    assert Edge(q, a, b);
    var p' := p + [b];
    forall i | 0 <= i < |p'| - 1
      ensures Edge(q, p'[i], p'[i + 1])
    {
      assert i < |p| - 1 ==> Edge(q, p[i], p[i + 1]);
    }
    assert Walk(q, p') && p'[|p'| - 1] == b;
  }

  /** What can be wrong with the closure of the seeds. */
  ghost predicate FailedSelection(q: Problem, a: Selection, d: Dependency) {
    Reachable(q, a) && DependsOn(q, a, d) && q.select(a, d).Err?
  }

  ghost predicate SelfEdge(q: Problem, a: Selection, d: Dependency) {
    && Reachable(q, a) && DependsOn(q, a, d) && q.select(a, d).Ok?
    && q.fingerprintOf(q.select(a, d).value) == q.fingerprintOf(a)
  }

  ghost predicate SameName(q: Problem, a: Selection, b: Selection) {
    q.packageOf(a).Some? && q.packageOf(b).Some? && q.packageOf(a).value.name == q.packageOf(b).value.name
  }

  ghost predicate NameClash(q: Problem, a: Selection, b: Selection) {
    Reachable(q, a) && Reachable(q, b) && SameName(q, a, b) && q.fingerprintOf(a) != q.fingerprintOf(b)
  }

  /** The package found is not the one that the dependency names. */
  ghost predicate Mismatch(q: Problem, a: Selection, d: Dependency) {
    && Reachable(q, a) && DependsOn(q, a, d) && q.select(a, d).Ok? && d.package.Some?
    && !(q.packageOf(q.select(a, d).value).Some? && q.packageOf(q.select(a, d).value).value.name == d.package.value)
  }

  /** A selection that names the package it expects finds it. */
  ghost predicate Expected(q: Problem, x: Selection, d: Dependency) {
    q.select(x, d).Ok? && d.package.Some? ==>
      q.packageOf(q.select(x, d).value).Some? && q.packageOf(q.select(x, d).value).value.name == d.package.value
  }

  /** Some reachable dependency cannot be selected or finds another package, some package depends on
      itself, or one package name stands for two sources. */
  ghost predicate Flawed(q: Problem) {
    || (exists a, d :: FailedSelection(q, a, d))
    || (exists a, d :: SelfEdge(q, a, d))
    || (exists a, b :: NameClash(q, a, b))
    || (exists a, d :: Mismatch(q, a, d))
  }

  /** Fingerprints are ambiguous: two reachable selections share one. */
  ghost predicate Ambiguous(q: Problem) {
    exists a, b :: Reachable(q, a) && Reachable(q, b) && a != b && q.fingerprintOf(a) == q.fingerprintOf(b)
  }

  // ---------------------------------------------------------------- what the world guarantees

  /** The seeds are packages of the workspace, and `tops` are their directories. */
  ghost predicate WellSeeded(w: World, tops: set<Dir>, seeds: seq<Selection>) {
    && (forall s :: s in seeds ==> s.origin.Workspace? && s.dir in tops && PackageAt(w, s.dir).Some?)
    && (forall d :: d in tops ==> Selection(d, Workspace) in seeds)
  }

  /** Origins that the world itself produced. */
  ghost predicate Genuine(w: World, tops: set<Dir>, x: Selection) {
    && PackageAt(w, x.dir).Some?
    && match x.origin
       case Workspace => x.dir in tops
       case Path => x.dir !in tops
       case Git(source, rev, root) => w.git(source, rev) == Some(root)
       case Registry(registry, sha, root) => Fetched(w, Materialized(registry, sha, root))
  }

  /** The registry answered with this checkout. */
  ghost predicate Fetched(w: World, m: Materialized) {
    exists a, b, c :: w.registry(a, b, c) == Some(m)
  }

  lemma SelectIsGenuine(w: World, tops: set<Dir>, a: Selection, d: Dependency)
    requires Genuine(w, tops, a) && Select(w, tops, a, d).Ok?
    ensures Genuine(w, tops, Select(w, tops, a, d).value)
  {
  }

  lemma {:induction false} WalkIsGenuine(w: World, tops: set<Dir>, seeds: seq<Selection>, p: seq<Selection>, i: nat)
    requires WellSeeded(w, tops, seeds) && Walk(Posed(w, tops, seeds), p) && i < |p|
    ensures Genuine(w, tops, p[i])
  {
    if i > 0 {
      var q := Posed(w, tops, seeds);
      WalkIsGenuine(w, tops, seeds, p, i - 1);
      assert Edge(q, p[i - 1], p[i - 1 + 1]);
      var d :| DependsOn(q, p[i - 1], d) && q.select(p[i - 1], d) == Ok(p[i]);
      SelectIsGenuine(w, tops, p[i - 1], d);
    }
  }

  /** Every reachable node defines a package, and a local one is `workspace` exactly when its
      directory is a top-level workspace directory. */
  lemma ReachableIsGenuine(w: World, tops: set<Dir>, seeds: seq<Selection>, x: Selection)
    requires WellSeeded(w, tops, seeds) && Reachable(Posed(w, tops, seeds), x)
    ensures Genuine(w, tops, x)
    ensures x.origin.Workspace? || x.origin.Path? ==> (x.origin.Workspace? <==> x.dir in tops)
  {
    var p :| Walk(Posed(w, tops, seeds), p) && p[|p| - 1] == x;
    WalkIsGenuine(w, tops, seeds, p, |p| - 1);
  }

  /** A path reference and a workspace reference to one directory are the same node. */
  lemma LocalReferencesAgree(w: World, tops: set<Dir>, seeds: seq<Selection>, x: Selection, y: Selection)
    requires WellSeeded(w, tops, seeds)
    requires Reachable(Posed(w, tops, seeds), x) && Reachable(Posed(w, tops, seeds), y)
    requires (x.origin.Workspace? || x.origin.Path?) && (y.origin.Workspace? || y.origin.Path?)
    requires x.dir == y.dir
    ensures x == y && FingerprintOf(x) == FingerprintOf(y)
  {
    ReachableIsGenuine(w, tops, seeds, x);
    ReachableIsGenuine(w, tops, seeds, y);
  }

  /** Two reachable selections come from checkouts of one registry artifact at two places, and are the same package
      of the artifact. */
  ghost predicate SharedArtifact(q: Problem) {
    exists a, b :: Reachable(q, a) && Reachable(q, b) && SameArtifact(a, b)
  }

  predicate SameArtifact(a: Selection, b: Selection) {
    && a.origin.Registry? && b.origin.Registry?
    && a.origin.registryRoot == b.origin.registryRoot && a.origin.sha256 == b.origin.sha256
    && Relative(a.origin.snapshotRoot, a.dir) == Relative(b.origin.snapshotRoot, b.dir)
    && a.origin.snapshotRoot != b.origin.snapshotRoot
  }

  lemma GenuineIdentified(w: World, tops: set<Dir>, x: Selection, y: Selection)
    requires Genuine(w, tops, x) && Genuine(w, tops, y) && x != y
    ensures FingerprintOf(x) == FingerprintOf(y) <==> SameArtifact(x, y)
  {
    if FingerprintOf(x) == FingerprintOf(y) {
      match x.origin
      case Workspace =>
      case Path =>
      case Git(_, _, root) =>
        RelativeInjective(root, x.dir, y.dir);
      case Registry(_, _, root) =>
        if y.origin.snapshotRoot == root {
          RelativeInjective(root, x.dir, y.dir);
        }
    }
  }

  /** A fingerprint is ambiguous exactly when a registry artifact is in play at two places. */
  lemma AmbiguousExactly(w: World, tops: set<Dir>, seeds: seq<Selection>)
    requires WellSeeded(w, tops, seeds)
    ensures Ambiguous(Posed(w, tops, seeds)) <==> SharedArtifact(Posed(w, tops, seeds))
  {
    var q := Posed(w, tops, seeds);
    forall x, y | Reachable(q, x) && Reachable(q, y) && x != y
      ensures q.fingerprintOf(x) == q.fingerprintOf(y) <==> SameArtifact(x, y)
    {
      ReachableIsGenuine(w, tops, seeds, x);
      ReachableIsGenuine(w, tops, seeds, y);
      GenuineIdentified(w, tops, x, y);
    }
  }

  /** Checkouts of one artifact hold packages of the same names at the same places, as they do when a digest
      determines the content. */
  ghost predicate SameContent(w: World) {
    forall x, y {:trigger SameArtifact(x, y)} ::
      && SameArtifact(x, y) && PackageAt(w, x.dir).Some? && PackageAt(w, y.dir).Some?
      && Fetched(w, Materialized(x.origin.registryRoot, x.origin.sha256, x.origin.snapshotRoot))
      && Fetched(w, Materialized(y.origin.registryRoot, y.origin.sha256, y.origin.snapshotRoot))
      ==> PackageAt(w, x.dir).value.name == PackageAt(w, y.dir).value.name
  }

  /** A registry that checks every artifact out at one place leaves nothing ambiguous. */
  ghost predicate DigestsIdentify(w: World) {
    forall a, b, c, a', b', c' ::
      w.registry(a, b, c).Some? && w.registry(a', b', c').Some? &&
      w.registry(a, b, c).value.registryRoot == w.registry(a', b', c').value.registryRoot &&
      w.registry(a, b, c).value.sha256 == w.registry(a', b', c').value.sha256
      ==> w.registry(a, b, c).value.snapshotRoot == w.registry(a', b', c').value.snapshotRoot
  }

  lemma FingerprintsIdentify(w: World, tops: set<Dir>, seeds: seq<Selection>)
    requires WellSeeded(w, tops, seeds) && DigestsIdentify(w)
    ensures !SharedArtifact(Posed(w, tops, seeds))
  {
    var q := Posed(w, tops, seeds);
    forall x, y | Reachable(q, x) && Reachable(q, y)
      ensures !SameArtifact(x, y)
    {
      ReachableIsGenuine(w, tops, seeds, x);
      ReachableIsGenuine(w, tops, seeds, y);
    }
  }

  ghost function Names(w: World): set<string> {
    set d | d in w.manifests && w.manifests[d].package.Some? :: w.manifests[d].package.value.name
  }
}
