/** The link/unlink reconciliation engine of StudioPlugin (symlinkStudioPackages,
    unlinkStudioPackages) stated as functions over an abstract filesystem. The methods of
    module Plugin are proved to compute exactly these functions. */
module Reconcile {
  import opened Common
  import opened Manifest

  /** A directory's content: relative file name to bytes. */
  type Content = map<Path, seq<bv8>>

  /** What sits at an install destination. A destination absent from the map is missing. */
  datatype Node = Dir(content: Content) | Link(target: Path)

  /** The part of the filesystem the plugin reads and writes. */
  datatype Disk = Disk(
    nodes: map<Path, Node>,            // install destinations
    backups: map<string, Content>,     // `.studio/<package name>`
    studioDir: bool,                   // whether `.studio` exists
    config: Option<seq<Path>>,         // managed paths of `studio.json` (None: no such file)
    savedConfig: Option<seq<Path>>)    // managed paths of `.studio/studio.json`

  /** The Composer collaborators: the manifests found under managed paths, and the
      installation manager's install path for a package. */
  datatype Host = Host(manifests: map<Path, Document>, installPath: Package -> Path)

  /** An exception raised while building the descriptor of `path`; it ends the pass. */
  datatype Abort = Abort(path: Path, error: ManifestError)

  /** The filesystem after a pass, and the exception that ended it early, if any. */
  datatype Run = Run(disk: Disk, aborted: Option<Abort>)

  /** A configuration file's managed paths; a missing file manages nothing. */
  function Paths(file: Option<seq<Path>>): seq<Path> {
    if file.Some? then file.value else []
  }

  function ManagedPaths(d: Disk): seq<Path> {
    Paths(d.config)
  }

  function PreviouslyManagedPaths(d: Disk): seq<Path> {
    Paths(d.savedConfig)
  }

  /** A symlinked directory or a junction. */
  predicate IsLinked(nodes: map<Path, Node>, p: Path) {
    p in nodes && nodes[p].Link?
  }

  /** A directory that is not a link. */
  predicate IsRealDir(nodes: map<Path, Node>, p: Path) {
    p in nodes && nodes[p].Dir?
  }

  /** Copying a directory into another: files of `from` win, other files of `into` stay. */
  function Merge(into: Content, from: Content): (r: Content)
    ensures r.Keys == into.Keys + from.Keys
    ensures forall f :: f in from ==> r[f] == from[f]
    ensures forall f :: f in into && f !in from ==> r[f] == into[f]
  {
    into + from
  }

  /** The backup directory of `name` as `ensureDirectoryExists` leaves it: empty if new. */
  function BackupOf(backups: map<string, Content>, name: string): Content {
    if name in backups then backups[name] else map[]
  }

  /** `.studio` exists whenever something inside it does. */
  predicate Layout(d: Disk) {
    (d.savedConfig.Some? || d.backups != map[]) ==> d.studioDir
  }

  predicate Resolves(host: Host, p: Path) {
    CreatePackageForPath(host.manifests, p).Success?
  }

  function PackageOf(host: Host, p: Path): Package
    requires Resolves(host, p)
  {
    CreatePackageForPath(host.manifests, p).value
  }

  function DestOf(host: Host, p: Path): Path
    requires Resolves(host, p)
  {
    host.installPath(PackageOf(host, p))
  }

  function NameOf(host: Host, p: Path): string
    requires Resolves(host, p)
  {
    PackageOf(host, p).name
  }

  /** The first managed path whose descriptor cannot be built, with its error. */
  function FirstError(host: Host, paths: seq<Path>): (r: Option<Abort>)
    ensures r.None? <==> forall p :: p in paths ==> Resolves(host, p)
    ensures r.Some? ==> r.value.path in paths && !Resolves(host, r.value.path)
    decreases |paths|
  {
    if paths == [] then None
    else match CreatePackageForPath(host.manifests, paths[0])
      case Failure(e) =>
        assert paths[0] in paths && !Resolves(host, paths[0]);
        Some(Abort(paths[0], e))
      case Success(_) => FirstError(host, paths[1..])
  }

  /** The error reported is the first one: it is the error of the path it names, and every
      path before that one has a buildable descriptor. */
  lemma {:induction false} FirstErrorIsFirst(host: Host, paths: seq<Path>)
    ensures var r := FirstError(host, paths);
            r.Some? ==>
              exists i :: 0 <= i < |paths| && paths[i] == r.value.path
                && CreatePackageForPath(host.manifests, paths[i]) == Failure(r.value.error)
                && forall j :: 0 <= j < i ==> Resolves(host, paths[j])
    decreases |paths|
  {
    if paths != [] && CreatePackageForPath(host.manifests, paths[0]).Success? {
      var r := FirstError(host, paths);
      FirstErrorIsFirst(host, paths[1..]);
      if r.Some? {
        var i :| 0 <= i < |paths[1..]| && paths[1..][i] == r.value.path
                 && CreatePackageForPath(host.manifests, paths[1..][i]) == Failure(r.value.error)
                 && forall j :: 0 <= j < i ==> Resolves(host, paths[1..][j]);
        assert paths[i + 1] == paths[1..][i];
        forall j | 0 <= j < i + 1 ensures Resolves(host, paths[j]) {
          if j > 0 {
            assert paths[j] == paths[1..][j - 1];
          }
        }
      }
    }
  }

  /** One iteration of the link loop, for package `pkg` installed at `dest`: a link is left
      alone; a real directory is copied into `.studio/<name>` (merging into a backup that is
      already there), removed, and replaced by a link to the managed path; a missing
      destination just gets the link. */
  function LinkPackage(d: Disk, pkg: Package, dest: Path): (r: Disk)
    ensures IsLinked(r.nodes, dest)
    ensures IsLinked(d.nodes, dest) ==> r == d
    ensures !IsLinked(d.nodes, dest) ==> r.nodes[dest] == Link(pkg.distUrl)
    ensures forall q :: q != dest ==> Lookup(r.nodes, q) == Lookup(d.nodes, q)
    ensures forall n :: n != pkg.name ==> Lookup(r.backups, n) == Lookup(d.backups, n)
    ensures pkg.name in r.backups <==> pkg.name in d.backups || IsRealDir(d.nodes, dest)
    ensures IsRealDir(d.nodes, dest) ==>
              r.backups[pkg.name] == Merge(BackupOf(d.backups, pkg.name), d.nodes[dest].content)
    ensures !IsRealDir(d.nodes, dest) ==> r.backups == d.backups && r.studioDir == d.studioDir
    ensures r.config == d.config && r.savedConfig == d.savedConfig
    ensures Layout(d) ==> Layout(r)
  {
    if IsLinked(d.nodes, dest) then d
    else if IsRealDir(d.nodes, dest) then
      d.(nodes := d.nodes[dest := Link(pkg.distUrl)],
         backups := d.backups[pkg.name := Merge(BackupOf(d.backups, pkg.name), d.nodes[dest].content)],
         studioDir := true)
    else
      d.(nodes := d.nodes[dest := Link(pkg.distUrl)])
  }

  /** One iteration of the unlink loop: only a link is acted on; it is removed and, when
      `.studio/<name>` exists, that backup is moved back to the destination. */
  function UnlinkPackage(d: Disk, pkg: Package, dest: Path): (r: Disk)
    ensures !IsLinked(r.nodes, dest)
    ensures !IsLinked(d.nodes, dest) ==> r == d
    ensures IsLinked(d.nodes, dest) ==>
              && Lookup(r.nodes, dest) == (if pkg.name in d.backups then Some(Dir(d.backups[pkg.name])) else None)
              && pkg.name !in r.backups
    ensures forall q :: q != dest ==> Lookup(r.nodes, q) == Lookup(d.nodes, q)
    ensures forall n :: n != pkg.name ==> Lookup(r.backups, n) == Lookup(d.backups, n)
    ensures r.studioDir == d.studioDir && r.config == d.config && r.savedConfig == d.savedConfig
    ensures Layout(d) ==> Layout(r)
  {
    if !IsLinked(d.nodes, dest) then d
    else
      var removed := d.nodes - {dest};
      if pkg.name in d.backups then
        d.(nodes := removed[dest := Dir(d.backups[pkg.name])], backups := d.backups - {pkg.name})
      else
        d.(nodes := removed)
  }

  /** The link loop over `paths`, in order; the first descriptor that cannot be built ends it. */
  function LinkAll(host: Host, d: Disk, paths: seq<Path>): (r: Run)
    ensures r.aborted == FirstError(host, paths)
    ensures r.disk.config == d.config && r.disk.savedConfig == d.savedConfig
    ensures forall q :: IsLinked(d.nodes, q) ==> Lookup(r.disk.nodes, q) == Lookup(d.nodes, q)
    ensures r.aborted.None? ==>
              forall p :: p in paths ==> Resolves(host, p) && IsLinked(r.disk.nodes, DestOf(host, p))
    ensures Layout(d) ==> Layout(r.disk)
    decreases |paths|
  {
    if paths == [] then Run(d, None)
    else match CreatePackageForPath(host.manifests, paths[0])
      case Failure(e) => Run(d, Some(Abort(paths[0], e)))
      case Success(pkg) => LinkAll(host, LinkPackage(d, pkg, host.installPath(pkg)), paths[1..])
  }

  /** The unlink loop over `paths`, in order; the first descriptor that cannot be built ends it. */
  function UnlinkAll(host: Host, d: Disk, paths: seq<Path>): (r: Run)
    ensures r.aborted == FirstError(host, paths)
    ensures r.disk.studioDir == d.studioDir && r.disk.config == d.config && r.disk.savedConfig == d.savedConfig
    ensures forall q :: IsLinked(r.disk.nodes, q) ==> IsLinked(d.nodes, q)
    ensures r.aborted.None? ==>
              forall p :: p in paths ==> Resolves(host, p) && !IsLinked(r.disk.nodes, DestOf(host, p))
    ensures Layout(d) ==> Layout(r.disk)
    decreases |paths|
  {
    if paths == [] then Run(d, None)
    else match CreatePackageForPath(host.manifests, paths[0])
      case Failure(e) => Run(d, Some(Abort(paths[0], e)))
      case Success(pkg) => UnlinkAll(host, UnlinkPackage(d, pkg, host.installPath(pkg)), paths[1..])
  }

  /** The tail of the link pass: `.studio` is ensured only when paths are managed, and
      `studio.json` is copied into it when paths are or were managed and the file exists. */
  function Finish(d: Disk): (r: Disk)
    ensures r.nodes == d.nodes && r.backups == d.backups && r.config == d.config
    ensures d.studioDir ==> r.studioDir
    ensures r.savedConfig == d.savedConfig || r.savedConfig == d.config
  {
    var current := ManagedPaths(d);
    var previous := PreviouslyManagedPaths(d);
    d.(studioDir := d.studioDir || |current| > 0,
       savedConfig := if (|current| > 0 || |previous| > 0) && d.config.Some? then d.config else d.savedConfig)
  }

  /** symlinkStudioPackages: the link loop over the managed paths, then, unless it ended
      early, the tail. An aborted pass records nothing. */
  function LinkPass(host: Host, d: Disk): (r: Run)
    ensures r.aborted == FirstError(host, ManagedPaths(d))
    ensures r.disk.config == d.config
    ensures r.aborted.Some? ==> r.disk.savedConfig == d.savedConfig
  {
    var looped := LinkAll(host, d, ManagedPaths(d));
    if looped.aborted.Some? then looped else Run(Finish(looped.disk), None)
  }

  /** unlinkStudioPackages: previously managed paths first, then the current ones. */
  function UnlinkPass(host: Host, d: Disk): (r: Run)
    ensures r.aborted == FirstError(host, PreviouslyManagedPaths(d) + ManagedPaths(d))
    ensures r.disk.studioDir == d.studioDir && r.disk.config == d.config && r.disk.savedConfig == d.savedConfig
    ensures forall q :: IsLinked(r.disk.nodes, q) ==> IsLinked(d.nodes, q)
  {
    UnlinkAll(host, d, PreviouslyManagedPaths(d) + ManagedPaths(d))
  }

  /** Running the link loop over `a + b` is running it over `a`, then over `b` unless `a`
      ended early: once a descriptor fails, no later path is touched. */
  lemma {:induction false} LinkAllAppend(host: Host, d: Disk, a: seq<Path>, b: seq<Path>)
    ensures LinkAll(host, d, a + b) ==
              (var r := LinkAll(host, d, a); if r.aborted.Some? then r else LinkAll(host, r.disk, b))
    decreases |a|
  {
    if a == [] {
      assert a + b == b;
    } else {
      assert (a + b)[0] == a[0] && (a + b)[1..] == a[1..] + b;
      match CreatePackageForPath(host.manifests, a[0])
      case Failure(_) =>
      case Success(pkg) =>
        LinkAllAppend(host, LinkPackage(d, pkg, host.installPath(pkg)), a[1..], b);
    }
  }

  /** Every path up to the first one whose descriptor cannot be built has a link at its
      destination. */
  predicate LinkedUpToFailure(host: Host, nodes: map<Path, Node>, paths: seq<Path>)
    decreases |paths|
  {
    paths == [] ||
    match CreatePackageForPath(host.manifests, paths[0])
    case Failure(_) => true
    case Success(pkg) => IsLinked(nodes, host.installPath(pkg)) && LinkedUpToFailure(host, nodes, paths[1..])
  }

  lemma {:induction false} LinkedUpToFailureKept(host: Host, n1: map<Path, Node>, n2: map<Path, Node>, paths: seq<Path>)
    requires LinkedUpToFailure(host, n1, paths)
    requires forall q :: IsLinked(n1, q) ==> Lookup(n2, q) == Lookup(n1, q)
    ensures LinkedUpToFailure(host, n2, paths)
    decreases |paths|
  {
    if paths != [] {
      match CreatePackageForPath(host.manifests, paths[0])
      case Failure(_) =>
      case Success(pkg) =>
        assert Lookup(n2, host.installPath(pkg)) == Lookup(n1, host.installPath(pkg));
        LinkedUpToFailureKept(host, n1, n2, paths[1..]);
    }
  }

  /** After the link loop every path it reached is linked. */
  lemma {:induction false} LinkAllLinks(host: Host, d: Disk, paths: seq<Path>)
    ensures LinkedUpToFailure(host, LinkAll(host, d, paths).disk.nodes, paths)
    decreases |paths|
  {
    if paths != [] {
      match CreatePackageForPath(host.manifests, paths[0])
      case Failure(_) =>
      case Success(pkg) =>
        var next := LinkPackage(d, pkg, host.installPath(pkg));
        LinkAllLinks(host, next, paths[1..]);
        var after := LinkAll(host, next, paths[1..]).disk.nodes;
        assert Lookup(after, host.installPath(pkg)) == Lookup(next.nodes, host.installPath(pkg));
    }
  }

  /** A link loop over paths that are already linked changes nothing. */
  lemma {:induction false} LinkAllSkipsLinked(host: Host, d: Disk, paths: seq<Path>)
    requires LinkedUpToFailure(host, d.nodes, paths)
    ensures LinkAll(host, d, paths) == Run(d, FirstError(host, paths))
    decreases |paths|
  {
    if paths != [] {
      match CreatePackageForPath(host.manifests, paths[0])
      case Failure(_) =>
      case Success(pkg) =>
        LinkAllSkipsLinked(host, d, paths[1..]);
    }
  }

  /** Idempotence: a second link pass with the same configuration makes no backup, no
      download and no other change, and ends the same way as the first. */
  lemma LinkPassIdempotent(host: Host, d: Disk)
    ensures LinkPass(host, LinkPass(host, d).disk) == LinkPass(host, d)
  {
    var paths := ManagedPaths(d);
    var looped := LinkAll(host, d, paths);
    var first := LinkPass(host, d);
    LinkAllLinks(host, d, paths);
    assert ManagedPaths(first.disk) == paths;
    assert first.disk.nodes == looped.disk.nodes;
    LinkAllSkipsLinked(host, first.disk, paths);
  }

  /** With no managed paths, the link pass creates no `.studio` directory, no backup and no
      link. */
  lemma LinkPassNoStrayState(host: Host, d: Disk)
    requires ManagedPaths(d) == []
    ensures var r := LinkPass(host, d);
            && r.aborted.None?
            && r.disk.nodes == d.nodes && r.disk.backups == d.backups
            && r.disk.studioDir == d.studioDir
            && (PreviouslyManagedPaths(d) == [] ==> r.disk == d)
  {
  }

  /** A complete link pass leaves every current managed path linked, leaves `.studio` in
      place when paths are managed, and records the current configuration in
      `.studio/studio.json` whenever paths are or were managed and `studio.json` exists;
      otherwise the recorded configuration is untouched. */
  lemma LinkPassOutcome(host: Host, d: Disk)
    ensures var r := LinkPass(host, d);
            r.aborted.None? ==>
              && (forall p :: p in ManagedPaths(d) ==> Resolves(host, p) && IsLinked(r.disk.nodes, DestOf(host, p)))
              && (r.disk.studioDir <==> d.studioDir || ManagedPaths(d) != [])
              && ((ManagedPaths(d) != [] || PreviouslyManagedPaths(d) != []) && d.config.Some? ==>
                    PreviouslyManagedPaths(r.disk) == ManagedPaths(d))
              && (!((ManagedPaths(d) != [] || PreviouslyManagedPaths(d) != []) && d.config.Some?) ==>
                    r.disk.savedConfig == d.savedConfig)
  {
  }

  /** The link and unlink passes keep `.studio` in existence whenever something is inside it. */
  lemma PassesKeepLayout(host: Host, d: Disk)
    requires Layout(d)
    ensures Layout(LinkPass(host, d).disk)
    ensures Layout(UnlinkPass(host, d).disk)
  {
  }

  /** An unlink loop over paths none of which is linked changes nothing. */
  lemma {:induction false} UnlinkAllSkipsUnlinked(host: Host, d: Disk, paths: seq<Path>)
    requires forall p :: p in paths && Resolves(host, p) ==> !IsLinked(d.nodes, DestOf(host, p))
    ensures UnlinkAll(host, d, paths) == Run(d, FirstError(host, paths))
    decreases |paths|
  {
    if paths != [] {
      match CreatePackageForPath(host.manifests, paths[0])
      case Failure(_) =>
      case Success(pkg) =>
        assert Resolves(host, paths[0]) && DestOf(host, paths[0]) == host.installPath(pkg);
        UnlinkAllSkipsUnlinked(host, d, paths[1..]);
    }
  }

  /** The unlink pass is a no-op when nothing on disk is linked. */
  lemma UnlinkPassNoopWhenNothingLinked(host: Host, d: Disk)
    requires forall q :: q in d.nodes ==> d.nodes[q].Dir?
    ensures UnlinkPass(host, d).disk == d
  {
    UnlinkAllSkipsUnlinked(host, d, PreviouslyManagedPaths(d) + ManagedPaths(d));
  }

  /** A complete unlink pass leaves no link at the destination of any previously managed
      path (even one since removed from `studio.json`) nor of any current one. */
  lemma UnlinkPassClearsEveryVisitedPath(host: Host, d: Disk)
    ensures var r := UnlinkPass(host, d);
            r.aborted.None? ==>
              && (forall p :: p in PreviouslyManagedPaths(d) ==> Resolves(host, p) && !IsLinked(r.disk.nodes, DestOf(host, p)))
              && (forall p :: p in ManagedPaths(d) ==> Resolves(host, p) && !IsLinked(r.disk.nodes, DestOf(host, p)))
  {
    var paths := PreviouslyManagedPaths(d) + ManagedPaths(d);
    forall p | p in PreviouslyManagedPaths(d) || p in ManagedPaths(d) ensures p in paths { }
  }

  /** Running the unlink loop over `a + b` is running it over `a`, then over `b` unless
      `a` ended early. */
  lemma {:induction false} UnlinkAllAppend(host: Host, d: Disk, a: seq<Path>, b: seq<Path>)
    ensures UnlinkAll(host, d, a + b) ==
              (var r := UnlinkAll(host, d, a); if r.aborted.Some? then r else UnlinkAll(host, r.disk, b))
    decreases |a|
  {
    if a == [] {
      assert a + b == b;
    } else {
      assert (a + b)[0] == a[0] && (a + b)[1..] == a[1..] + b;
      match CreatePackageForPath(host.manifests, a[0])
      case Failure(_) =>
      case Success(pkg) =>
        UnlinkAllAppend(host, UnlinkPackage(d, pkg, host.installPath(pkg)), a[1..], b);
    }
  }
}
