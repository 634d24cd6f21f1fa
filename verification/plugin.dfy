/** The plugin object and the filesystem it drives. The filesystem is a class whose fields the
    plugin's two passes update step by step; each pass is proved to leave exactly the state
    (and the early exit) that the functions of module Reconcile describe. */
module Plugin {
  import opened Common
  import opened Manifest
  import opened Reconcile

  /** Composer's Filesystem utility together with the plain file functions the plugin calls
      (`is_dir`, `file_exists`, `copy`), over the part of the disk the plugin touches. */
  class Filesystem {
    var nodes: map<Path, Node>
    var backups: map<string, Content>
    var studioDir: bool
    var config: Option<seq<Path>>
    var savedConfig: Option<seq<Path>>

    /** The whole state as a value. */
    function Snapshot(): Disk
      reads this
    {
      Disk(nodes, backups, studioDir, config, savedConfig)
    }

    ghost predicate Valid()
      reads this
    {
      Layout(Snapshot())
    }

    constructor (d: Disk)
      ensures Snapshot() == d
    {
      nodes := d.nodes;
      backups := d.backups;
      studioDir := d.studioDir;
      config := d.config;
      savedConfig := d.savedConfig;
    }

    /** `isSymlinkedDirectory(dest) || isJunction(dest)`. */
    method IsLink(dest: Path) returns (b: bool)
      ensures b <==> dest in nodes && nodes[dest].Link?
    {
      b := dest in nodes && nodes[dest].Link?;
    }

    /** `is_dir(dest)`: true of a directory and of a link to one (link targets exist). */
    method IsDirectory(dest: Path) returns (b: bool)
      ensures b <==> dest in nodes
    {
      b := dest in nodes;
    }

    /** `is_dir(.studio/<name>)`. */
    method HasBackup(name: string) returns (b: bool)
      ensures b <==> name in backups
    {
      b := name in backups;
    }

    /** `ensureDirectoryExists(.studio/<name>)`, which also creates `.studio`. */
    method EnsureBackupDirectory(name: string)
      modifies this
      ensures backups == old(backups)[name := BackupOf(old(backups), name)]
      ensures studioDir
      ensures nodes == old(nodes) && config == old(config) && savedConfig == old(savedConfig)
    {
      backups := backups[name := BackupOf(backups, name)];
      studioDir := true;
    }

    /** `copyThenRemove(dest, .studio/<name>)`: the directory's files are copied over the
        backup directory, then the directory is removed. */
    method MoveIntoBackup(dest: Path, name: string)
      requires dest in nodes && nodes[dest].Dir? && name in backups
      modifies this
      ensures backups == old(backups)[name := Merge(old(backups)[name], old(nodes)[dest].content)]
      ensures nodes == old(nodes) - {dest}
      ensures studioDir == old(studioDir) && config == old(config) && savedConfig == old(savedConfig)
    {
      backups := backups[name := Merge(backups[name], nodes[dest].content)];
      nodes := nodes - {dest};
    }

    /** The path downloader: links `dest` to the package's dist URL. */
    method Download(pkg: Package, dest: Path)
      modifies this
      ensures nodes == old(nodes)[dest := Link(pkg.distUrl)]
      ensures backups == old(backups) && studioDir == old(studioDir)
      ensures config == old(config) && savedConfig == old(savedConfig)
    {
      nodes := nodes[dest := Link(pkg.distUrl)];
    }

    /** `removeDirectory(dest)`. */
    method RemoveDirectory(dest: Path)
      modifies this
      ensures nodes == old(nodes) - {dest}
      ensures backups == old(backups) && studioDir == old(studioDir)
      ensures config == old(config) && savedConfig == old(savedConfig)
    {
      nodes := nodes - {dest};
    }

    /** `copyThenRemove(.studio/<name>, dest)`: the backup's files are copied over whatever
        directory is at `dest`, then the backup is removed. */
    method RestoreBackup(name: string, dest: Path)
      requires name in backups
      modifies this
      ensures nodes == old(nodes)[dest := Dir(Merge(if IsRealDir(old(nodes), dest) then old(nodes)[dest].content else map[],
                                                    old(backups)[name]))]
      ensures backups == old(backups) - {name}
      ensures studioDir == old(studioDir) && config == old(config) && savedConfig == old(savedConfig)
    {
      var existing: Content := if IsRealDir(nodes, dest) then nodes[dest].content else map[];
      nodes := nodes[dest := Dir(Merge(existing, backups[name]))];
      backups := backups - {name};
    }

    /** `ensureDirectoryExists('.studio')`. */
    method EnsureStudioDirectory()
      modifies this
      ensures studioDir
      ensures nodes == old(nodes) && backups == old(backups)
      ensures config == old(config) && savedConfig == old(savedConfig)
    {
      studioDir := true;
    }

    /** `file_exists(studio.json)`. */
    method StudioFileExists() returns (b: bool)
      ensures b <==> config.Some?
    {
      b := config.Some?;
    }

    /** `copy(studio.json, .studio/studio.json)`; the target directory must exist. */
    method CopyStudioFile()
      requires config.Some? && studioDir
      modifies this
      ensures savedConfig == old(config)
      ensures nodes == old(nodes) && backups == old(backups)
      ensures studioDir == old(studioDir) && config == old(config)
    {
      savedConfig := config;
    }

    /** getManagedPaths: the paths of `studio.json`, none when the file is missing. */
    method GetManagedPaths() returns (paths: seq<Path>)
      ensures config.None? ==> paths == []
      ensures config.Some? ==> paths == config.value
    {
      paths := if config.Some? then config.value else [];
    }

    /** getPreviouslyManagedPaths: the paths of `.studio/studio.json`. */
    method GetPreviouslyManagedPaths() returns (paths: seq<Path>)
      ensures savedConfig.None? ==> paths == []
      ensures savedConfig.Some? ==> paths == savedConfig.value
    {
      paths := if savedConfig.Some? then savedConfig.value else [];
    }
  }

  /** The link loop unrolled once. */
  lemma LinkAllStep(host: Host, d: Disk, paths: seq<Path>, pkg: Package)
    requires paths != [] && CreatePackageForPath(host.manifests, paths[0]) == Success(pkg)
    ensures LinkAll(host, d, paths) == LinkAll(host, LinkPackage(d, pkg, host.installPath(pkg)), paths[1..])
  {
  }

  /** The unlink loop unrolled once. */
  lemma UnlinkAllStep(host: Host, d: Disk, paths: seq<Path>, pkg: Package)
    requires paths != [] && CreatePackageForPath(host.manifests, paths[0]) == Success(pkg)
    ensures UnlinkAll(host, d, paths) == UnlinkAll(host, UnlinkPackage(d, pkg, host.installPath(pkg)), paths[1..])
  {
  }

  /** The plugin, once activated: its filesystem and the Composer collaborators. */
  class StudioPlugin {
    const filesystem: Filesystem
    const host: Host

    constructor (filesystem: Filesystem, host: Host)
      ensures this.filesystem == filesystem && this.host == host
    {
      this.filesystem := filesystem;
      this.host := host;
    }

    /** symlinkStudioPackages: links every managed path's install destination, backing up a
        real directory first, then ensures `.studio` and records `studio.json`. An exception
        while building a descriptor ends the pass, returned as `aborted`. */
    method SymlinkStudioPackages() returns (aborted: Option<Abort>)
      requires filesystem.Valid()
      modifies filesystem
      ensures filesystem.Valid()
      ensures Run(filesystem.Snapshot(), aborted) == LinkPass(host, old(filesystem.Snapshot()))
    {
      ghost var start := filesystem.Snapshot();
      var paths := filesystem.GetManagedPaths();
      assert paths == ManagedPaths(start);
      for i := 0 to |paths|
        invariant filesystem.Valid()
        invariant LinkAll(host, filesystem.Snapshot(), paths[i..]) == LinkAll(host, start, paths)
      {
        ghost var before := filesystem.Snapshot();
        var path := paths[i];
        assert paths[i..][0] == path && paths[i..][1..] == paths[i + 1..];
        match CreatePackageForPath(host.manifests, path)
        case Failure(e) =>
          return Some(Abort(path, e));
        case Success(pkg) =>
          LinkAllStep(host, before, paths[i..], pkg);
          LinkDestination(pkg, host.installPath(pkg));
      }
      assert paths[|paths|..] == [];

      var current := filesystem.GetManagedPaths();
      if |current| > 0 {
        filesystem.EnsureStudioDirectory();
      }
      var previous := filesystem.GetPreviouslyManagedPaths();
      if |current| > 0 || |previous| > 0 {
        var found := filesystem.StudioFileExists();
        if found {
          filesystem.CopyStudioFile();
        }
      }
      aborted := None;
    }

    /** The body of the `foreach` of symlinkStudioPackages, for `pkg` installed at `dest`. */
    method LinkDestination(pkg: Package, dest: Path)
      modifies filesystem
      ensures filesystem.Snapshot() == LinkPackage(old(filesystem.Snapshot()), pkg, dest)
    {
      var linked := filesystem.IsLink(dest);
      if !linked {
        var isDir := filesystem.IsDirectory(dest);
        if isDir {
          filesystem.EnsureBackupDirectory(pkg.name);
          filesystem.MoveIntoBackup(dest, pkg.name);
        }
        filesystem.Download(pkg, dest);
      }
    }

    /** The body of the `foreach` of unlinkStudioPackages, for `pkg` installed at `dest`. */
    method UnlinkDestination(pkg: Package, dest: Path)
      modifies filesystem
      ensures filesystem.Snapshot() == UnlinkPackage(old(filesystem.Snapshot()), pkg, dest)
    {
      ghost var before := filesystem.Snapshot();
      var linked := filesystem.IsLink(dest);
      if linked {
        filesystem.RemoveDirectory(dest);
        var hasBackup := filesystem.HasBackup(pkg.name);
        if hasBackup {
          filesystem.RestoreBackup(pkg.name, dest);
          assert Merge(map[], before.backups[pkg.name]) == before.backups[pkg.name];
        }
      }
    }

    /** unlinkStudioPackages: over the previously managed paths and then the current ones,
        every linked install destination is removed and its backup, if any, moved back. */
    method UnlinkStudioPackages() returns (aborted: Option<Abort>)
      requires filesystem.Valid()
      modifies filesystem
      ensures filesystem.Valid()
      ensures Run(filesystem.Snapshot(), aborted) == UnlinkPass(host, old(filesystem.Snapshot()))
    {
      ghost var start := filesystem.Snapshot();
      var previous := filesystem.GetPreviouslyManagedPaths();
      var current := filesystem.GetManagedPaths();
      var paths := previous + current;
      assert paths == PreviouslyManagedPaths(start) + ManagedPaths(start);
      for i := 0 to |paths|
        invariant filesystem.Valid()
        invariant UnlinkAll(host, filesystem.Snapshot(), paths[i..]) == UnlinkAll(host, start, paths)
      {
        ghost var before := filesystem.Snapshot();
        var path := paths[i];
        assert paths[i..][0] == path && paths[i..][1..] == paths[i + 1..];
        match CreatePackageForPath(host.manifests, path)
        case Failure(e) =>
          return Some(Abort(path, e));
        case Success(pkg) =>
          UnlinkAllStep(host, before, paths[i..], pkg);
          UnlinkDestination(pkg, host.installPath(pkg));
      }
      assert paths[|paths|..] == [];
      aborted := None;
    }
  }
}
