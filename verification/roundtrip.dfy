/** Link followed by unlink: for packages with distinct names and install destinations,
    none of them linked and none backed up beforehand, the link loop followed by the unlink
    loop puts every original directory back and leaves no backup. */
module RoundTrip {
  import opened Common
  import opened Manifest
  import opened Reconcile

  predicate AllResolve(host: Host, ps: seq<Path>) {
    forall p :: p in ps ==> Resolves(host, p)
  }

  function Dests(host: Host, ps: seq<Path>): set<Path>
    requires AllResolve(host, ps)
    decreases |ps|
  {
    if ps == [] then {} else {DestOf(host, ps[0])} + Dests(host, ps[1..])
  }

  function Names(host: Host, ps: seq<Path>): set<string>
    requires AllResolve(host, ps)
    decreases |ps|
  {
    if ps == [] then {} else {NameOf(host, ps[0])} + Names(host, ps[1..])
  }

  /** No two managed paths share a package name or an install destination. */
  predicate Distinct(host: Host, ps: seq<Path>)
    requires AllResolve(host, ps)
    decreases |ps|
  {
    ps == [] ||
    (DestOf(host, ps[0]) !in Dests(host, ps[1..]) &&
     NameOf(host, ps[0]) !in Names(host, ps[1..]) &&
     Distinct(host, ps[1..]))
  }

  /** A destination's content when it is a real directory. */
  function ContentAt(nodes: map<Path, Node>, q: Path): Option<Content> {
    if IsRealDir(nodes, q) then Some(nodes[q].content) else None
  }

  /** A backup moved back into place. */
  function AsDir(c: Option<Content>): Option<Node> {
    if c.Some? then Some(Dir(c.value)) else None
  }

  lemma {:induction false} InDestsAndNames(host: Host, ps: seq<Path>, p: Path)
    requires AllResolve(host, ps) && p in ps
    ensures DestOf(host, p) in Dests(host, ps) && NameOf(host, p) in Names(host, ps)
    decreases |ps|
  {
    if ps[0] != p {
      InDestsAndNames(host, ps[1..], p);
    }
  }

  lemma {:induction false} DestOwner(host: Host, ps: seq<Path>, q: Path) returns (p: Path)
    requires AllResolve(host, ps) && q in Dests(host, ps)
    ensures p in ps && DestOf(host, p) == q
    decreases |ps|
  {
    if DestOf(host, ps[0]) == q {
      p := ps[0];
    } else {
      p := DestOwner(host, ps[1..], q);
    }
  }

  lemma {:induction false} NameOwner(host: Host, ps: seq<Path>, n: string) returns (p: Path)
    requires AllResolve(host, ps) && n in Names(host, ps)
    ensures p in ps && NameOf(host, p) == n
    decreases |ps|
  {
    if NameOf(host, ps[0]) == n {
      p := ps[0];
    } else {
      p := NameOwner(host, ps[1..], n);
    }
  }

  /** The link loop over distinct, not yet linked, not yet backed up packages: each
      destination becomes a link, each real directory is found under its package's backup,
      and nothing else changes. */
  lemma {:induction false} LinkAllFresh(host: Host, d: Disk, ps: seq<Path>)
    requires AllResolve(host, ps) && Distinct(host, ps)
    requires forall p :: p in ps ==> !IsLinked(d.nodes, DestOf(host, p)) && NameOf(host, p) !in d.backups
    ensures LinkAll(host, d, ps).aborted.None?
    ensures var r := LinkAll(host, d, ps).disk;
            && (forall q :: q !in Dests(host, ps) ==> Lookup(r.nodes, q) == Lookup(d.nodes, q))
            && (forall n :: n !in Names(host, ps) ==> Lookup(r.backups, n) == Lookup(d.backups, n))
            && (forall p :: p in ps ==>
                  IsLinked(r.nodes, DestOf(host, p)) &&
                  Lookup(r.backups, NameOf(host, p)) == ContentAt(d.nodes, DestOf(host, p)))
    decreases |ps|
  {
    if ps != [] {
      var p0, rest := ps[0], ps[1..];
      var pkg := PackageOf(host, p0);
      var dest0 := DestOf(host, p0);
      var d1 := LinkPackage(d, pkg, dest0);
      assert LinkAll(host, d, ps) == LinkAll(host, d1, rest);
      forall p | p in rest
        ensures DestOf(host, p) != dest0 && NameOf(host, p) != pkg.name
      {
        InDestsAndNames(host, rest, p);
      }
      forall p | p in rest
        ensures !IsLinked(d1.nodes, DestOf(host, p)) && NameOf(host, p) !in d1.backups
      {
        assert Lookup(d1.nodes, DestOf(host, p)) == Lookup(d.nodes, DestOf(host, p));
        assert Lookup(d1.backups, NameOf(host, p)) == Lookup(d.backups, NameOf(host, p));
      }
      LinkAllFresh(host, d1, rest);
      var r := LinkAll(host, d1, rest).disk;
      forall q | q !in Dests(host, ps) ensures Lookup(r.nodes, q) == Lookup(d.nodes, q) {
        assert q !in Dests(host, rest) && q != dest0;
      }
      forall n | n !in Names(host, ps) ensures Lookup(r.backups, n) == Lookup(d.backups, n) {
        assert n !in Names(host, rest) && n != pkg.name;
      }
      forall p | p in ps
        ensures IsLinked(r.nodes, DestOf(host, p))
        ensures Lookup(r.backups, NameOf(host, p)) == ContentAt(d.nodes, DestOf(host, p))
      {
        if p == p0 {
          assert Lookup(r.nodes, dest0) == Lookup(d1.nodes, dest0);
          assert Lookup(r.backups, pkg.name) == Lookup(d1.backups, pkg.name);
          if IsRealDir(d.nodes, dest0) {
            var c := d.nodes[dest0].content;
            assert Merge(BackupOf(d.backups, pkg.name), c) == c;
          }
        } else {
          assert p in rest;
          assert ContentAt(d1.nodes, DestOf(host, p)) == ContentAt(d.nodes, DestOf(host, p)) by {
            assert Lookup(d1.nodes, DestOf(host, p)) == Lookup(d.nodes, DestOf(host, p));
          }
        }
      }
    }
  }

  /** The unlink loop over distinct, linked packages: each destination gets its backup back
      (or is left missing when there is none), each backup is gone, and nothing else
      changes. */
  lemma {:induction false} UnlinkAllLinked(host: Host, e: Disk, ps: seq<Path>)
    requires AllResolve(host, ps) && Distinct(host, ps)
    requires forall p :: p in ps ==> IsLinked(e.nodes, DestOf(host, p))
    ensures UnlinkAll(host, e, ps).aborted.None?
    ensures var r := UnlinkAll(host, e, ps).disk;
            && (forall q :: q !in Dests(host, ps) ==> Lookup(r.nodes, q) == Lookup(e.nodes, q))
            && (forall n :: n !in Names(host, ps) ==> Lookup(r.backups, n) == Lookup(e.backups, n))
            && (forall p :: p in ps ==>
                  Lookup(r.nodes, DestOf(host, p)) == AsDir(Lookup(e.backups, NameOf(host, p))) &&
                  NameOf(host, p) !in r.backups)
    decreases |ps|
  {
    if ps != [] {
      var p0, rest := ps[0], ps[1..];
      var pkg := PackageOf(host, p0);
      var dest0 := DestOf(host, p0);
      var e1 := UnlinkPackage(e, pkg, dest0);
      assert UnlinkAll(host, e, ps) == UnlinkAll(host, e1, rest);
      forall p | p in rest
        ensures DestOf(host, p) != dest0 && NameOf(host, p) != pkg.name
      {
        InDestsAndNames(host, rest, p);
      }
      forall p | p in rest ensures IsLinked(e1.nodes, DestOf(host, p)) {
        assert Lookup(e1.nodes, DestOf(host, p)) == Lookup(e.nodes, DestOf(host, p));
      }
      UnlinkAllLinked(host, e1, rest);
      var r := UnlinkAll(host, e1, rest).disk;
      forall q | q !in Dests(host, ps) ensures Lookup(r.nodes, q) == Lookup(e.nodes, q) {
        assert q !in Dests(host, rest) && q != dest0;
      }
      forall n | n !in Names(host, ps) ensures Lookup(r.backups, n) == Lookup(e.backups, n) {
        assert n !in Names(host, rest) && n != pkg.name;
      }
      forall p | p in ps
        ensures Lookup(r.nodes, DestOf(host, p)) == AsDir(Lookup(e.backups, NameOf(host, p)))
        ensures NameOf(host, p) !in r.backups
      {
        if p == p0 {
          assert Lookup(r.nodes, dest0) == Lookup(e1.nodes, dest0);
          assert Lookup(r.backups, pkg.name) == Lookup(e1.backups, pkg.name);
        } else {
          assert p in rest;
          assert Lookup(e1.backups, NameOf(host, p)) == Lookup(e.backups, NameOf(host, p));
        }
      }
    }
  }

  /** Shared step of the two round-trip lemmas: `e` holds what the link loop left. */
  lemma RestoresFrom(host: Host, d: Disk, e: Disk, ps: seq<Path>)
    requires AllResolve(host, ps) && Distinct(host, ps)
    requires forall p :: p in ps ==> !IsLinked(d.nodes, DestOf(host, p)) && NameOf(host, p) !in d.backups
    requires e.nodes == LinkAll(host, d, ps).disk.nodes && e.backups == LinkAll(host, d, ps).disk.backups
    ensures var restored := UnlinkAll(host, e, ps);
            restored.aborted.None? && restored.disk.nodes == d.nodes && restored.disk.backups == d.backups
  {
    LinkAllFresh(host, d, ps);
    UnlinkAllLinked(host, e, ps);
    var r := UnlinkAll(host, e, ps).disk;
    forall q ensures Lookup(r.nodes, q) == Lookup(d.nodes, q) {
      if q in Dests(host, ps) {
        var p := DestOwner(host, ps, q);
        assert Lookup(e.backups, NameOf(host, p)) == ContentAt(d.nodes, q);
      }
    }
    forall n ensures Lookup(r.backups, n) == Lookup(d.backups, n) {
      if n in Names(host, ps) {
        var p := NameOwner(host, ps, n);
      }
    }
    LookupExtensional(r.nodes, d.nodes);
    LookupExtensional(r.backups, d.backups);
  }

  /** Link loop then unlink loop over the same packages restores every install destination
      and leaves no backup behind. */
  lemma LinkThenUnlinkRestores(host: Host, d: Disk, ps: seq<Path>)
    requires AllResolve(host, ps) && Distinct(host, ps)
    requires forall p :: p in ps ==> !IsLinked(d.nodes, DestOf(host, p)) && NameOf(host, p) !in d.backups
    ensures var linked := LinkAll(host, d, ps);
            var restored := UnlinkAll(host, linked.disk, ps);
            && linked.aborted.None? && restored.aborted.None?
            && restored.disk.nodes == d.nodes && restored.disk.backups == d.backups
  {
    LinkAllFresh(host, d, ps);
    RestoresFrom(host, d, LinkAll(host, d, ps).disk, ps);
  }

  /** The same for whole passes: a link pass over a non-empty `studio.json` followed by an
      unlink pass (which then visits the recorded copy's paths and the current ones) restores
      every install destination and leaves no backup behind. */
  lemma LinkPassThenUnlinkPassRestores(host: Host, d: Disk)
    requires ManagedPaths(d) != []
    requires AllResolve(host, ManagedPaths(d)) && Distinct(host, ManagedPaths(d))
    requires forall p :: p in ManagedPaths(d) ==>
               !IsLinked(d.nodes, DestOf(host, p)) && NameOf(host, p) !in d.backups
    ensures var linked := LinkPass(host, d);
            var restored := UnlinkPass(host, linked.disk);
            && linked.aborted.None? && restored.aborted.None?
            && restored.disk.nodes == d.nodes && restored.disk.backups == d.backups
  {
    var ps := ManagedPaths(d);
    LinkAllFresh(host, d, ps);
    var linked := LinkPass(host, d);
    assert PreviouslyManagedPaths(linked.disk) == ps && ManagedPaths(linked.disk) == ps;
    UnlinkAllAppend(host, linked.disk, ps, ps);
    RestoresFrom(host, d, linked.disk, ps);
    var once := UnlinkAll(host, linked.disk, ps);
    UnlinkAllSkipsUnlinked(host, once.disk, ps);
  }
}
