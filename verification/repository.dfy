/** Name matching between installed and Studio-managed packages (getIntersection) and the
    replacement of installed packages by managed ones in Composer's local repository
    (loadStudioPackagesForDump). */
module Repository {
  import opened Common
  import opened Manifest

  /** First package of `repo` with the given name: `findPackage($name, '*')` on the
      composite of the path repositories, which asks each repository in turn. */
  function FindPackage(repo: seq<Package>, name: string): (r: Option<Package>)
    ensures r.Some? ==> r.value in repo && r.value.name == name
    ensures r.None? <==> forall p :: p in repo ==> p.name != name
    decreases |repo|
  {
    if repo == [] then None
    else if repo[0].name == name then Some(repo[0])
    else FindPackage(repo[1..], name)
  }

  /** The package found is the first one carrying the name. */
  lemma {:induction false} FindPackageFirst(repo: seq<Package>, name: string, i: nat)
    requires i < |repo| && repo[i].name == name
    requires forall j :: 0 <= j < i ==> repo[j].name != name
    ensures FindPackage(repo, name) == Some(repo[i])
    decreases i
  {
    if i > 0 {
      FindPackageFirst(repo[1..], name, i - 1);
    }
  }

  function NamesOf(s: seq<Package>): set<string> {
    set p | p in s :: p.name
  }

  /** getIntersection: for each installed package in order, the managed package of the same
      name, dropping installed packages that no managed package matches. */
  function Intersection(installed: seq<Package>, managed: seq<Package>): (r: seq<Package>)
    ensures |r| <= |installed|
    ensures forall q :: q in r ==> q in managed
    decreases |installed|
  {
    if installed == [] then []
    else MatchOf(managed, installed[0]) + Intersection(installed[1..], managed)
  }

  /** Every package of the intersection is a managed package named like an installed one,
      there is at most one per installed package, and every installed package that some
      managed package matches by name contributes the first such managed package. */
  lemma {:induction false} IntersectionMembers(installed: seq<Package>, managed: seq<Package>)
    ensures var r := Intersection(installed, managed);
            && |r| <= |installed|
            && (forall k :: 0 <= k < |r| ==> r[k] in managed && r[k].name in NamesOf(installed))
            && (forall p :: p in installed && FindPackage(managed, p.name).Some? ==>
                  FindPackage(managed, p.name).value in r)
    decreases |installed|
  {
    if installed != [] {
      var head, rest := installed[0], installed[1..];
      IntersectionMembers(rest, managed);
      var tail := Intersection(rest, managed);
      var r := MatchOf(managed, head) + tail;
      assert Intersection(installed, managed) == r;
      forall k | 0 <= k < |r| ensures r[k] in managed && r[k].name in NamesOf(installed) {
        if k < |MatchOf(managed, head)| {
          assert r[k] == FindPackage(managed, head.name).value;
          assert head in installed;
        } else {
          assert r[k] == tail[k - |MatchOf(managed, head)|];
          assert r[k].name in NamesOf(rest);
          var q :| q in rest && q.name == r[k].name;
          assert q in installed;
        }
      }
      forall p | p in installed && FindPackage(managed, p.name).Some?
        ensures FindPackage(managed, p.name).value in r
      {
        if p != head {
          assert p in rest;
        }
      }
    }
  }

  /** The managed package standing in for `p`, if any: `array_filter` drops the nulls. */
  function MatchOf(managed: seq<Package>, p: Package): (r: seq<Package>)
    ensures |r| <= 1
    ensures r == [] <==> forall q :: q in managed ==> q.name != p.name
    ensures forall m :: m in r ==> m in managed && m.name == p.name
  {
    match FindPackage(managed, p.name)
    case Some(m) => [m]
    case None => []
  }

  /** The intersection keeps installed-package order: it is computed package by package. */
  lemma {:induction false} IntersectionAppend(a: seq<Package>, b: seq<Package>, managed: seq<Package>)
    ensures Intersection(a + b, managed) == Intersection(a, managed) + Intersection(b, managed)
    decreases |a|
  {
    if a == [] {
      assert a + b == b;
    } else {
      assert (a + b)[0] == a[0] && (a + b)[1..] == a[1..] + b;
      IntersectionAppend(a[1..], b, managed);
      var head := MatchOf(managed, a[0]);
      calc {
        Intersection(a + b, managed);
        head + Intersection(a[1..] + b, managed);
        head + (Intersection(a[1..], managed) + Intersection(b, managed));
        (head + Intersection(a[1..], managed)) + Intersection(b, managed);
      }
    }
  }

  /** An installed package with no managed counterpart contributes nothing. */
  lemma IntersectionOfUnmanaged(installed: seq<Package>, managed: seq<Package>)
    requires forall p :: p in installed ==> FindPackage(managed, p.name).None?
    ensures Intersection(installed, managed) == []
  {
    if installed != [] {
      assert forall k :: 0 <= k < |installed| - 1 ==> installed[1..][k] in installed;
      IntersectionOfUnmanaged(installed[1..], managed);
    }
  }

  /** `$packagesToReplace`: the names of the intersection, in order. */
  function NameList(s: seq<Package>): (r: seq<string>)
    ensures |r| == |s| && forall k :: 0 <= k < |s| ==> r[k] == s[k].name
  {
    seq(|s|, k requires 0 <= k < |s| => s[k].name)
  }

  /** The packages of `s` whose name is listed in `names`, in order (`$packagesToRemove`). */
  function Matching(s: seq<Package>, names: seq<string>): seq<Package>
    decreases |s|
  {
    if s == [] then []
    else (if s[0].name in names then [s[0]] else []) + Matching(s[1..], names)
  }

  /** The packages of `s` whose name is not listed in `names`, in order. */
  function Others(s: seq<Package>, names: seq<string>): seq<Package>
    decreases |s|
  {
    if s == [] then []
    else (if s[0].name !in names then [s[0]] else []) + Others(s[1..], names)
  }

  /** The two filters split `s`: a package is kept by exactly one of them, according to
      whether its name is listed. */
  lemma {:induction false} MatchingOthersSplit(s: seq<Package>, names: seq<string>)
    ensures forall p :: p in Matching(s, names) <==> p in s && p.name in names
    ensures forall p :: p in Others(s, names) <==> p in s && p.name !in names
    ensures |Matching(s, names)| + |Others(s, names)| == |s|
    decreases |s|
  {
    if s != [] {
      MatchingOthersSplit(s[1..], names);
      forall p ensures p in s <==> p == s[0] || p in s[1..] {
        if p in s && p != s[0] {
          var k :| 0 <= k < |s| && s[k] == p;
          assert s[1..][k - 1] == p;
        }
      }
    }
  }

  lemma {:induction false} MatchingAppend(a: seq<Package>, b: seq<Package>, names: seq<string>)
    ensures Matching(a + b, names) == Matching(a, names) + Matching(b, names)
    decreases |a|
  {
    if a == [] {
      assert a + b == b;
    } else {
      assert (a + b)[0] == a[0] && (a + b)[1..] == a[1..] + b;
      MatchingAppend(a[1..], b, names);
    }
  }

  /** Filtering one more package of `s`. */
  lemma MatchingSnoc(s: seq<Package>, i: nat, names: seq<string>)
    requires i < |s|
    ensures Matching(s[..i + 1], names) ==
              Matching(s[..i], names) + (if s[i].name in names then [s[i]] else [])
  {
    assert s[..i + 1] == s[..i] + [s[i]];
    MatchingAppend(s[..i], [s[i]], names);
    assert Matching([s[i]], names) ==
      (if s[i].name in names then [s[i]] else []) + Matching([], names);
  }

  /** The kept packages stay in their order: the filter works package by package. */
  lemma {:induction false} OthersAppend(a: seq<Package>, b: seq<Package>, names: seq<string>)
    ensures Others(a + b, names) == Others(a, names) + Others(b, names)
    decreases |a|
  {
    if a == [] {
      assert a + b == b;
    } else {
      assert (a + b)[0] == a[0] && (a + b)[1..] == a[1..] + b;
      OthersAppend(a[1..], b, names);
    }
  }

  /** Each kept package is kept as many times as it occurs; the others not at all. */
  lemma {:induction false} OthersCount(s: seq<Package>, names: seq<string>, p: Package)
    ensures multiset(Others(s, names))[p] == if p.name in names then 0 else multiset(s)[p]
    decreases |s|
  {
    if s != [] {
      assert s == [s[0]] + s[1..];
      OthersCount(s[1..], names, p);
    }
  }

  /** Composer compares packages by unique name, that is name and version. */
  predicate SameUniqueName(p: Package, q: Package) {
    p.name == q.name && p.version == q.version
  }

  /** `removePackage` of Composer's array repository: drops the first package with the same
      unique name, if any. */
  function RemoveFirst(s: seq<Package>, p: Package): (r: seq<Package>)
    ensures |r| <= |s| <= |r| + 1
    decreases |s|
  {
    if s == [] then []
    else if SameUniqueName(s[0], p) then s[1..]
    else [s[0]] + RemoveFirst(s[1..], p)
  }

  /** `s` after removing its first `k` packages whose name is listed in `names`. */
  function DropMatching(s: seq<Package>, names: seq<string>, k: nat): seq<Package>
    decreases |s|
  {
    if s == [] then []
    else if s[0].name in names && k > 0 then DropMatching(s[1..], names, k - 1)
    else [s[0]] + DropMatching(s[1..], names, k)
  }

  lemma {:induction false} DropNone(s: seq<Package>, names: seq<string>)
    ensures DropMatching(s, names, 0) == s
    decreases |s|
  {
    if s != [] {
      DropNone(s[1..], names);
    }
  }

  lemma {:induction false} DropAll(s: seq<Package>, names: seq<string>)
    ensures DropMatching(s, names, |Matching(s, names)|) == Others(s, names)
    decreases |s|
  {
    if s != [] {
      DropAll(s[1..], names);
    }
  }

  /** Removing the next package of `$packagesToRemove` removes exactly the next matching
      package: no earlier package shares its unique name, since sharing it means sharing
      the name. */
  lemma {:induction false} DropStep(s: seq<Package>, names: seq<string>, k: nat)
    requires k < |Matching(s, names)|
    ensures RemoveFirst(DropMatching(s, names, k), Matching(s, names)[k]) == DropMatching(s, names, k + 1)
    decreases |s|
  {
    var t := Matching(s, names)[k];
    assert t in Matching(s, names);
    MatchingOthersSplit(s, names);
    if s[0].name in names {
      if k > 0 {
        DropStep(s[1..], names, k - 1);
      } else {
        DropNone(s[1..], names);
        DropNone(s, names);
      }
    } else {
      assert !SameUniqueName(s[0], t);
      DropStep(s[1..], names, k);
    }
  }

  /** What loadStudioPackagesForDump leaves in the local repository: the packages whose name
      no intersection package carries, in order, followed by the intersection. */
  function ReloadedPackages(local: seq<Package>, managed: seq<Package>): (r: seq<Package>)
    ensures forall q :: q in r ==> q in local || q in managed
  {
    var intersection := Intersection(local, managed);
    var kept := Others(local, NameList(intersection));
    assert forall q :: q in kept ==> q in local by {
      forall q | q in kept ensures q in local {
        OthersCount(local, NameList(intersection), q);
      }
    }
    kept + intersection
  }

  lemma NameListNames(s: seq<Package>)
    ensures forall n :: n in NameList(s) <==> n in NamesOf(s)
  {
    var names := NameList(s);
    forall n: string ensures n in names <==> n in NamesOf(s) {
      if n in names {
        var k :| 0 <= k < |names| && names[k] == n;
        assert s[k] in s;
      }
      if n in NamesOf(s) {
        var q :| q in s && q.name == n;
        var k :| 0 <= k < |s| && s[k] == q;
        assert names[k] == n;
      }
    }
  }

  /** After the reload no pre-existing package named like an intersection package is left
      among the kept ones, every other package is kept, and every intersection package has
      been added at the end, in intersection order. */
  lemma ReloadReplacesManaged(local: seq<Package>, managed: seq<Package>)
    ensures var intersection := Intersection(local, managed);
            var r := ReloadedPackages(local, managed);
            var kept := |r| - |intersection|;
            && 0 <= kept <= |local|
            && r[kept..] == intersection
            && (forall p :: p in r[..kept] <==> p in local && p.name !in NamesOf(intersection))
            && (forall p :: p in local && FindPackage(managed, p.name).Some? ==> p !in r[..kept])
            && (forall p :: multiset(r[..kept])[p] ==
                  if p.name in NamesOf(intersection) then 0 else multiset(local)[p])
            && (forall a, b :: local == a + b ==>
                  r[..kept] == Others(a, NameList(intersection)) + Others(b, NameList(intersection)))
  {
    var intersection := Intersection(local, managed);
    var names := NameList(intersection);
    var others := Others(local, names);
    var r := others + intersection;
    assert ReloadedPackages(local, managed) == r;
    MatchingOthersSplit(local, names);
    assert r[|others|..] == intersection && r[..|others|] == others;
    NameListNames(intersection);
    IntersectionMembers(local, managed);
    forall p | p in local && FindPackage(managed, p.name).Some?
      ensures p.name in NamesOf(intersection)
    {
      assert FindPackage(managed, p.name).value in intersection;
    }
    forall p: Package ensures multiset(others)[p] == if p.name in NamesOf(intersection) then 0 else multiset(local)[p] {
      OthersCount(local, names, p);
    }
    forall a, b | local == a + b ensures others == Others(a, names) + Others(b, names) {
      OthersAppend(a, b, names);
    }
  }

  /** Composer's local repository, as far as the reload touches it. */
  class LocalRepository {
    var packages: seq<Package>

    constructor (packages: seq<Package>)
      ensures this.packages == packages
    {
      this.packages := packages;
    }

    method GetCanonicalPackages() returns (r: seq<Package>)
      ensures r == packages
    {
      r := packages;
    }

    method RemovePackage(p: Package)
      modifies this
      ensures packages == RemoveFirst(old(packages), p)
    {
      packages := RemoveFirst(packages, p);
    }

    method AddPackage(p: Package)
      modifies this
      ensures packages == old(packages) + [p]
    {
      packages := packages + [p];
    }
  }

  /** The first loop of loadStudioPackagesForDump: the names of the intersection, in order. */
  method PackagesToReplace(intersection: seq<Package>) returns (names: seq<string>)
    ensures names == NameList(intersection)
  {
    names := [];
    for i := 0 to |intersection|
      invariant |names| == i
      invariant forall k :: 0 <= k < i ==> names[k] == intersection[k].name
    {
      names := names + [intersection[i].name];
    }
  }

  /** The second loop of loadStudioPackagesForDump: the local packages whose name is to be
      replaced, in order. */
  method PackagesToRemove(canonical: seq<Package>, names: seq<string>) returns (r: seq<Package>)
    ensures r == Matching(canonical, names)
  {
    r := [];
    for i := 0 to |canonical|
      invariant r == Matching(canonical[..i], names)
    {
      MatchingSnoc(canonical, i, names);
      if canonical[i].name in names {
        r := r + [canonical[i]];
      }
    }
    assert canonical[..|canonical|] == canonical;
  }

  /** loadStudioPackagesForDump: removes from the local repository every package named like
      a managed one and adds the managed packages instead. */
  method LoadStudioPackagesForDump(localRepo: LocalRepository, managed: seq<Package>)
    modifies localRepo
    ensures localRepo.packages == ReloadedPackages(old(localRepo.packages), managed)
  {
    var installed := localRepo.GetCanonicalPackages();
    var intersection := Intersection(installed, managed);

    var packagesToReplace := PackagesToReplace(intersection);
    var canonical := localRepo.GetCanonicalPackages();
    var packagesToRemove := PackagesToRemove(canonical, packagesToReplace);

    DropNone(canonical, packagesToReplace);
    assert |packagesToRemove| == |Matching(canonical, packagesToReplace)|;
    for i := 0 to |packagesToRemove|
      invariant localRepo.packages == DropMatching(canonical, packagesToReplace, i)
    {
      DropStep(canonical, packagesToReplace, i);
      localRepo.RemovePackage(packagesToRemove[i]);
    }
    DropAll(canonical, packagesToReplace);

    for i := 0 to |intersection|
      invariant localRepo.packages == Others(canonical, packagesToReplace) + intersection[..i]
    {
      assert intersection[..i + 1] == intersection[..i] + [intersection[i]];
      localRepo.AddPackage(intersection[i]);
    }
    assert intersection[..|intersection|] == intersection;
  }
}
