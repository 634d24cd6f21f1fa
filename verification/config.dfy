/** Studio's own configuration (src/Config/Config.php): a list of package ids, loaded from
    storage on first use and written back after every change. */
module StudioConfig {
  import opened Common

  /** A package as the command line describes it; the configuration stores its composer
      id, and two packages are equal when their composer ids are. */
  datatype StudioPackage = StudioPackage(composerId: string, path: string)

  /** Where the list is kept (a JSON file in the repository); it counts its loads, so that
      the laziness of the configuration can be stated. */
  class Storage {
    var contents: seq<string>
    var loads: nat

    constructor (contents: seq<string>)
      ensures this.contents == contents && loads == 0
    {
      this.contents := contents;
      loads := 0;
    }

    method Load() returns (r: seq<string>)
      modifies this
      ensures r == contents && contents == old(contents)
      ensures loads == old(loads) + 1
    {
      r := contents;
      loads := loads + 1;
    }

    method Store(s: seq<string>)
      modifies this
      ensures contents == s && loads == old(loads)
    {
      contents := s;
    }
  }

  /** What the filter of removePackage raises: its callback is declared to take a package
      object, and the list holds composer-id strings. */
  datatype ConfigError = ElementTypeError

  /** removePackage's filter as written: the callback's first call, on the first stored id,
      raises; only an empty list gets through (and stays empty). */
  function FilterAsWritten(s: seq<string>, p: StudioPackage): Result<seq<string>, ConfigError> {
    if s == [] then Success([]) else Failure(ElementTypeError)
  }

  /** As written, removing a package gives the intended result only on an empty list: in
      particular adding a package and then removing it always raises. */
  lemma FilterAsWrittenRaises(s: seq<string>, p: StudioPackage)
    ensures FilterAsWritten(s, p) == Success(Without(s, p)) <==> s == []
    ensures FilterAsWritten(s + [p.composerId], p) == Failure(ElementTypeError)
  {
  }

  /** The list without the elements equal to `p`, the others in their order
      (`array_filter` with the negated `equals`). */
  function Without(s: seq<string>, p: StudioPackage): (r: seq<string>)
    ensures p.composerId !in r
    ensures multiset(r) == multiset(s)[p.composerId := 0]
    decreases |s|
  {
    if s == [] then []
    else
      assert s == [s[0]] + s[1..];
      (if s[0] == p.composerId then [] else [s[0]]) + Without(s[1..], p)
  }

  /** Removal keeps the relative order of what it keeps: it works element by element. */
  lemma {:induction false} WithoutAppend(a: seq<string>, b: seq<string>, p: StudioPackage)
    ensures Without(a + b, p) == Without(a, p) + Without(b, p)
    decreases |a|
  {
    if a == [] {
      assert a + b == b;
    } else {
      assert (a + b)[0] == a[0] && (a + b)[1..] == a[1..] + b;
      WithoutAppend(a[1..], b, p);
    }
  }

  /** Removing a package that is not listed changes nothing. */
  lemma {:induction false} WithoutAbsent(s: seq<string>, p: StudioPackage)
    requires p.composerId !in s
    ensures Without(s, p) == s
    decreases |s|
  {
    if s != [] {
      assert s[0] != p.composerId;
      assert p.composerId !in s[1..] by {
        forall k | 0 <= k < |s| - 1 ensures s[1..][k] != p.composerId {
          assert s[1..][k] == s[k + 1];
        }
      }
      WithoutAbsent(s[1..], p);
    }
  }

  /** Removing twice is removing once. */
  lemma WithoutIdempotent(s: seq<string>, p: StudioPackage)
    ensures Without(Without(s, p), p) == Without(s, p)
  {
    WithoutAbsent(Without(s, p), p);
  }

  /** Adding a package and then removing it leaves the list without that package: the
      addition is undone, together with any earlier copies. */
  lemma AddThenRemove(s: seq<string>, p: StudioPackage)
    ensures Without(s + [p.composerId], p) == Without(s, p)
  {
    WithoutAppend(s, [p.composerId], p);
    assert Without([p.composerId], p) == [] + Without([], p);
  }

  class Config {
    const storage: Storage
    var packages: seq<string>
    var loaded: bool
    /** How many loads storage had seen when this configuration was made. */
    ghost const loadsBefore: nat

    /** Once loaded, the list in memory is the stored list; storage is loaded at most once. */
    ghost predicate Valid()
      reads this, storage
    {
      && storage.loads == loadsBefore + (if loaded then 1 else 0)
      && (loaded ==> storage.contents == packages)
    }

    constructor (storage: Storage)
      ensures this.storage == storage && !loaded && Valid()
      ensures storage.contents == old(storage.contents)
    {
      this.storage := storage;
      packages := [];
      loaded := false;
      loadsBefore := storage.loads;
    }

    /** getPackages: loads on the first call only, and returns the stored list. */
    method GetPackages() returns (r: seq<string>)
      requires Valid()
      modifies this, storage
      ensures Valid() && loaded
      ensures r == packages && r == storage.contents && storage.contents == old(storage.contents)
      ensures old(loaded) ==> packages == old(packages) && storage.loads == old(storage.loads)
    {
      if !loaded {
        packages := storage.Load();
        loaded := true;
      }
      r := packages;
    }

    /** addPackage: appends the package's composer id to the stored list. */
    method AddPackage(p: StudioPackage)
      requires Valid()
      modifies this, storage
      ensures Valid() && loaded
      ensures packages == old(storage.contents) + [p.composerId]
      ensures storage.contents == packages
    {
      var _ := GetPackages();
      packages := packages + [p.composerId];
      storage.Store(packages);
    }

    /** hasPackages: whether the stored list is non-empty. */
    method HasPackages() returns (r: bool)
      requires Valid()
      modifies this, storage
      ensures Valid() && loaded
      ensures r <==> old(storage.contents) != []
      ensures storage.contents == old(storage.contents)
    {
      var _ := GetPackages();
      r := packages != [];
    }

    /** removePackage as written: the filter raises on a non-empty list, before anything is
        reassigned or stored; an empty list is stored again. It does not load the list
        itself, so the list must have been loaded. */
    method RemovePackage(p: StudioPackage) returns (error: Option<ConfigError>)
      requires Valid() && loaded
      modifies this, storage
      ensures Valid() && loaded
      ensures storage.loads == old(storage.loads)
      ensures old(packages) != [] ==>
                && error == Some(ElementTypeError)
                && packages == old(packages) && storage.contents == old(storage.contents)
      ensures old(packages) == [] ==> error.None? && packages == [] && storage.contents == []
    {
      match FilterAsWritten(packages, p)
      case Failure(e) =>
        error := Some(e);
      case Success(rest) =>
        packages := rest;
        storage.Store(packages);
        error := None;
    }

    /** removePackage as evidently intended: drops every element equal to `p`, keeps the
        others in order, and stores the result. */
    method RemovePackageById(p: StudioPackage)
      requires Valid() && loaded
      modifies this, storage
      ensures Valid() && loaded
      ensures packages == Without(old(packages), p)
      ensures storage.contents == packages
      ensures storage.loads == old(storage.loads)
    {
      packages := Without(packages, p);
      storage.Store(packages);
    }
  }
}
