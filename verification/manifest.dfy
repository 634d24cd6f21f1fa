/** The package descriptor built from a managed path's `composer.json`
    (StudioPlugin::createPackageForPath). */
module Manifest {
  import opened Common

  type Path = string

  /** A decoded JSON value. */
  datatype Json =
    | JNull
    | JBool(b: bool)
    | JNumber(n: int)
    | JString(s: string)
    | JArray(items: seq<Json>)
    | JObject(fields: map<string, Json>)

  /** The top-level object of a `composer.json` file. */
  type Document = map<string, Json>

  /** The version forced onto every managed package. */
  const DevVersion: string := "dev-master"
  const BranchAlias: string := "branch-alias"

  /** What the array loader produces, with the dist URL set to the managed path. */
  datatype Package = Package(name: string, version: string, distUrl: Path, manifest: Document)

  datatype ManifestError =
    | ManifestNotFound     // no readable composer.json under the path
    | StringOffsetUnset    // `extra` is a string: "Cannot unset string offsets"
    | ScalarOffsetUnset    // `extra` is a number or `true`: "Cannot unset offset in a non-array variable"
    | MissingName          // `name` is absent or null: the loader's `isset` check fails
    | InvalidName          // `name` is an array or object, which `strtolower` refuses

  /** Whether PHP 8's `unset($v['branch-alias'])` raises on a decoded value `v`: it does on a
      string, a number and `true`; an array (object or list), `null` and `false` let it
      through. */
  predicate UnsetRaises(v: Json) {
    v.JString? || v.JNumber? || v == JBool(true)
  }

  function DigitChar(d: nat): (c: char)
    requires d < 10
    ensures '0' <= c <= '9'
  {
    "0123456789"[d]
  }

  /** The decimal digits of `n`, most significant first, as PHP writes an integer out. */
  function Digits(n: nat): (r: string)
    ensures |r| >= 1
    ensures forall i :: 0 <= i < |r| ==> '0' <= r[i] <= '9'
    ensures |r| > 1 ==> r[0] != '0'
    decreases n
  {
    if n < 10 then [DigitChar(n)] else Digits(n / 10) + [DigitChar(n % 10)]
  }

  /** PHP's conversion of an integer to a string. */
  function IntToString(n: int): (r: string)
    ensures r != []
    ensures n < 0 <==> r[0] == '-'
  {
    if n < 0 then "-" + Digits(-n) else Digits(n)
  }

  /** The name the array loader gives the package: it refuses an absent or null `name`
      (`isset`), and the package constructor passes the value to `strtolower`, which takes a
      string as it is, converts a number or a boolean to a string and refuses anything else. */
  function LoadedName(doc: Document): (r: Result<string, ManifestError>)
    ensures r == Failure(MissingName) <==> "name" !in doc || doc["name"].JNull?
    ensures r == Failure(InvalidName) <==> "name" in doc && (doc["name"].JArray? || doc["name"].JObject?)
    ensures r.Failure? ==> r.error == MissingName || r.error == InvalidName
    ensures "name" in doc && doc["name"].JString? ==> r == Success(doc["name"].s)
    ensures "name" in doc && doc["name"].JNumber? ==> r == Success(IntToString(doc["name"].n))
    ensures "name" in doc && doc["name"].JBool? ==> r == Success(if doc["name"].b then "1" else "")
  {
    if "name" !in doc then Failure(MissingName)
    else match doc["name"]
      case JNull => Failure(MissingName)
      case JString(s) => Success(s)
      case JNumber(n) => Success(IntToString(n))
      case JBool(b) => Success(if b then "1" else "")
      case _ => Failure(InvalidName)
  }

  /** Unsets `extra.branch-alias`, as PHP 8's nested `unset` does: an object loses that key,
      a string, a number or `true` raises, anything else (and an absent `extra`) is left
      alone. */
  function StripBranchAlias(json: Document): (r: Result<Document, ManifestError>)
    ensures r.Failure? <==> "extra" in json && UnsetRaises(json["extra"])
    ensures r.Failure? ==> r.error == (if json["extra"].JString? then StringOffsetUnset else ScalarOffsetUnset)
    ensures r.Success? ==> r.value.Keys == json.Keys
    ensures r.Success? ==> forall k :: k in json && k != "extra" ==> r.value[k] == json[k]
    ensures r.Success? && "extra" in json && json["extra"].JObject? ==>
              r.value["extra"].JObject? &&
              BranchAlias !in r.value["extra"].fields &&
              forall k :: k in json["extra"].fields && k != BranchAlias ==>
                k in r.value["extra"].fields && r.value["extra"].fields[k] == json["extra"].fields[k]
    ensures r.Success? && "extra" in json && json["extra"].JObject? ==>
              r.value["extra"] == JObject(json["extra"].fields - {BranchAlias})
    ensures r.Success? && "extra" in json && !json["extra"].JObject? ==> r.value == json
  {
    if "extra" !in json then Success(json)
    else match json["extra"]
      case JObject(fields) => Success(json["extra" := JObject(fields - {BranchAlias})])
      case JString(_) => Failure(StringOffsetUnset)
      case JNumber(_) => Failure(ScalarOffsetUnset)
      case JBool(b) => if b then Failure(ScalarOffsetUnset) else Success(json)
      case _ => Success(json)
  }

  /** Reads `<path>/composer.json`, forces `version` to "dev-master", drops
      `extra.branch-alias`, loads the package and sets its dist URL to `path`. */
  function CreatePackageForPath(manifests: map<Path, Document>, path: Path): (r: Result<Package, ManifestError>)
    ensures path !in manifests ==> r == Failure(ManifestNotFound)
    ensures path in manifests && "extra" in manifests[path] && manifests[path]["extra"].JString? ==>
              r == Failure(StringOffsetUnset)
    ensures path in manifests && "extra" in manifests[path] &&
            (manifests[path]["extra"].JNumber? || manifests[path]["extra"] == JBool(true)) ==>
              r == Failure(ScalarOffsetUnset)
    ensures r.Success? ==>
              && path in manifests
              && LoadedName(manifests[path]) == Success(r.value.name)
              && r.value.version == DevVersion
              && r.value.distUrl == path
              && r.value.manifest.Keys == manifests[path].Keys + {"version"}
              && r.value.manifest["version"] == JString(DevVersion)
              && (forall k :: k in manifests[path] && k != "version" && k != "extra" ==>
                    r.value.manifest[k] == manifests[path][k])
              && ("extra" in r.value.manifest && r.value.manifest["extra"].JObject? ==>
                    BranchAlias !in r.value.manifest["extra"].fields)
    ensures r.Success? && "extra" in manifests[path] ==>
              r.value.manifest["extra"] ==
                (if manifests[path]["extra"].JObject?
                 then JObject(manifests[path]["extra"].fields - {BranchAlias})
                 else manifests[path]["extra"])
    ensures r.Success? <==>
              && path in manifests
              && !("extra" in manifests[path] && UnsetRaises(manifests[path]["extra"]))
              && LoadedName(manifests[path]).Success?
    ensures path in manifests && !("extra" in manifests[path] && UnsetRaises(manifests[path]["extra"])) &&
            ("name" !in manifests[path] || manifests[path]["name"].JNull?) ==>
              r == Failure(MissingName)
    ensures path in manifests && !("extra" in manifests[path] && UnsetRaises(manifests[path]["extra"])) &&
            "name" in manifests[path] && (manifests[path]["name"].JArray? || manifests[path]["name"].JObject?) ==>
              r == Failure(InvalidName)
    ensures r.Success? && manifests[path]["name"].JString? ==> r.value.name == manifests[path]["name"].s
    ensures r.Failure? && r.error == ManifestNotFound ==> path !in manifests
    ensures r.Failure? && r.error == MissingName ==>
              path in manifests && ("name" !in manifests[path] || manifests[path]["name"].JNull?)
  {
    if path !in manifests then Failure(ManifestNotFound)
    else
      var versioned := manifests[path]["version" := JString(DevVersion)];
      match StripBranchAlias(versioned)
      case Failure(e) => Failure(e)
      case Success(json) =>
        match LoadedName(json)
        case Failure(e) => Failure(e)
        case Success(name) => Success(Package(name, DevVersion, path, json))
  }
}
