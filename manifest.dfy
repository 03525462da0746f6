/**
 * The `package.json` patch: pin the `react-native` dependency to a forced
 * version and leave everything else in the document as it was.
 */
module Manifest {
  import opened Wrappers
  import opened Json

  const Dependencies := "dependencies"
  const ReactNative := "react-native"

  /** Where the manifest lives: `package.json` inside the working directory, or in the current one. */
  function ManifestPath(workdir: string): string {
    if workdir == "" then "package.json" else workdir + "/package.json"
  }

  /**
   * Decoding a document into a generic object: an object gives its fields,
   * `null` gives the empty (nil) object, and anything else is a decoding error.
   */
  function DecodeObject(doc: Json): (r: Option<map<string, Json>>)
    ensures r.Some? <==> doc.Object? || doc.Null?
    ensures doc.Object? ==> r == Some(doc.fields)
    ensures doc.Null? ==> r == Some(map[])
  {
    match doc
    case Object(fields) => Some(fields)
    case Null => Some(map[])
    case _ => None
  }

  /** The document can be patched: it has a `dependencies` entry that is an object. */
  predicate HasDependencyObject(packages: map<string, Json>) {
    Dependencies in packages && packages[Dependencies].Object?
  }

  /**
   * `after` is `before` with `dependencies["react-native"]` set to `version`:
   * the same top-level keys, every other top-level value unchanged, and inside
   * `dependencies` every other entry unchanged.
   */
  ghost predicate PatchedAs(before: map<string, Json>, after: map<string, Json>, version: string)
    requires HasDependencyObject(before)
  {
    && after.Keys == before.Keys
    && (forall k :: k in before && k != Dependencies ==> after[k] == before[k])
    && after[Dependencies].Object?
    && var deps, deps' := before[Dependencies].fields, after[Dependencies].fields;
       && deps'.Keys == deps.Keys + {ReactNative}
       && deps'[ReactNative] == String(version)
       && (forall k :: k in deps && k != ReactNative ==> deps'[k] == deps[k])
  }

  /**
   * The patch: fails exactly when `dependencies` is missing or not an object,
   * and otherwise yields the document `PatchedAs` describes.
   */
  function PatchDependencies(packages: map<string, Json>, version: string): (r: Option<map<string, Json>>)
    ensures r.Some? <==> HasDependencyObject(packages)
    ensures r.Some? ==> PatchedAs(packages, r.value, version)
  {
    if !HasDependencyObject(packages) then None
    else
      var deps := packages[Dependencies].fields[ReactNative := String(version)];
      Some(packages[Dependencies := Object(deps)])
  }

  /** `PatchedAs` leaves no freedom: it determines the patched document. */
  lemma PatchedAsIsUnique(before: map<string, Json>, a: map<string, Json>, b: map<string, Json>, version: string)
    requires HasDependencyObject(before)
    requires PatchedAs(before, a, version) && PatchedAs(before, b, version)
    ensures a == b
  {
    var da, db := a[Dependencies].fields, b[Dependencies].fields;
    assert da == db by {
      forall k | k in da ensures da[k] == db[k] {
        if k != ReactNative {
          assert k in before[Dependencies].fields;
        }
      }
    }
    forall k | k in a ensures a[k] == b[k] {
      if k == Dependencies {
        assert a[k] == Object(da) && b[k] == Object(db);
      }
    }
  }

  /** Patching an already patched document changes nothing. */
  lemma PatchIsIdempotent(packages: map<string, Json>, version: string)
    requires HasDependencyObject(packages)
    ensures PatchDependencies(PatchDependencies(packages, version).value, version) == PatchDependencies(packages, version)
  {
    var once := PatchDependencies(packages, version).value;
    var twice := PatchDependencies(once, version).value;
    var deps := packages[Dependencies].fields;
    var deps1, deps2 := once[Dependencies].fields, twice[Dependencies].fields;
    assert deps2 == deps1 by {
      forall k | k in deps2 ensures k in deps1 && deps2[k] == deps1[k] {
        if k != ReactNative {
          assert k in deps;
        }
      }
    }
    assert twice == once by {
      forall k | k in twice ensures k in once && twice[k] == once[k] {
        if k == Dependencies {
          assert twice[k] == Object(deps2) && once[k] == Object(deps1);
        }
      }
    }
  }
}
