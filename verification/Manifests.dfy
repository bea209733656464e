/** The parts of a `Cargo.toml` that decide which features are active
    (kompilator/src/manifest.rs). */
module Manifests {
  import opened Common

  datatype Kind = Normal | Build

  datatype Dependency = Dependency(
    alias: string,
    package: string,
    requirement: Option<string>,
    optional: bool,
    defaultFeatures: bool,
    features: seq<string>,
    kind: Kind,
    platform: Option<string>)

  datatype Lib = Lib(crateName: string, procMacro: bool)

  datatype Manifest = Manifest(
    name: string,
    version: string,
    lib: Option<Lib>,
    hasBuildScript: bool,
    features: map<string, seq<string>>,
    dependencies: seq<Dependency>)
  {
    predicate ProcMacro() {
      lib.Some? && lib.value.procMacro
    }

    /** Whether some `dep:` entry of the feature table names `alias`. */
    predicate NamedByDep(alias: string) {
      exists f | f in features :: exists i | 0 <= i < |features[f]| :: Classify(features[f][i]) == Dep(alias)
    }

    /** An optional dependency that is a feature of its own name. */
    predicate Implicit(alias: string) {
      && (exists p :: 0 <= p < |dependencies| && dependencies[p].alias == alias && dependencies[p].optional)
      && !NamedByDep(alias)
    }
  }

  /** What one entry of a feature's list asks for. */
  datatype Entry =
    | Dep(alias: string)
    | Sub(alias: string, feature: string, weak: bool)
    | Plain(name: string)

  function Classify(entry: string): Entry {
    if StartsWith(entry, "dep:") then Dep(entry[4..])
    else
      match SplitOnce(entry, '/')
      case None => Plain(entry)
      case Some((alias, sub)) =>
        if alias != "" && alias[|alias| - 1] == '?' then Sub(alias[..|alias| - 1], sub, true)
        else Sub(alias, sub, false)
  }

  /** How a manifest writes an entry. */
  function Written(entry: Entry): string {
    match entry
    case Dep(alias) => "dep:" + alias
    case Sub(alias, feature, weak) => alias + (if weak then "?/" else "/") + feature
    case Plain(name) => name
  }

  /** Reading an entry loses nothing, so no two entries are confused. */
  lemma ClassifyKeepsTheEntry(entry: string)
    ensures Written(Classify(entry)) == entry
  {
    if StartsWith(entry, "dep:") {
      assert entry == entry[..4] + entry[4..];
    } else {
      var split := SplitOnce(entry, '/');
      if split.Some? { SubIsKept(split.value.0, split.value.1); }
    }
  }

  lemma SubIsKept(alias: string, sub: string)
    ensures alias != "" && alias[|alias| - 1] == '?' ==> alias[..|alias| - 1] + "?/" + sub == alias + ['/'] + sub
    ensures alias + "/" + sub == alias + ['/'] + sub
  {
  }

  /** The entries a feature list can hold. */
  predicate Legal(entry: Entry) {
    match entry
    case Dep(_) => true
    case Plain(name) => '/' !in name && !StartsWith(name, "dep:")
    case Sub(alias, feature, weak) =>
      && '/' !in alias
      && !StartsWith(Written(entry), "dep:")
      && (!weak && alias != "" ==> alias[|alias| - 1] != '?')
  }

  /** The legal entries are exactly those read back as they were meant. */
  lemma LegalIsReadBack(entry: Entry)
    ensures Legal(entry) <==> Classify(Written(entry)) == entry
  {
    match entry {
      case Dep(alias) =>
        assert Written(entry)[4..] == alias;
      case Plain(_) =>
      case Sub(alias, feature, weak) =>
        LegalSubIsReadBack(alias, feature, weak);
    }
  }

  lemma LegalSubIsReadBack(alias: string, feature: string, weak: bool)
    ensures Legal(Sub(alias, feature, weak)) <==> Classify(Written(Sub(alias, feature, weak))) == Sub(alias, feature, weak)
  {
    var text := Written(Sub(alias, feature, weak));
    if '/' in alias {
      ClassifiedAliasHasNoSlash(text);
    } else if !StartsWith(text, "dep:") {
      var head := if weak then alias + "?" else alias;
      assert text == head + ['/'] + feature;
      SubIsRead(text, head, feature);
      assert weak ==> head[..|head| - 1] == alias;
    }
  }

  lemma SubIsRead(text: string, head: string, feature: string)
    requires '/' !in head && text == head + ['/'] + feature && !StartsWith(text, "dep:")
    ensures Classify(text) ==
      if head != "" && head[|head| - 1] == '?' then Sub(head[..|head| - 1], feature, true) else Sub(head, feature, false)
  {
    SplitAtFirst(head, '/', feature);
  }

  lemma ClassifiedAliasHasNoSlash(text: string)
    ensures Classify(text).Sub? ==> '/' !in Classify(text).alias
  {
  }
}
