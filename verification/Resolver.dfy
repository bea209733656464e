/** The feature resolver, changing `units` in place (kompilator/src/resolve.rs). */
module Resolver {
  import opened Common
  import opened Manifests
  import F = Features
  import opened FeatureRules
  import opened FeatureProof
  import opened FeatureLaws

  /** The features a build names: `default` unless it is off, and every
      declared feature or those listed. */
  datatype Wanted = Wanted(default: bool, all: bool, named: seq<string>) {
    ghost predicate Names(declared: set<string>, f: string) {
      || (default && f == "default" && "default" in declared)
      || (if all then f in declared else f in named)
    }
  }

  lemma LineNotNeeded(g: F.Locked, w: F.Units, u: F.Unit, p: nat)
    requires g.Valid() && F.ValidUnits(g, w) && u in w && p < |g.Of(u).dependencies|
    requires g.Of(u).dependencies[p].optional || !g.Used(u, p)
    ensures F.EnsureFrom(g, w, u, p) == F.EnsureFrom(g, w, u, p + 1)
  {
  }

  lemma LineNeeded(g: F.Locked, w: F.Units, u: F.Unit, p: nat)
    requires g.Valid() && F.ValidUnits(g, w) && u in w && p < |g.Of(u).dependencies|
    requires !g.Of(u).dependencies[p].optional && g.Used(u, p)
    ensures var r := F.EnableLine(g, w, u, p, None);
      F.EnsureFrom(g, w, u, p) == if r.error.Some? then r else F.EnsureFrom(g, r.units, u, p + 1)
  {
  }

  class Graph {
    /** The locked packages and, per dependency line, the package it is. */
    const locked: F.Locked
    var units: F.Units

    constructor (locked: F.Locked)
      ensures this.locked == locked && units == map[]
    {
      this.locked := locked;
      units := map[];
    }

    ghost predicate Valid()
      reads this
    {
      locked.Valid() && F.ValidUnits(locked, units)
    }

    method Ensure(u: F.Unit) returns (error: Option<F.Refusal>)
      requires Valid() && locked.Has(u)
      modifies this`units
      ensures Valid()
      ensures F.Outcome(units, error) == F.Ensure(locked, old(units), u)
      decreases F.Missing(locked, units), 0
    {
      if u in units { return None; }
      F.MissingUnit(locked, units, u);
      units := units[u := F.NEW];
      error := EnableNeeded(u);
    }

    /** The lines of `u` that nothing has to ask for. */
    method EnableNeeded(u: F.Unit) returns (error: Option<F.Refusal>)
      requires Valid() && u in units
      modifies this`units
      ensures Valid()
      ensures F.Outcome(units, error) == F.EnsureFrom(locked, old(units), u, 0)
      decreases F.Missing(locked, units), 4
    {
      ghost var start := units;
      var dependencies := locked.Of(u).dependencies;
      for p := 0 to |dependencies|
        invariant Valid() && F.Grows(start, units)
        invariant F.EnsureFrom(locked, units, u, p) == F.EnsureFrom(locked, start, u, 0)
      {
        if dependencies[p].optional || (dependencies[p].kind.Build? && !locked.Of(u).hasBuildScript) {
          LineNotNeeded(locked, units, u, p);
          continue;
        }
        ghost var before := units;
        F.MissingShrinks(locked, start, units);
        LineNeeded(locked, before, u, p);
        error := EnableLine(u, p, None);
        F.GrowsTransitive(start, before, units);
        if error.Some? { return; }
      }
      return None;
    }

    /** Changes `units` as `Features.EnableLine` says. */
    method EnableLine(u: F.Unit, p: nat, extra: Option<string>) returns (error: Option<F.Refusal>)
      requires Valid() && u in units && p < |locked.Of(u).dependencies|
      modifies this`units
      ensures Valid()
      ensures F.Outcome(units, error) == F.EnableLine(locked, old(units), u, p, extra)
      decreases F.Missing(locked, units), 3, 1
    {
      if locked.targets[u.node][p].None? { return None; }
      var node := locked.targets[u.node][p].value;
      var dependency := locked.Of(u).dependencies[p];
      var to := locked.Reached(u, dependency, node);
      error := Ensure(to);
      if error.Some? { return; }
      ghost var w1 := units;
      var edge := F.Edge(dependency.alias, dependency.kind, to);
      if edge !in units[u].edges {
        units := units[u := units[u].(edges := units[u].edges + [edge])];
      }
      assert units == F.Linked(w1, u, edge);
      F.GrowsTransitive(old(units), w1, units);
      F.MissingShrinks(locked, old(units), units);
      error := Ask(u, p, extra);
    }

    /** Activate what line `p` asks, then the weak features waiting on it. */
    method Ask(u: F.Unit, p: nat, extra: Option<string>) returns (error: Option<F.Refusal>)
      requires Valid() && u in units && p < |locked.Of(u).dependencies| && locked.targets[u.node][p].Some?
      modifies this`units
      ensures Valid()
      ensures F.Outcome(units, error) == F.Ask(locked, old(units), u, p, extra)
      decreases F.Missing(locked, units), 3, 0
    {
      var node := locked.targets[u.node][p].value;
      var dependency := locked.Of(u).dependencies[p];
      var to := locked.Reached(u, dependency, node);
      error := ActivateAsked(to, dependency, node, extra);
      if error.Some? { return; }
      ghost var w1 := units;
      var waiting := F.Released(units[u].weak, dependency.alias);
      units := units[u := units[u].(weak := F.Kept(units[u].weak, dependency.alias))];
      assert units == F.Drained(w1, u, dependency.alias);
      F.GrowsTransitive(old(units), w1, units);
      F.MissingShrinks(locked, old(units), units);
      error := ActivateEach(to, waiting);
    }

    /** `default` when the line wants it, the line's features, and one more. */
    method ActivateAsked(to: F.Unit, dependency: Dependency, node: nat, extra: Option<string>)
      returns (error: Option<F.Refusal>)
      requires Valid() && locked.Has(to) && node < |locked.manifests|
      modifies this`units
      ensures Valid()
      ensures F.Outcome(units, error) ==
        F.ActivateAll(locked, old(units), to, F.AskedOf(locked, dependency, node, extra))
      decreases F.Missing(locked, units), 2, 1
    {
      ghost var first := if dependency.defaultFeatures && "default" in locked.manifests[node].features then ["default"] else [];
      ghost var last := if extra.Some? then [extra.value] else [];
      F.ActivateBoth(locked, units, to, first + dependency.features, last);
      F.ActivateBoth(locked, units, to, first, dependency.features);
      if dependency.defaultFeatures && "default" in locked.manifests[node].features {
        F.ActivateOne(locked, units, to, "default");
        error := Activate(to, "default");
        if error.Some? { return; }
      }
      F.MissingShrinks(locked, old(units), units);
      error := ActivateEach(to, dependency.features);
      if error.Some? { return; }
      F.MissingShrinks(locked, old(units), units);
      if extra.Some? {
        F.ActivateOne(locked, units, to, extra.value);
        error := Activate(to, extra.value);
      }
    }

    method ActivateEach(u: F.Unit, features: seq<string>) returns (error: Option<F.Refusal>)
      requires Valid() && locked.Has(u)
      modifies this`units
      ensures Valid()
      ensures F.Outcome(units, error) == F.ActivateAll(locked, old(units), u, features)
      decreases F.Missing(locked, units), 2, 0
    {
      for i := 0 to |features|
        invariant Valid() && F.Grows(old(units), units)
        invariant F.ActivateAll(locked, units, u, features[i..]) == F.ActivateAll(locked, old(units), u, features)
      {
        assert features[i..][0] == features[i] && features[i..][1..] == features[i + 1..];
        ghost var before := units;
        F.MissingShrinks(locked, old(units), units);
        error := Activate(u, features[i]);
        F.GrowsTransitive(old(units), before, units);
        if error.Some? { return; }
      }
      return None;
    }

    method Activate(u: F.Unit, feature: string) returns (error: Option<F.Refusal>)
      requires Valid() && locked.Has(u)
      modifies this`units
      ensures Valid()
      ensures F.Outcome(units, error) == F.Activate(locked, old(units), u, feature)
      decreases F.Missing(locked, units), 1
    {
      error := Ensure(u);
      if error.Some? { return; }
      if feature in units[u].features { return None; }
      F.MissingShrinks(locked, old(units), units);
      ghost var w1 := units;
      units := units[u := units[u].(features := units[u].features + {feature})];
      assert units == F.WithFeature(w1, u, feature);
      var m := locked.Of(u);
      if feature in m.features {
        F.MissingFeature(locked, w1, u, feature);
        error := RunEntries(u, m.features[feature]);
        return;
      }
      if m.Implicit(feature) {
        F.MissingFeature(locked, w1, u, feature);
        error := EnableLines(u, locked.Lines(u, feature), None);
        return;
      }
      return Some(F.Refusal(u, feature));
    }

    method RunEntries(u: F.Unit, enables: seq<string>) returns (error: Option<F.Refusal>)
      requires Valid() && u in units
      modifies this`units
      ensures Valid()
      ensures F.Outcome(units, error) == F.RunEntries(locked, old(units), u, enables)
      decreases F.Missing(locked, units), 6
    {
      for i := 0 to |enables|
        invariant Valid() && F.Grows(old(units), units)
        invariant F.RunEntries(locked, units, u, enables[i..]) == F.RunEntries(locked, old(units), u, enables)
      {
        assert enables[i..][0] == enables[i] && enables[i..][1..] == enables[i + 1..];
        ghost var before := units;
        F.MissingShrinks(locked, old(units), units);
        error := RunEntry(u, Classify(enables[i]));
        F.GrowsTransitive(old(units), before, units);
        if error.Some? { return; }
      }
      return None;
    }

    method RunEntry(u: F.Unit, entry: Entry) returns (error: Option<F.Refusal>)
      requires Valid() && u in units
      modifies this`units
      ensures Valid()
      ensures F.Outcome(units, error) == F.RunEntry(locked, old(units), u, entry)
      decreases F.Missing(locked, units), 5
    {
      match entry {
        case Dep(alias) => error := EnableLines(u, locked.Lines(u, alias), None);
        case Plain(name) => error := Activate(u, name);
        case Sub(alias, sub, weak) =>
          if weak && !F.Enabled(units, u, alias) {
            units := units[u := units[u].(weak := units[u].weak + [(alias, sub)])];
            return None;
          }
          if !weak && locked.Of(u).Implicit(alias) {
            units := F.WithFeature(units, u, alias);
          }
          F.MissingShrinks(locked, old(units), units);
          error := EnableLines(u, locked.Lines(u, alias), Some(sub));
      }
    }

    method EnableLines(u: F.Unit, lines: seq<nat>, extra: Option<string>) returns (error: Option<F.Refusal>)
      requires Valid() && u in units && forall p :: p in lines ==> p < |locked.Of(u).dependencies|
      modifies this`units
      ensures Valid()
      ensures F.Outcome(units, error) == F.EnableLines(locked, old(units), u, lines, extra)
      decreases F.Missing(locked, units), 4
    {
      for i := 0 to |lines|
        invariant Valid() && F.Grows(old(units), units)
        invariant forall p :: p in lines[i..] ==> p in lines
        invariant F.EnableLines(locked, units, u, lines[i..], extra) == F.EnableLines(locked, old(units), u, lines, extra)
      {
        assert lines[i] in lines;
        assert lines[i..][0] == lines[i] && lines[i..][1..] == lines[i + 1..];
        ghost var before := units;
        F.MissingShrinks(locked, old(units), units);
        error := EnableLine(u, lines[i], extra);
        F.GrowsTransitive(old(units), before, units);
        if error.Some? { return; }
      }
      return None;
    }

    /** Resolve the features a build wants of the root. */
    method Build(wanted: Wanted) returns (error: Option<F.Refusal>, ghost asked: seq<string>)
      requires Valid() && units == map[]
      modifies this`units
      ensures Valid()
      ensures forall f :: f in asked <==> wanted.Names(locked.manifests[0].features.Keys, f)
      ensures F.Outcome(units, error) == F.Resolve(locked, asked)
      ensures Regular(locked, ForcedBy(locked, asked)) && error.None? ==> Facts(units) == ForcedBy(locked, asked)
    {
      var declared := locked.manifests[0].features.Keys;
      var list := wanted.named;
      if wanted.all { list := Listed(declared); }
      var all := (if wanted.default && "default" in declared then ["default"] else []) + list;
      asked := all;
      if Regular(locked, ForcedBy(locked, asked)) {
        ResolutionIsLeast(locked, asked);
      }
      error := Ensure(F.ROOT);
      if error.Some? { return; }
      error := ActivateEach(F.ROOT, all);
    }
  }

  /** The names of a set, in some order. */
  method Listed(names: set<string>) returns (list: seq<string>)
    ensures forall f :: f in list <==> f in names
  {
    list := [];
    var rest := names;
    while rest != {}
      invariant rest <= names && forall f :: f in list <==> f in names - rest
    {
      var name :| name in rest;
      list := list + [name];
      rest := rest - {name};
    }
  }
}
