/** What the feature resolver computes, one value per call
    (kompilator/src/resolve.rs). Each function is what the mutating method of
    the same name in `Resolver.Graph` does to `units`. */
module Features {
  import opened Common
  import opened Manifests

  datatype Unit = Unit(node: nat, host: bool)

  datatype Edge = Edge(alias: string, kind: Kind, to: Unit)

  datatype State = State(features: set<string>, edges: seq<Edge>, weak: seq<(string, string)>)

  type Units = map<Unit, State>

  /** The locked packages: their manifests and, for each dependency line, the
      package it is (none when the line does not apply). */
  datatype Locked = Locked(manifests: seq<Manifest>, targets: seq<seq<Option<nat>>>) {
    ghost predicate Valid() {
      && |targets| == |manifests| > 0
      && (forall n :: 0 <= n < |manifests| ==> |targets[n]| == |manifests[n].dependencies|)
      && (forall n, p :: 0 <= n < |manifests| && 0 <= p < |targets[n]| && targets[n][p].Some? ==>
            targets[n][p].value < |manifests|)
    }

    predicate Has(u: Unit) { u.node < |manifests| }

    function Of(u: Unit): Manifest
      requires Has(u)
    {
      manifests[u.node]
    }

    /** The unit line `p` of `from` reaches. */
    function Reached(from: Unit, dependency: Dependency, node: nat): Unit
      requires node < |manifests|
    {
      Unit(node, from.host || dependency.kind == Build || manifests[node].ProcMacro())
    }

    /** Whether `u` uses lines of that kind at all. */
    predicate Used(u: Unit, p: nat)
      requires Has(u) && p < |Of(u).dependencies|
    {
      Of(u).dependencies[p].kind == Normal || Of(u).hasBuildScript
    }

    /** The lines of `u` from `p` on whose alias is `alias`. */
    function LinesFrom(u: Unit, alias: string, p: nat): (lines: seq<nat>)
      requires Has(u) && p <= |Of(u).dependencies|
      ensures forall q: nat :: q in lines <==>
        p <= q < |Of(u).dependencies| && Of(u).dependencies[q].alias == alias && Used(u, q)
      decreases |Of(u).dependencies| - p
    {
      if p == |Of(u).dependencies| then []
      else (if Of(u).dependencies[p].alias == alias && Used(u, p) then [p] else []) + LinesFrom(u, alias, p + 1)
    }

    function Lines(u: Unit, alias: string): seq<nat>
      requires Has(u)
    {
      LinesFrom(u, alias, 0)
    }
  }

  const ROOT := Unit(0, false)

  const NEW := State({}, [], [])

  /** The feature a package was asked for and does not have. */
  datatype Refusal = Refusal(unit: Unit, feature: string)

  datatype Outcome = Outcome(units: Units, error: Option<Refusal>)

  ghost predicate ValidUnits(g: Locked, w: Units) {
    forall u :: u in w ==> g.Has(u) && forall e :: e in w[u].edges ==> e.to in w
  }

  // ---------------------------------------------------------------- progress

  predicate Enabled(w: Units, u: Unit, alias: string) {
    u in w && exists i :: 0 <= i < |w[u].edges| && w[u].edges[i].alias == alias
  }

  ghost predicate Waiting(w: Units, u: Unit, alias: string, feature: string) {
    u in w && (alias, feature) in w[u].weak
  }

  /** Nothing is taken back, and no request starts to wait for a dependency
      that is already enabled. */
  ghost predicate Grows(w: Units, w': Units) {
    && (forall u :: u in w ==> u in w' && w[u].features <= w'[u].features)
    && (forall u, e :: u in w && e in w[u].edges ==> e in w'[u].edges)
    && (forall u, a, s :: Waiting(w', u, a, s) && Enabled(w, u, a) ==> Waiting(w, u, a, s))
  }

  lemma EnabledGrows(w: Units, w': Units, u: Unit, alias: string)
    requires Grows(w, w') && Enabled(w, u, alias)
    ensures Enabled(w', u, alias)
  {
    var i :| 0 <= i < |w[u].edges| && w[u].edges[i].alias == alias;
    assert w[u].edges[i] in w'[u].edges;
  }

  lemma EnabledSame(w: Units, w': Units, u: Unit, alias: string)
    requires u in w && u in w' && w[u].edges == w'[u].edges
    ensures Enabled(w, u, alias) <==> Enabled(w', u, alias)
  {
    if Enabled(w, u, alias) { EnabledStays(w, w', u, alias); }
    if Enabled(w', u, alias) { EnabledStays(w', w, u, alias); }
  }

  lemma EnabledStays(w: Units, w': Units, u: Unit, alias: string)
    requires u in w && u in w' && w[u].edges == w'[u].edges && Enabled(w, u, alias)
    ensures Enabled(w', u, alias)
  {
    var i :| 0 <= i < |w[u].edges| && w[u].edges[i].alias == alias;
    assert w'[u].edges[i].alias == alias;
  }

  lemma GrowsTransitive(w: Units, w': Units, w'': Units)
    requires Grows(w, w') && Grows(w', w'')
    ensures Grows(w, w'')
  {
    forall u, a, s | Waiting(w'', u, a, s) && Enabled(w, u, a)
      ensures Waiting(w, u, a, s)
    {
      EnabledGrows(w, w', u, a);
    }
  }

  /** The names a manifest gives a meaning to. */
  function Known(m: Manifest): set<string> {
    m.features.Keys + set p | 0 <= p < |m.dependencies| :: m.dependencies[p].alias
  }

  ghost function AllUnits(g: Locked): set<Unit> {
    set n: nat, h: bool | n < |g.manifests| && h in {false, true} :: Unit(n, h)
  }

  /** What is still to be made: units, and known features of units. */
  ghost function Missing(g: Locked, w: Units): set<(Unit, Option<string>)> {
    (set u | u in AllUnits(g) && u !in w :: (u, None)) +
    (set u, f | u in AllUnits(g) && f in Known(g.Of(u)) && !(u in w && f in w[u].features) :: (u, Some(f)))
  }

  lemma MissingShrinks(g: Locked, w: Units, w': Units)
    requires Grows(w, w')
    ensures Missing(g, w') <= Missing(g, w)
  {
  }

  lemma MissingUnit(g: Locked, w: Units, u: Unit)
    requires g.Has(u) && u !in w
    ensures Grows(w, w[u := NEW])
    ensures Missing(g, w[u := NEW]) < Missing(g, w)
  {
    assert Unit(u.node, u.host) in AllUnits(g);
    assert (u, None) in Missing(g, w) && (u, None) !in Missing(g, w[u := NEW]);
    MissingShrinks(g, w, w[u := NEW]);
  }

  function WithFeature(w: Units, u: Unit, feature: string): (w': Units)
    requires u in w
    ensures Grows(w, w') && w'.Keys == w.Keys
  {
    w[u := w[u].(features := w[u].features + {feature})]
  }

  lemma MissingFeature(g: Locked, w: Units, u: Unit, feature: string)
    requires g.Has(u) && u in w && feature in Known(g.Of(u)) && feature !in w[u].features
    ensures Missing(g, WithFeature(w, u, feature)) < Missing(g, w)
  {
    assert Unit(u.node, u.host) in AllUnits(g);
    var token := (u, Some(feature));
    assert token in Missing(g, w) && token !in Missing(g, WithFeature(w, u, feature));
    MissingShrinks(g, w, WithFeature(w, u, feature));
  }

  // --------------------------------------------------------------- resolving

  /** One more edge, unless it is there. */
  function Linked(w: Units, u: Unit, edge: Edge): (w': Units)
    requires u in w
    ensures Grows(w, w') && w'.Keys == w.Keys && edge in w'[u].edges
  {
    if edge in w[u].edges then w else w[u := w[u].(edges := w[u].edges + [edge])]
  }

  lemma WithFeatureIsValid(g: Locked, w: Units, u: Unit, feature: string)
    requires ValidUnits(g, w) && u in w
    ensures ValidUnits(g, WithFeature(w, u, feature))
  {
    var w' := WithFeature(w, u, feature);
    forall v | v in w' ensures g.Has(v) && forall e :: e in w'[v].edges ==> e.to in w' {
      assert w'[v].edges == w[v].edges;
    }
  }

  lemma LinkedIsValid(g: Locked, w: Units, u: Unit, edge: Edge)
    requires ValidUnits(g, w) && u in w && edge.to in w
    ensures ValidUnits(g, Linked(w, u, edge))
  {
    var w' := Linked(w, u, edge);
    forall v | v in w' ensures g.Has(v) && forall e :: e in w'[v].edges ==> e.to in w' {
      if v != u { assert w'[v] == w[v]; }
    }
  }

  /** The features of the requests that wait for `alias`. */
  function Released(weak: seq<(string, string)>, alias: string): (features: seq<string>)
    ensures forall s :: s in features <==> (alias, s) in weak
    ensures features == [] <==> forall r :: r in weak ==> r.0 != alias
  {
    if weak == [] then []
    else (if weak[0].0 == alias then [weak[0].1] else []) + Released(weak[1..], alias)
  }

  /** The requests that wait for another dependency. */
  function Kept(weak: seq<(string, string)>, alias: string): (later: seq<(string, string)>)
    ensures forall r :: r in later <==> r in weak && r.0 != alias
  {
    if weak == [] then []
    else (if weak[0].0 == alias then [] else [weak[0]]) + Kept(weak[1..], alias)
  }

  function Drained(w: Units, u: Unit, alias: string): (w': Units)
    requires u in w
    ensures Grows(w, w') && w'.Keys == w.Keys
  {
    w[u := w[u].(weak := Kept(w[u].weak, alias))]
  }

  /** What enabling a line asks of the package it is. */
  function AskedOf(g: Locked, dependency: Dependency, node: nat, extra: Option<string>): seq<string>
    requires node < |g.manifests|
  {
    (if dependency.defaultFeatures && "default" in g.manifests[node].features then ["default"] else [])
    + dependency.features
    + (if extra.Some? then [extra.value] else [])
  }

  ghost predicate Advances(g: Locked, w: Units, r: Outcome) {
    ValidUnits(g, r.units) && Grows(w, r.units)
  }

  function Ensure(g: Locked, w: Units, u: Unit): (r: Outcome)
    requires g.Valid() && ValidUnits(g, w) && g.Has(u)
    ensures Advances(g, w, r) && u in r.units
    decreases Missing(g, w), 0, 0
  {
    if u in w then Outcome(w, None)
    else
      MissingUnit(g, w, u);
      var r := EnsureFrom(g, w[u := NEW], u, 0);
      GrowsTransitive(w, w[u := NEW], r.units);
      r
  }

  /** Enable the lines of `u` from `p` on that nothing has to ask for. */
  function EnsureFrom(g: Locked, w: Units, u: Unit, p: nat): (r: Outcome)
    requires g.Valid() && ValidUnits(g, w) && u in w && p <= |g.Of(u).dependencies|
    ensures Advances(g, w, r)
    decreases Missing(g, w), 4, |g.Of(u).dependencies| - p
  {
    if p == |g.Of(u).dependencies| then Outcome(w, None)
    else if g.Of(u).dependencies[p].optional || !g.Used(u, p) then EnsureFrom(g, w, u, p + 1)
    else
      var r := EnableLine(g, w, u, p, None);
      if r.error.Some? then r
      else
        MissingShrinks(g, w, r.units);
        var r' := EnsureFrom(g, r.units, u, p + 1);
        GrowsTransitive(w, r.units, r'.units);
        r'
  }

  function EnableLine(g: Locked, w: Units, u: Unit, p: nat, extra: Option<string>): (r: Outcome)
    requires g.Valid() && ValidUnits(g, w) && u in w && p < |g.Of(u).dependencies|
    ensures Advances(g, w, r)
    decreases Missing(g, w), 3, 1
  {
    match g.targets[u.node][p]
    case None => Outcome(w, None)
    case Some(node) =>
      var dependency := g.Of(u).dependencies[p];
      var to := g.Reached(u, dependency, node);
      var r1 := Ensure(g, w, to);
      if r1.error.Some? then r1
      else
        MissingShrinks(g, w, r1.units);
        var w2 := Linked(r1.units, u, Edge(dependency.alias, dependency.kind, to));
        GrowsTransitive(w, r1.units, w2);
        MissingShrinks(g, w, w2);
        var r := Ask(g, w2, u, p, extra);
        GrowsTransitive(w, w2, r.units);
        r
  }

  /** Activate what line `p` asks of its package, then the weak requests that
      waited for it. */
  function Ask(g: Locked, w: Units, u: Unit, p: nat, extra: Option<string>): (r: Outcome)
    requires g.Valid() && ValidUnits(g, w) && u in w
    requires p < |g.Of(u).dependencies| && g.targets[u.node][p].Some?
    ensures Advances(g, w, r)
    decreases Missing(g, w), 3, 0
  {
    var node := g.targets[u.node][p].value;
    var dependency := g.Of(u).dependencies[p];
    var to := g.Reached(u, dependency, node);
    var r1 := ActivateAll(g, w, to, AskedOf(g, dependency, node, extra));
    if r1.error.Some? then r1
    else
      var w2 := Drained(r1.units, u, dependency.alias);
      GrowsTransitive(w, r1.units, w2);
      MissingShrinks(g, w, w2);
      var r := ActivateAll(g, w2, to, Released(r1.units[u].weak, dependency.alias));
      GrowsTransitive(w, w2, r.units);
      r
  }

  function ActivateAll(g: Locked, w: Units, u: Unit, features: seq<string>): (r: Outcome)
    requires g.Valid() && ValidUnits(g, w) && g.Has(u)
    ensures Advances(g, w, r)
    decreases Missing(g, w), 2, |features|
  {
    if features == [] then Outcome(w, None)
    else
      var r := Activate(g, w, u, features[0]);
      if r.error.Some? then r
      else
        MissingShrinks(g, w, r.units);
        var r' := ActivateAll(g, r.units, u, features[1..]);
        GrowsTransitive(w, r.units, r'.units);
        r'
  }

  function Activate(g: Locked, w: Units, u: Unit, feature: string): (r: Outcome)
    requires g.Valid() && ValidUnits(g, w) && g.Has(u)
    ensures Advances(g, w, r) && u in r.units
    decreases Missing(g, w), 1, 0
  {
    var r1 := Ensure(g, w, u);
    if r1.error.Some? then r1
    else if feature in r1.units[u].features then r1
    else
      var w2 := WithFeature(r1.units, u, feature);
      GrowsTransitive(w, r1.units, w2);
      MissingShrinks(g, w, r1.units);
      var m := g.Of(u);
      if feature in m.features then
        MissingFeature(g, r1.units, u, feature);
        var r := RunEntries(g, w2, u, m.features[feature]);
        GrowsTransitive(w, w2, r.units);
        r
      else if m.Implicit(feature) then
        MissingFeature(g, r1.units, u, feature);
        var r := EnableLines(g, w2, u, g.Lines(u, feature), None);
        GrowsTransitive(w, w2, r.units);
        r
      else Outcome(w2, Some(Refusal(u, feature)))
  }

  function RunEntries(g: Locked, w: Units, u: Unit, entries: seq<string>): (r: Outcome)
    requires g.Valid() && ValidUnits(g, w) && u in w
    ensures Advances(g, w, r)
    decreases Missing(g, w), 6, |entries|
  {
    if entries == [] then Outcome(w, None)
    else
      var r := RunEntry(g, w, u, Classify(entries[0]));
      if r.error.Some? then r
      else
        MissingShrinks(g, w, r.units);
        var r' := RunEntries(g, r.units, u, entries[1..]);
        GrowsTransitive(w, r.units, r'.units);
        r'
  }

  function RunEntry(g: Locked, w: Units, u: Unit, entry: Entry): (r: Outcome)
    requires g.Valid() && ValidUnits(g, w) && u in w
    ensures Advances(g, w, r)
    decreases Missing(g, w), 5, 0
  {
    match entry
    case Dep(alias) => EnableLines(g, w, u, g.Lines(u, alias), None)
    case Plain(name) => Activate(g, w, u, name)
    case Sub(alias, sub, weak) =>
      if weak && !Enabled(w, u, alias) then
        Outcome(w[u := w[u].(weak := w[u].weak + [(alias, sub)])], None)
      else
        var w1 := if !weak && g.Of(u).Implicit(alias) then WithFeature(w, u, alias) else w;
        MissingShrinks(g, w, w1);
        var r := EnableLines(g, w1, u, g.Lines(u, alias), Some(sub));
        GrowsTransitive(w, w1, r.units);
        r
  }

  function EnableLines(g: Locked, w: Units, u: Unit, lines: seq<nat>, extra: Option<string>): (r: Outcome)
    requires g.Valid() && ValidUnits(g, w) && u in w
    requires forall p :: p in lines ==> p < |g.Of(u).dependencies|
    ensures Advances(g, w, r)
    decreases Missing(g, w), 4, |lines|
  {
    if lines == [] then Outcome(w, None)
    else
      assert lines[0] in lines && forall p :: p in lines[1..] ==> p in lines;
      var r := EnableLine(g, w, u, lines[0], extra);
      if r.error.Some? then r
      else
        MissingShrinks(g, w, r.units);
        var r' := EnableLines(g, r.units, u, lines[1..], extra);
        GrowsTransitive(w, r.units, r'.units);
        r'
  }

  lemma ActivateOne(g: Locked, w: Units, u: Unit, f: string)
    requires g.Valid() && ValidUnits(g, w) && g.Has(u)
    ensures ActivateAll(g, w, u, [f]) == Activate(g, w, u, f)
  {
    var r := Activate(g, w, u, f);
    assert [f][1..] == [];
    assert ActivateAll(g, r.units, u, []) == Outcome(r.units, None);
  }

  lemma {:induction false} ActivateBoth(g: Locked, w: Units, u: Unit, first: seq<string>, second: seq<string>)
    requires g.Valid() && ValidUnits(g, w) && g.Has(u)
    ensures var r := ActivateAll(g, w, u, first);
      ActivateAll(g, w, u, first + second) == if r.error.Some? then r else ActivateAll(g, r.units, u, second)
    decreases |first|
  {
    if first == [] {
      assert first + second == second;
    } else {
      var r := Activate(g, w, u, first[0]);
      assert (first + second)[1..] == first[1..] + second;
      if r.error.None? {
        ActivateBoth(g, r.units, u, first[1..], second);
      }
    }
  }

  /** The whole resolution: the root, then the features asked of it. */
  function Resolve(g: Locked, asked: seq<string>): Outcome
    requires g.Valid()
  {
    var r := Ensure(g, map[], ROOT);
    if r.error.Some? then r else ActivateAll(g, r.units, ROOT, asked)
  }
}
