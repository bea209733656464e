/** The two inputs on which the order of resolving shows, each breaking one of
    the two conditions of `FeatureRules.Regular`. */
module FeatureSurprises {
  import opened Common
  import opened Manifests
  import opened Features
  import opened FeatureRules
  import opened FeatureLaws

  function Line(alias: string, kind: Kind): Dependency {
    Dependency(alias, alias, None, true, false, [], kind, None)
  }

  function Only(entry: Entry): seq<string> { [Written(entry)] }

  const LIBRARY := Manifest("a", "1", None, false, map["s" := []], [])

  const A := Unit(1, false)

  /** The root before anything is asked of it. */
  const ALONE: Units := map[ROOT := NEW]

  // ------------------------------------------------------ calls, evaluated

  lemma RunOnly(g: Locked, w: Units, u: Unit, entry: Entry)
    requires g.Valid() && ValidUnits(g, w) && u in w && Legal(entry)
    ensures RunEntries(g, w, u, Only(entry)) == RunEntry(g, w, u, entry)
  {
    LegalIsReadBack(entry);
    var r := RunEntry(g, w, u, entry);
    assert Only(entry)[1..] == [];
    assert RunEntries(g, r.units, u, []) == Outcome(r.units, None);
  }

  lemma AskTwo(g: Locked, w: Units, u: Unit, f: string, f': string)
    requires g.Valid() && ValidUnits(g, w) && g.Has(u) && Activate(g, w, u, f).error.None?
    ensures ActivateAll(g, w, u, [f, f']) == Activate(g, Activate(g, w, u, f).units, u, f')
  {
    var r := Activate(g, w, u, f);
    assert [f, f'][1..] == [f'];
    ActivateOne(g, r.units, u, f');
  }

  lemma ActivateRuns(g: Locked, w: Units, u: Unit, f: string, entry: Entry)
    requires g.Valid() && ValidUnits(g, w) && u in w && f !in w[u].features
    requires f in g.Of(u).features && g.Of(u).features[f] == Only(entry) && Legal(entry)
    ensures Activate(g, w, u, f) == RunEntry(g, WithFeature(w, u, f), u, entry)
  {
    RunOnly(g, WithFeature(w, u, f), u, entry);
  }

  lemma EnableOne(g: Locked, w: Units, u: Unit, p: nat, extra: Option<string>)
    requires g.Valid() && ValidUnits(g, w) && u in w && p < |g.Of(u).dependencies|
    ensures EnableLines(g, w, u, [p], extra) == EnableLine(g, w, u, p, extra)
  {
    var r := EnableLine(g, w, u, p, extra);
    assert [p][1..] == [];
    assert EnableLines(g, r.units, u, [], extra) == Outcome(r.units, None);
  }

  lemma EnableTwo(g: Locked, w: Units, u: Unit, p: nat, q: nat, extra: Option<string>)
    requires g.Valid() && ValidUnits(g, w) && u in w && p < |g.Of(u).dependencies| && q < |g.Of(u).dependencies|
    requires EnableLine(g, w, u, p, extra).error.None?
    ensures EnableLines(g, w, u, [p, q], extra) == EnableLine(g, EnableLine(g, w, u, p, extra).units, u, q, extra)
  {
    assert [p, q][1..] == [q];
    EnableOne(g, EnableLine(g, w, u, p, extra).units, u, q, extra);
  }

  /** A root whose lines are all optional starts alone. */
  lemma {:induction false} RootAlone(g: Locked, w: Units, p: nat)
    requires g.Valid() && ValidUnits(g, w) && ROOT in w && p <= |g.Of(ROOT).dependencies|
    requires forall q :: 0 <= q < |g.Of(ROOT).dependencies| ==> g.Of(ROOT).dependencies[q].optional
    ensures EnsureFrom(g, w, ROOT, p) == Outcome(w, None)
    decreases |g.Of(ROOT).dependencies| - p
  {
    if p < |g.Of(ROOT).dependencies| {
      RootAlone(g, w, p + 1);
    }
  }

  /** `s`, the only feature of a library that depends on nothing. */
  lemma LeafFeature(g: Locked, w: Units, u: Unit)
    requires g.Valid() && ValidUnits(g, w) && g.Has(u) && g.Of(u) == LIBRARY && u in w
    ensures Activate(g, w, u, "s") == Outcome(WithFeature(w, u, "s"), None)
  {
    var w' := WithFeature(w, u, "s");
    assert RunEntries(g, w', u, []) == Outcome(w', None);
    if "s" in w[u].features {
      assert w[u].features + {"s"} == w[u].features;
      assert w' == w;
    }
  }

  /** `w` once line `p` of `u`, a library that depends on nothing, is linked. */
  function LeafLinked(w: Units, u: Unit, e: Edge): Units
    requires u in w
  {
    Features.Linked(if e.to in w then w else w[e.to := NEW], u, e)
  }

  predicate IsLeaf(g: Locked, u: Unit, p: nat)
    requires g.Valid()
  {
    && g.Has(u) && p < |g.Of(u).dependencies| && g.targets[u.node][p] == Some(1)
    && g.Of(u).dependencies[p] == Line("a", g.Of(u).dependencies[p].kind)
    && |g.manifests| == 2 && g.manifests[1] == LIBRARY
  }

  /** The unit line `p` of the root is. */
  function Leaf(g: Locked, p: nat): Edge
    requires g.Valid() && IsLeaf(g, ROOT, p)
  {
    Edge("a", g.Of(ROOT).dependencies[p].kind, g.Reached(ROOT, g.Of(ROOT).dependencies[p], 1))
  }

  function LeafAsked(w: Units, to: Unit, extra: Option<string>): Units
    requires ROOT in w && to in w
  {
    var w' := if extra.Some? then WithFeature(w, to, "s") else w;
    var w'' := Drained(w', ROOT, "a");
    if Released(w[ROOT].weak, "a") == [] then w'' else WithFeature(w'', to, "s")
  }

  lemma LeafAsk(g: Locked, w: Units, p: nat, extra: Option<string>)
    requires g.Valid() && ValidUnits(g, w) && ROOT in w && IsLeaf(g, ROOT, p) && Leaf(g, p).to in w
    requires extra in {None, Some("s")} && Released(w[ROOT].weak, "a") in {[], ["s"]}
    ensures Ask(g, w, ROOT, p, extra) == Outcome(LeafAsked(w, Leaf(g, p).to, extra), None)
  {
    var to := Leaf(g, p).to;
    var asked := AskedOf(g, g.Of(ROOT).dependencies[p], 1, extra);
    assert asked == if extra.Some? then ["s"] else [];
    LeafFeature(g, w, to);
    ActivateOne(g, w, to, "s");
    var w' := if extra.Some? then WithFeature(w, to, "s") else w;
    assert ActivateAll(g, w, to, []) == Outcome(w, None);
    assert w'[ROOT].weak == w[ROOT].weak;
    var w'' := Drained(w', ROOT, "a");
    LeafFeature(g, w'', to);
    ActivateOne(g, w'', to, "s");
    assert ActivateAll(g, w'', to, []) == Outcome(w'', None);
  }

  /** `w'` is `w` with the leaf `e` of the root linked, asked for `s` or not. */
  ghost predicate LeafAdded(w: Units, w': Units, e: Edge, s: bool) {
    && ROOT in w && w'.Keys == w.Keys + {e.to}
    && w'[ROOT].features == w[ROOT].features
    && e in w'[ROOT].edges
    && Released(w'[ROOT].weak, e.alias) == []
    && w'[e.to].features == (if e.to in w then w[e.to].features else {}) + (if s then {"s"} else {})
    && forall u :: u in w && u != ROOT && u != e.to ==> w'[u] == w[u]
  }

  lemma LeafEffect(w: Units, e: Edge, extra: Option<string>)
    requires ROOT in w && e.to != ROOT && e.alias == "a"
    ensures LeafAdded(w, LeafAsked(LeafLinked(w, ROOT, e), e.to, extra), e,
                      extra.Some? || Released(w[ROOT].weak, "a") != [])
  {
    LeafLinkedEffect(w, e);
    LeafAskedEffect(LeafLinked(w, ROOT, e), e.to, extra);
  }

  lemma LeafLinkedEffect(w: Units, e: Edge)
    requires ROOT in w && e.to != ROOT
    ensures var w' := LeafLinked(w, ROOT, e);
      && w'.Keys == w.Keys + {e.to} && e in w'[ROOT].edges
      && w'[ROOT].weak == w[ROOT].weak && w'[ROOT].features == w[ROOT].features
      && w'[e.to].features == (if e.to in w then w[e.to].features else {})
      && forall u :: u in w && u != ROOT && u != e.to ==> w'[u] == w[u]
  {
  }

  lemma LeafAskedEffect(w: Units, to: Unit, extra: Option<string>)
    requires ROOT in w && to in w && to != ROOT
    ensures var w' := LeafAsked(w, to, extra);
      && w'.Keys == w.Keys
      && w'[ROOT].features == w[ROOT].features && w'[ROOT].edges == w[ROOT].edges
      && Released(w'[ROOT].weak, "a") == []
      && w'[to].features == w[to].features + (if extra.Some? || Released(w[ROOT].weak, "a") != [] then {"s"} else {})
      && forall u :: u in w && u != ROOT && u != to ==> w'[u] == w[u]
  {
    var w' := LeafAsked(w, to, extra);
    assert w'[ROOT].weak == Kept(w[ROOT].weak, "a");
  }

  lemma LeafLine(g: Locked, w: Units, p: nat, extra: Option<string>)
    requires g.Valid() && ValidUnits(g, w) && ROOT in w && IsLeaf(g, ROOT, p)
    requires extra in {None, Some("s")} && Released(w[ROOT].weak, "a") in {[], ["s"]}
    ensures var r := EnableLine(g, w, ROOT, p, extra);
      && r.error.None?
      && LeafAdded(w, r.units, Leaf(g, p), extra.Some? || Released(w[ROOT].weak, "a") != [])
  {
    var e := Leaf(g, p);
    LeafMade(g, w, p);
    LinkedIsValid(g, if e.to in w then w else w[e.to := NEW], ROOT, e);
    var w2 := LeafLinked(w, ROOT, e);
    LeafAsk(g, w2, p, extra);
    assert EnableLine(g, w, ROOT, p, extra) == Outcome(LeafAsked(w2, e.to, extra), None);
    LeafEffect(w, e, extra);
  }

  lemma LeafMade(g: Locked, w: Units, p: nat)
    requires g.Valid() && ValidUnits(g, w) && ROOT in w && IsLeaf(g, ROOT, p)
    ensures g.Has(Leaf(g, p).to)
    ensures var w1 := if Leaf(g, p).to in w then w else w[Leaf(g, p).to := NEW];
      ValidUnits(g, w1) && Ensure(g, w, Leaf(g, p).to) == Outcome(w1, None)
  {
    var to := Leaf(g, p).to;
    var w1 := if to in w then w else w[to := NEW];
    assert EnsureFrom(g, w1, to, 0) == Outcome(w1, None);
  }

  // ------------------------------------------------------- the two inputs

  /** Asked for `f` then `f'`, unit `u` lacks feature `s`; asked the other way
      round it has it; and nothing is refused either way. */
  ghost predicate OrderShows(g: Locked, f: string, f': string, u: Unit, s: string) {
    && g.Valid() && !Regular(g, ForcedBy(g, [f, f']))
    && var r, r' := Resolve(g, [f, f']), Resolve(g, [f', f]);
    && r.error.None? && r'.error.None?
    && u in r.units && s !in r.units[u].features
    && u in r'.units && s in r'.units[u].features
  }

  /** `f = ["a/s"]` records the implicit feature `a`, so the feature table's
      own `a = ["g"]` runs only when `a` is asked for first. */
  ghost predicate IsShadowed(g: Locked) {
    && g.Valid() && IsLeaf(g, ROOT, 0)
    && |g.Of(ROOT).dependencies| == 1 && g.Of(ROOT).dependencies[0].kind == Normal
    && g.Of(ROOT).features == map["f" := Only(Sub("a", "s", false)), "a" := Only(Plain("g")), "g" := []]
  }

  function Shadowed(): (g: Locked)
    ensures IsShadowed(g)
  {
    var table := map["f" := Only(Sub("a", "s", false)), "a" := Only(Plain("g")), "g" := []];
    Locked([Manifest("root", "1", None, false, table, [Line("a", Normal)]), LIBRARY], [[Some(1)], []])
  }

  lemma ShadowedIsImplicit(g: Locked)
    requires IsShadowed(g)
    ensures g.Of(ROOT).Implicit("a") && g.Lines(ROOT, "a") == [0] && Leaf(g, 0) == Edge("a", Normal, A)
    ensures Legal(Sub("a", "s", false)) && Legal(Plain("g"))
    ensures StrongEntry(g.Of(ROOT), "f", "a", "s")
  {
    var m := g.Of(ROOT);
    LegalIsReadBack(Sub("a", "s", false));
    LegalIsReadBack(Plain("g"));
    assert m.dependencies[0].alias == "a" && m.dependencies[0].optional;
    assert g.LinesFrom(ROOT, "a", 1) == [];
    assert Classify(m.features["f"][0]) == Sub("a", "s", false);
    assert StrongEntry(m, "f", "a", "s");
  }

  /** The root alone, asked for nothing that is not a feature. */
  ghost predicate Bare(w: Units) {
    w.Keys == {ROOT} && w[ROOT].edges == [] && w[ROOT].weak == []
  }

  lemma BareStays(g: Locked, w: Units, f: string)
    requires g.Valid() && Bare(w)
    ensures ValidUnits(g, w) && Bare(WithFeature(w, ROOT, f))
    ensures WithFeature(w, ROOT, f)[ROOT].features == w[ROOT].features + {f}
  {
  }

  lemma ShadowedEntry(g: Locked, w: Units)
    requires IsShadowed(g) && Bare(w)
    ensures ValidUnits(g, w)
    ensures var r := RunEntry(g, w, ROOT, Sub("a", "s", false));
      r.error.None? && ROOT in r.units && r.units[ROOT].features == w[ROOT].features + {"a"}
  {
    ShadowedIsImplicit(g);
    BareStays(g, w, "a");
    var w' := WithFeature(w, ROOT, "a");
    BareStays(g, w', "a");
    LeafLine(g, w', 0, Some("s"));
    EnableOne(g, w', ROOT, 0, Some("s"));
    assert RunEntry(g, w, ROOT, Sub("a", "s", false)) == EnableLine(g, w', ROOT, 0, Some("s"));
  }

  /** What activating `f` does, with or without `a` there. */
  lemma ShadowedF(g: Locked, w: Units)
    requires IsShadowed(g) && Bare(w) && "f" !in w[ROOT].features
    ensures ValidUnits(g, w)
    ensures var r := Activate(g, w, ROOT, "f");
      r.error.None? && ROOT in r.units && r.units[ROOT].features == w[ROOT].features + {"f", "a"}
  {
    BareStays(g, w, "f");
    ShadowedIsImplicit(g);
    ActivateRuns(g, w, ROOT, "f", Sub("a", "s", false));
    ShadowedEntry(g, WithFeature(w, ROOT, "f"));
  }

  lemma ShadowedA(g: Locked, w: Units)
    requires IsShadowed(g) && Bare(w) && w[ROOT].features == {}
    ensures ValidUnits(g, w)
    ensures var r := Activate(g, w, ROOT, "a");
      r.error.None? && Bare(r.units) && r.units[ROOT].features == {"a", "g"}
  {
    ShadowedIsImplicit(g);
    BareStays(g, w, "a");
    BareStays(g, WithFeature(w, ROOT, "a"), "g");
    PlainRuns(g, w, ROOT, "a", "g");
  }

  /** A feature whose one entry is another, which has none. */
  lemma PlainRuns(g: Locked, w: Units, u: Unit, f: string, f': string)
    requires g.Valid() && ValidUnits(g, w) && u in w && f !in w[u].features && f' !in w[u].features && f != f'
    requires Legal(Plain(f')) && f in g.Of(u).features && g.Of(u).features[f] == Only(Plain(f'))
    requires f' in g.Of(u).features && g.Of(u).features[f'] == []
    ensures Activate(g, w, u, f) == Outcome(WithFeature(WithFeature(w, u, f), u, f'), None)
  {
    var w1 := WithFeature(w, u, f);
    var w2 := WithFeature(w1, u, f');
    WithFeatureIsValid(g, w, u, f);
    WithFeatureIsValid(g, w1, u, f');
    assert RunEntries(g, w2, u, []) == Outcome(w2, None);
    assert Activate(g, w1, u, f') == Outcome(w2, None);
    ActivateRuns(g, w, u, f, Plain(f'));
  }

  lemma ResolveTwo(g: Locked, f: string, f': string)
    requires g.Valid() && forall q :: 0 <= q < |g.Of(ROOT).dependencies| ==> g.Of(ROOT).dependencies[q].optional
    ensures ValidUnits(g, ALONE)
    ensures var r := Activate(g, ALONE, ROOT, f);
      r.error.None? ==> Resolve(g, [f, f']) == Activate(g, r.units, ROOT, f')
  {
    RootAlone(g, ALONE, 0);
    assert Ensure(g, map[], ROOT) == Outcome(ALONE, None);
    if Activate(g, ALONE, ROOT, f).error.None? {
      AskTwo(g, ALONE, ROOT, f, f');
    }
  }

  lemma ShadowedFA(g: Locked, f: string, f': string)
    requires IsShadowed(g) && f == "f" && f' == "a"
    ensures var r := Resolve(g, [f, f']); r.error.None? && ROOT in r.units && "g" !in r.units[ROOT].features
  {
    ResolveTwo(g, f, f');
    ShadowedF(g, ALONE);
    var r := Activate(g, ALONE, ROOT, f);
    ActivateAgain(g, r.units, ROOT, f');
  }

  lemma ActivateAgain(g: Locked, w: Units, u: Unit, f: string)
    requires g.Valid() && ValidUnits(g, w) && u in w && f in w[u].features
    ensures Activate(g, w, u, f) == Outcome(w, None)
  {
  }

  lemma ShadowedAF(g: Locked, f: string, f': string)
    requires IsShadowed(g) && f == "a" && f' == "f"
    ensures var r := Resolve(g, [f, f']); r.error.None? && ROOT in r.units && "g" in r.units[ROOT].features
  {
    ResolveTwo(g, f, f');
    ShadowedA(g, ALONE);
    ShadowedF(g, Activate(g, ALONE, ROOT, f).units);
  }

  lemma AskedIsForced(g: Locked, f: string, f': string)
    requires g.Valid()
    ensures Active(ROOT, f) in ForcedBy(g, [f, f']) && Active(ROOT, f') in ForcedBy(g, [f, f'])
    ensures ClosedOver(g, Seeds(Names([f, f'])), ForcedBy(g, [f, f']))
  {
    ForcedIsClosed(g, Seeds(Names([f, f'])));
    assert f in [f, f'] && f' in [f, f'];
    assert Active(ROOT, f) in Seeds(Names([f, f'])) && Active(ROOT, f') in Seeds(Names([f, f']));
  }

  /** A declared feature named like an implicit one is run or not, depending
      on the order in which features are asked for. */
  lemma DeclaredFeatureMayBeShadowed()
    ensures OrderShows(Shadowed(), "f", "a", ROOT, "g")
  {
    var g := Shadowed();
    AskedIsForced(g, "f", "a");
    ShadowedIsImplicit(g);
    ShadowedFA(g, "f", "a");
    ShadowedAF(g, "a", "f");
  }

  /** A normal and a build line share the alias `a`. */
  ghost predicate IsShared(g: Locked) {
    && g.Valid() && IsLeaf(g, ROOT, 0) && IsLeaf(g, ROOT, 1)
    && |g.Of(ROOT).dependencies| == 2 && g.Of(ROOT).hasBuildScript
    && g.Of(ROOT).dependencies[0].kind == Normal && g.Of(ROOT).dependencies[1].kind == Build
    && g.Of(ROOT).features == map["w" := Only(Sub("a", "s", true)), "e" := Only(Dep("a"))]
  }

  const HOST := Unit(1, true)

  lemma WeakOnly(m: Manifest, f: string, alias: string, feature: string)
    requires Legal(Sub(alias, feature, true))
    requires f in m.features && m.features[f] == Only(Sub(alias, feature, true))
    ensures WeakEntry(m, f, alias, feature)
  {
    LegalIsReadBack(Sub(alias, feature, true));
    assert Classify(m.features[f][0]) == Sub(alias, feature, true);
  }

  /** A weak entry for a dependency not enabled only waits. */
  lemma WeakWaits(g: Locked, w: Units, u: Unit, f: string, alias: string, feature: string)
    requires g.Valid() && ValidUnits(g, w) && u in w && f !in w[u].features && !Enabled(w, u, alias)
    requires Legal(Sub(alias, feature, true))
    requires f in g.Of(u).features && g.Of(u).features[f] == Only(Sub(alias, feature, true))
    ensures Activate(g, w, u, f) ==
      Outcome(w[u := State(w[u].features + {f}, w[u].edges, w[u].weak + [(alias, feature)])], None)
  {
    WithFeatureIsValid(g, w, u, f);
    ActivateRuns(g, w, u, f, Sub(alias, feature, true));
    WeakOnlyWaits(g, WithFeature(w, u, f), u, alias, feature);
    FeatureThenWait(w, u, f, alias, feature);
  }

  lemma FeatureThenWait(w: Units, u: Unit, f: string, alias: string, feature: string)
    requires u in w && f !in w[u].features
    ensures var w' := WithFeature(w, u, f);
      w'[u := w'[u].(weak := w'[u].weak + [(alias, feature)])] ==
      w[u := State(w[u].features + {f}, w[u].edges, w[u].weak + [(alias, feature)])]
  {
  }

  lemma WeakOnlyWaits(g: Locked, w: Units, u: Unit, alias: string, feature: string)
    requires g.Valid() && ValidUnits(g, w) && u in w && !Enabled(w, u, alias)
    ensures RunEntry(g, w, u, Sub(alias, feature, true)) ==
      Outcome(w[u := w[u].(weak := w[u].weak + [(alias, feature)])], None)
  {
  }

  /** A weak entry for a dependency that is enabled applies to its lines. */
  lemma WeakApplies(g: Locked, w: Units, u: Unit, f: string, alias: string, feature: string)
    requires g.Valid() && ValidUnits(g, w) && u in w && f !in w[u].features && Enabled(w, u, alias)
    requires Legal(Sub(alias, feature, true))
    requires f in g.Of(u).features && g.Of(u).features[f] == Only(Sub(alias, feature, true))
    ensures Activate(g, w, u, f) == EnableLines(g, WithFeature(w, u, f), u, g.Lines(u, alias), Some(feature))
  {
    var w' := WithFeature(w, u, f);
    ActivateRuns(g, w, u, f, Sub(alias, feature, true));
    assert w'[u].edges == w[u].edges;
    assert RunEntry(g, w', u, Sub(alias, feature, true)) == EnableLines(g, w', u, g.Lines(u, alias), Some(feature));
  }

  function Shared(): (g: Locked)
    ensures IsShared(g)
  {
    var table := map["w" := Only(Sub("a", "s", true)), "e" := Only(Dep("a"))];
    var root := Manifest("root", "1", None, true, table, [Line("a", Normal), Line("a", Build)]);
    Locked([root, LIBRARY], [[Some(1), Some(1)], []])
  }

  lemma SharedLines(g: Locked)
    requires IsShared(g)
    ensures g.Lines(ROOT, "a") == [0, 1]
    ensures Leaf(g, 0) == Edge("a", Normal, A) && Leaf(g, 1) == Edge("a", Build, HOST)
    ensures Legal(Sub("a", "s", true)) && Legal(Dep("a"))
    ensures LiveAs(g, ROOT, "a", 0) && LiveAs(g, ROOT, "a", 1) && WeakEntry(g.Of(ROOT), "w", "a", "s")
  {
    var m := g.Of(ROOT);
    assert Written(Sub("a", "s", true))[0] == 'a';
    assert g.LinesFrom(ROOT, "a", 2) == [];
    assert g.LinesFrom(ROOT, "a", 1) == [1];
    WeakOnly(m, "w", "a", "s");
    assert LiveAs(g, ROOT, "a", 0) && LiveAs(g, ROOT, "a", 1);
  }

  lemma SharedIsForced(g: Locked)
    requires IsShared(g)
    ensures !Regular(g, ForcedBy(g, ["w", "e"]))
  {
    var S := ForcedBy(g, ["w", "e"]);
    SharedLines(g);
    AskedIsForced(g, "w", "e");
    LegalIsReadBack(Dep("a"));
    assert FeatureIn(g, S, ROOT, "e");
    assert EntryIn(g, S, ROOT, Classify(g.Of(ROOT).features["e"][0]));
    assert LineIn(g, S, ROOT, 0);
  }

  /** Enabling both lines: what each package was asked for. */
  lemma SharedBoth(g: Locked, w: Units, extra: Option<string>)
    requires IsShared(g) && ValidUnits(g, w) && ROOT in w
    requires extra in {None, Some("s")} && Released(w[ROOT].weak, "a") in {[], ["s"]}
    ensures var r := EnableLines(g, w, ROOT, [0, 1], extra);
      && r.error.None? && A in r.units && HOST in r.units && ROOT in r.units
      && r.units[ROOT].features == w[ROOT].features && Enabled(r.units, ROOT, "a")
      && Released(r.units[ROOT].weak, "a") == []
      && (HOST !in w && extra.None? ==> r.units[HOST].features == {})
      && (extra.Some? ==> "s" in r.units[HOST].features)
  {
    SharedLines(g);
    SharedFirst(g, w, extra);
    EnableTwo(g, w, ROOT, 0, 1, extra);
    SharedSecond(g, EnableLine(g, w, ROOT, 0, extra).units, extra);
  }

  lemma SharedFirst(g: Locked, w: Units, extra: Option<string>)
    requires IsShared(g) && ValidUnits(g, w) && ROOT in w
    requires extra in {None, Some("s")} && Released(w[ROOT].weak, "a") in {[], ["s"]}
    ensures var r := EnableLine(g, w, ROOT, 0, extra);
      && r.error.None? && A in r.units && ROOT in r.units && (HOST in r.units <==> HOST in w)
      && r.units[ROOT].features == w[ROOT].features && Released(r.units[ROOT].weak, "a") == []
  {
    SharedLines(g);
    LeafLine(g, w, 0, extra);
  }

  lemma SharedSecond(g: Locked, w: Units, extra: Option<string>)
    requires IsShared(g) && ValidUnits(g, w) && ROOT in w && A in w
    requires extra in {None, Some("s")} && Released(w[ROOT].weak, "a") == []
    ensures var r := EnableLine(g, w, ROOT, 1, extra);
      && r.error.None? && A in r.units && HOST in r.units && ROOT in r.units
      && r.units[ROOT].features == w[ROOT].features && Enabled(r.units, ROOT, "a")
      && Released(r.units[ROOT].weak, "a") == []
      && (HOST !in w && extra.None? ==> r.units[HOST].features == {})
      && (extra.Some? ==> "s" in r.units[HOST].features)
  {
    SharedLines(g);
    LeafLine(g, w, 1, extra);
    EdgeEnables(EnableLine(g, w, ROOT, 1, extra).units, ROOT, Leaf(g, 1));
  }

  lemma EdgeEnables(w: Units, u: Unit, e: Edge)
    requires u in w && e in w[u].edges
    ensures Enabled(w, u, e.alias)
  {
    var i :| 0 <= i < |w[u].edges| && w[u].edges[i] == e;
  }

  lemma SharedW(g: Locked)
    requires IsShared(g)
    ensures ValidUnits(g, ALONE)
    ensures var r := Activate(g, ALONE, ROOT, "w");
      && r.error.None? && r.units.Keys == {ROOT} && r.units[ROOT].features == {"w"}
      && r.units[ROOT].edges == [] && Released(r.units[ROOT].weak, "a") == ["s"]
  {
    SharedLines(g);
    WeakWaits(g, ALONE, ROOT, "w", "a", "s");
    OneReleased("a", "s");
  }

  lemma OneReleased(alias: string, feature: string)
    ensures Released([(alias, feature)], alias) == [feature]
  {
    assert [(alias, feature)][1..] == [];
  }

  lemma SharedWE(g: Locked, f: string, f': string)
    requires IsShared(g) && f == "w" && f' == "e"
    ensures var r := Resolve(g, [f, f']); r.error.None? && HOST in r.units && "s" !in r.units[HOST].features
  {
    ResolveTwo(g, f, f');
    SharedW(g);
    SharedE(g, Activate(g, ALONE, ROOT, f).units);
  }

  lemma SharedEW(g: Locked, f: string, f': string)
    requires IsShared(g) && f == "e" && f' == "w"
    ensures var r := Resolve(g, [f, f']); r.error.None? && HOST in r.units && "s" in r.units[HOST].features
  {
    ResolveTwo(g, f, f');
    SharedE(g, ALONE);
    SharedLast(g, Activate(g, ALONE, ROOT, f).units);
  }

  lemma SharedLast(g: Locked, w: Units)
    requires IsShared(g) && ValidUnits(g, w) && ROOT in w && "w" !in w[ROOT].features
    requires Enabled(w, ROOT, "a") && Released(w[ROOT].weak, "a") == []
    ensures var r := Activate(g, w, ROOT, "w"); r.error.None? && HOST in r.units && "s" in r.units[HOST].features
  {
    SharedLines(g);
    WithFeatureIsValid(g, w, ROOT, "w");
    WeakApplies(g, w, ROOT, "w", "a", "s");
    SharedBoth(g, WithFeature(w, ROOT, "w"), Some("s"));
  }

  lemma SharedEntry(g: Locked, w: Units)
    requires IsShared(g) && w.Keys == {ROOT} && w[ROOT].edges == [] && Released(w[ROOT].weak, "a") in {[], ["s"]}
    ensures ValidUnits(g, w)
    ensures var r := RunEntry(g, w, ROOT, Dep("a"));
      && r.error.None? && ROOT in r.units && r.units[ROOT].features == w[ROOT].features
      && HOST in r.units && r.units[HOST].features == {} && Enabled(r.units, ROOT, "a")
      && Released(r.units[ROOT].weak, "a") == []
  {
    SharedLines(g);
    SharedBoth(g, w, None);
  }

  lemma SharedE(g: Locked, w: Units)
    requires IsShared(g) && w.Keys == {ROOT} && w[ROOT].edges == [] && "e" !in w[ROOT].features
    requires Released(w[ROOT].weak, "a") in {[], ["s"]}
    ensures ValidUnits(g, w)
    ensures var r := Activate(g, w, ROOT, "e");
      && r.error.None? && ROOT in r.units && r.units[ROOT].features == w[ROOT].features + {"e"}
      && HOST in r.units && r.units[HOST].features == {} && Enabled(r.units, ROOT, "a")
      && Released(r.units[ROOT].weak, "a") == []
  {
    SharedLines(g);
    ActivateRuns(g, w, ROOT, "e", Dep("a"));
    SharedEntry(g, WithFeature(w, ROOT, "e"));
  }

  /** A weak request that waits is applied at the first of two lines that share
      an alias only, and one that does not wait is applied at both. */
  lemma WeakRequestMayMissALine()
    ensures OrderShows(Shared(), "w", "e", HOST, "s")
  {
    var g := Shared();
    SharedIsForced(g);
    SharedWE(g, "w", "e");
    SharedEW(g, "e", "w");
  }
}
