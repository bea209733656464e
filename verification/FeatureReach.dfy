/** What every call of the resolver keeps, whatever the locked packages: all
    it makes is reached from the unit it is about, and all a host unit makes
    is for the host (kompilator/src/resolve.rs). */
module FeatureReach {
  import opened Common
  import opened Manifests
  import opened Features

  ghost predicate ClosedUnder(w: Units, S: iset<Unit>) {
    forall v, e :: v in S && v in w && e in w[v].edges ==> e.to in S
  }

  /** `v` is `u` or is reached from it over edges: it is in every set that
      holds `u` and all that edges lead to. */
  ghost predicate Reaches(w: Units, u: Unit, v: Unit) {
    forall S: iset<Unit> :: u in S && ClosedUnder(w, S) ==> v in S
  }

  lemma ReachesGrows(w: Units, w': Units, u: Unit, v: Unit)
    requires Grows(w, w') && Reaches(w, u, v)
    ensures Reaches(w', u, v)
  {
    forall S: iset<Unit> | u in S && ClosedUnder(w', S) ensures v in S {
      assert ClosedUnder(w, S);
    }
  }

  lemma ReachesOver(w: Units, u: Unit, e: Edge, v: Unit)
    requires u in w && e in w[u].edges && Reaches(w, e.to, v)
    ensures Reaches(w, u, v)
  {
  }

  /** Every unit made since `w` is reached from `u`. */
  ghost predicate NewReached(w: Units, w': Units, u: Unit) {
    forall v :: v in w' && v !in w ==> Reaches(w', u, v)
  }

  /** The edge of line `p` of `u`. */
  ghost function EdgeAt(g: Locked, u: Unit, p: nat): Edge
    requires g.Valid() && g.Has(u) && p < |g.Of(u).dependencies| && g.targets[u.node][p].Some?
  {
    var d := g.Of(u).dependencies[p];
    Edge(d.alias, d.kind, g.Reached(u, d, g.targets[u.node][p].value))
  }

  /** `e` is an edge for line `p` of `u`. */
  ghost predicate OfLine(g: Locked, u: Unit, e: Edge, p: nat)
    requires g.Valid()
  {
    g.Has(u) && p < |g.Of(u).dependencies| && g.targets[u.node][p].Some? && e == EdgeAt(g, u, p)
  }

  ghost predicate EdgesOfLines(g: Locked, w: Units)
    requires g.Valid()
  {
    forall v, e :: v in w && e in w[v].edges ==> exists p :: OfLine(g, v, e, p)
  }

  /** The same units for the target, with the same features, edges and
      waiting requests. */
  ghost predicate SameTargets(w: Units, w': Units) {
    forall v: Unit :: !v.host ==> (v in w <==> v in w') && (v in w ==> w[v] == w'[v])
  }

  /** What a call about `u` keeps. */
  ghost predicate Local(g: Locked, w: Units, u: Unit, r: Outcome)
    requires g.Valid()
  {
    && (r.error.None? ==> NewReached(w, r.units, u))
    && (EdgesOfLines(g, w) ==> EdgesOfLines(g, r.units))
    && (u.host ==> SameTargets(w, r.units))
  }

  lemma LocalThen(g: Locked, w: Units, u: Unit, w1: Units, r: Outcome)
    requires g.Valid() && Local(g, w, u, Outcome(w1, None)) && Local(g, w1, u, r) && Grows(w1, r.units)
    ensures Local(g, w, u, r)
  {
    if r.error.None? {
      forall v | v in r.units && v !in w ensures Reaches(r.units, u, v) {
        if v in w1 { ReachesGrows(w1, r.units, u, v); }
      }
    }
  }

  /** Only the features or the waiting requests of `u` changed. */
  lemma LocalTouch(g: Locked, w: Units, u: Unit, s: State)
    requires g.Valid() && u in w && s.edges == w[u].edges
    ensures Local(g, w, u, Outcome(w[u := s], None))
    ensures Local(g, w, u, Outcome(w, None))
  {
  }

  lemma LocalNew(g: Locked, w: Units, u: Unit)
    requires g.Valid() && u !in w
    ensures Local(g, w, u, Outcome(w[u := NEW], None))
  {
  }

  lemma LocalFailed(g: Locked, w: Units, u: Unit, r: Outcome, error: Option<Refusal>)
    requires g.Valid() && Local(g, w, u, r) && error.Some?
    ensures Local(g, w, u, Outcome(r.units, error))
  {
  }

  /** A call about the end of an edge of `u` is one about `u`. */
  lemma LocalOver(g: Locked, w: Units, u: Unit, e: Edge, r: Outcome)
    requires g.Valid() && Local(g, w, e.to, r) && (u.host ==> e.to.host)
    requires r.error.None? ==> u in r.units && e in r.units[u].edges
    ensures Local(g, w, u, r)
  {
    if r.error.None? {
      forall v | v in r.units && v !in w ensures Reaches(r.units, u, v) {
        ReachesOver(r.units, u, e, v);
      }
    }
  }

  /** Making the end of a line and then its edge. */
  lemma LocalLinked(g: Locked, w: Units, u: Unit, e: Edge, p: nat, r: Outcome)
    requires g.Valid() && Local(g, w, e.to, r) && OfLine(g, u, e, p) && r.error.None? && u in r.units
    ensures Local(g, w, u, Outcome(Features.Linked(r.units, u, e), None))
  {
    var w' := Features.Linked(r.units, u, e);
    forall v | v in w' && v !in w ensures Reaches(w', u, v) {
      ReachesGrows(r.units, w', e.to, v);
      ReachesOver(w', u, e, v);
    }
    if EdgesOfLines(g, w) {
      forall v, e' | v in w' && e' in w'[v].edges ensures exists p :: OfLine(g, v, e', p) {
        if v == u && e' == e { assert OfLine(g, v, e', p); }
      }
    }
  }

  // ---------------------------------------------------------- the nine steps

  lemma {:induction false} EnsureLocal(g: Locked, w: Units, u: Unit)
    requires g.Valid() && ValidUnits(g, w) && g.Has(u)
    ensures Local(g, w, u, Ensure(g, w, u))
    decreases Missing(g, w), 0, 0
  {
    if u in w {
      LocalTouch(g, w, u, w[u]);
    } else {
      MissingUnit(g, w, u);
      var w' := w[u := NEW];
      LocalNew(g, w, u);
      EnsureFromLocal(g, w', u, 0);
      LocalThen(g, w, u, w', EnsureFrom(g, w', u, 0));
    }
  }

  lemma {:induction false} EnsureFromLocal(g: Locked, w: Units, u: Unit, p: nat)
    requires g.Valid() && ValidUnits(g, w) && u in w && p <= |g.Of(u).dependencies|
    ensures Local(g, w, u, EnsureFrom(g, w, u, p))
    decreases Missing(g, w), 4, |g.Of(u).dependencies| - p
  {
    if p == |g.Of(u).dependencies| {
      LocalTouch(g, w, u, w[u]);
    } else if g.Of(u).dependencies[p].optional || !g.Used(u, p) {
      EnsureFromLocal(g, w, u, p + 1);
    } else {
      EnableLineLocal(g, w, u, p, None);
      var r := EnableLine(g, w, u, p, None);
      if r.error.None? {
        MissingShrinks(g, w, r.units);
        EnsureFromLocal(g, r.units, u, p + 1);
        LocalThen(g, w, u, r.units, EnsureFrom(g, r.units, u, p + 1));
      }
    }
  }

  lemma {:induction false} EnableLineLocal(g: Locked, w: Units, u: Unit, p: nat, extra: Option<string>)
    requires g.Valid() && ValidUnits(g, w) && u in w && p < |g.Of(u).dependencies|
    ensures Local(g, w, u, EnableLine(g, w, u, p, extra))
    decreases Missing(g, w), 3, 2
  {
    match g.targets[u.node][p]
    case None => LocalTouch(g, w, u, w[u]);
    case Some(node) =>
      var e := EdgeAt(g, u, p);
      var r1 := Ensure(g, w, e.to);
      EnsureLocal(g, w, e.to);
      assert OfLine(g, u, e, p);
      if r1.error.Some? {
        LocalOver(g, w, u, e, r1);
      } else {
        MissingShrinks(g, w, r1.units);
        MadeLineLocal(g, w, u, p, extra, e, r1.units);
      }
  }

  /** Linking a unit to the end of its line, once that is made, and asking. */
  lemma {:induction false} MadeLineLocal(g: Locked, w: Units, u: Unit, p: nat, extra: Option<string>, e: Edge, w1: Units)
    requires g.Valid() && u in w && OfLine(g, u, e, p) && Local(g, w, e.to, Outcome(w1, None))
    requires ValidUnits(g, w1) && Grows(w, w1) && e.to in w1
    ensures Local(g, w, u, Ask(g, Features.Linked(w1, u, e), u, p, extra))
    decreases Missing(g, w1), 3, 1
  {
    LocalLinked(g, w, u, e, p, Outcome(w1, None));
    LinkedIsValid(g, w1, u, e);
    var w2 := Features.Linked(w1, u, e);
    MissingShrinks(g, w1, w2);
    GrowsTransitive(w, w1, w2);
    AskLocal(g, w2, u, p, extra);
    LocalThen(g, w, u, w2, Ask(g, w2, u, p, extra));
  }

  lemma {:induction false} AskLocal(g: Locked, w: Units, u: Unit, p: nat, extra: Option<string>)
    requires g.Valid() && ValidUnits(g, w) && u in w
    requires p < |g.Of(u).dependencies| && g.targets[u.node][p].Some?
    requires EdgeAt(g, u, p) in w[u].edges
    ensures Local(g, w, u, Ask(g, w, u, p, extra))
    decreases Missing(g, w), 3, 0
  {
    var node := g.targets[u.node][p].value;
    var d := g.Of(u).dependencies[p];
    var e := EdgeAt(g, u, p);
    var asked := AskedOf(g, d, node, extra);
    ActivateAllLocal(g, w, e.to, asked);
    var r1 := ActivateAll(g, w, e.to, asked);
    LocalOver(g, w, u, e, r1);
    if r1.error.None? {
      DrainLocal(g, w, u, d.alias, r1.units);
      MissingShrinks(g, w, r1.units);
      MissingShrinks(g, r1.units, Drained(r1.units, u, d.alias));
      ReleaseLocal(g, w, u, e, Drained(r1.units, u, d.alias), Released(r1.units[u].weak, d.alias));
    }
  }

  lemma DrainLocal(g: Locked, w: Units, u: Unit, alias: string, w1: Units)
    requires g.Valid() && Local(g, w, u, Outcome(w1, None)) && Grows(w, w1) && u in w
    ensures Local(g, w, u, Outcome(Drained(w1, u, alias), None)) && Grows(w, Drained(w1, u, alias))
  {
    var w2 := Drained(w1, u, alias);
    LocalTouch(g, w1, u, w2[u]);
    LocalThen(g, w, u, w1, Outcome(w2, None));
    GrowsTransitive(w, w1, w2);
  }

  /** Activating at the end of an edge of `u`, after what came before. */
  lemma {:induction false} ReleaseLocal(g: Locked, w: Units, u: Unit, e: Edge, w2: Units, features: seq<string>)
    requires g.Valid() && ValidUnits(g, w2) && Local(g, w, u, Outcome(w2, None)) && Grows(w, w2)
    requires u in w && e in w[u].edges && (u.host ==> e.to.host)
    ensures g.Has(e.to) && Local(g, w, u, ActivateAll(g, w2, e.to, features))
    decreases Missing(g, w2), 2, |features| + 1
  {
    ActivateAllLocal(g, w2, e.to, features);
    var r := ActivateAll(g, w2, e.to, features);
    assert e in w2[u].edges;
    LocalOver(g, w2, u, e, r);
    LocalThen(g, w, u, w2, r);
  }

  lemma {:induction false} ActivateAllLocal(g: Locked, w: Units, u: Unit, features: seq<string>)
    requires g.Valid() && ValidUnits(g, w) && g.Has(u)
    ensures Local(g, w, u, ActivateAll(g, w, u, features))
    decreases Missing(g, w), 2, |features|
  {
    if features != [] {
      ActivateLocal(g, w, u, features[0]);
      var r := Activate(g, w, u, features[0]);
      if r.error.None? {
        MissingShrinks(g, w, r.units);
        ActivateAllLocal(g, r.units, u, features[1..]);
        LocalThen(g, w, u, r.units, ActivateAll(g, r.units, u, features[1..]));
      }
    }
  }

  lemma {:induction false} ActivateLocal(g: Locked, w: Units, u: Unit, feature: string)
    requires g.Valid() && ValidUnits(g, w) && g.Has(u)
    ensures Local(g, w, u, Activate(g, w, u, feature))
    decreases Missing(g, w), 1, 0
  {
    EnsureLocal(g, w, u);
    var r1 := Ensure(g, w, u);
    if r1.error.None? && feature !in r1.units[u].features {
      var w2 := WithFeature(r1.units, u, feature);
      WithFeatureIsValid(g, r1.units, u, feature);
      LocalTouch(g, r1.units, u, w2[u]);
      LocalThen(g, w, u, r1.units, Outcome(w2, None));
      GrowsTransitive(w, r1.units, w2);
      MissingShrinks(g, w, r1.units);
      if feature in g.Of(u).features || g.Of(u).Implicit(feature) {
        MissingFeature(g, r1.units, u, feature);
        FeatureLocal(g, w, w2, u, feature);
      } else {
        LocalFailed(g, w, u, Outcome(w2, None), Some(Refusal(u, feature)));
      }
    }
  }

  /** Doing what a feature newly activated means. */
  lemma {:induction false} FeatureLocal(g: Locked, w: Units, w2: Units, u: Unit, feature: string)
    requires g.Valid() && ValidUnits(g, w2) && u in w2 && Local(g, w, u, Outcome(w2, None)) && Grows(w, w2)
    ensures feature in g.Of(u).features ==> Local(g, w, u, RunEntries(g, w2, u, g.Of(u).features[feature]))
    ensures feature !in g.Of(u).features ==> Local(g, w, u, EnableLines(g, w2, u, g.Lines(u, feature), None))
    decreases Missing(g, w2), 7, 0
  {
    if feature in g.Of(u).features {
      RunEntriesLocal(g, w2, u, g.Of(u).features[feature]);
      LocalThen(g, w, u, w2, RunEntries(g, w2, u, g.Of(u).features[feature]));
    } else {
      EnableLinesLocal(g, w2, u, g.Lines(u, feature), None);
      LocalThen(g, w, u, w2, EnableLines(g, w2, u, g.Lines(u, feature), None));
    }
  }

  lemma {:induction false} RunEntriesLocal(g: Locked, w: Units, u: Unit, entries: seq<string>)
    requires g.Valid() && ValidUnits(g, w) && u in w
    ensures Local(g, w, u, RunEntries(g, w, u, entries))
    decreases Missing(g, w), 6, |entries|
  {
    if entries == [] {
      LocalTouch(g, w, u, w[u]);
    } else {
      RunEntryLocal(g, w, u, Classify(entries[0]));
      var r := RunEntry(g, w, u, Classify(entries[0]));
      if r.error.None? {
        MissingShrinks(g, w, r.units);
        RunEntriesLocal(g, r.units, u, entries[1..]);
        LocalThen(g, w, u, r.units, RunEntries(g, r.units, u, entries[1..]));
      }
    }
  }

  lemma {:induction false} RunEntryLocal(g: Locked, w: Units, u: Unit, entry: Entry)
    requires g.Valid() && ValidUnits(g, w) && u in w
    ensures Local(g, w, u, RunEntry(g, w, u, entry))
    decreases Missing(g, w), 5, 0
  {
    match entry
    case Dep(alias) => EnableLinesLocal(g, w, u, g.Lines(u, alias), None);
    case Plain(name) => ActivateLocal(g, w, u, name);
    case Sub(alias, sub, weak) =>
      if weak && !Enabled(w, u, alias) {
        LocalTouch(g, w, u, w[u].(weak := w[u].weak + [(alias, sub)]));
      } else {
        var w1 := if !weak && g.Of(u).Implicit(alias) then WithFeature(w, u, alias) else w;
        LocalTouch(g, w, u, w1[u]);
        MissingShrinks(g, w, w1);
        EnableLinesLocal(g, w1, u, g.Lines(u, alias), Some(sub));
        LocalThen(g, w, u, w1, EnableLines(g, w1, u, g.Lines(u, alias), Some(sub)));
      }
  }

  lemma {:induction false} EnableLinesLocal(g: Locked, w: Units, u: Unit, lines: seq<nat>, extra: Option<string>)
    requires g.Valid() && ValidUnits(g, w) && u in w
    requires forall p :: p in lines ==> p < |g.Of(u).dependencies|
    ensures Local(g, w, u, EnableLines(g, w, u, lines, extra))
    decreases Missing(g, w), 4, |lines|
  {
    if lines == [] {
      LocalTouch(g, w, u, w[u]);
    } else {
      assert lines[0] in lines && forall p :: p in lines[1..] ==> p in lines;
      EnableLineLocal(g, w, u, lines[0], extra);
      var r := EnableLine(g, w, u, lines[0], extra);
      if r.error.None? {
        MissingShrinks(g, w, r.units);
        EnableLinesLocal(g, r.units, u, lines[1..], extra);
        LocalThen(g, w, u, r.units, EnableLines(g, r.units, u, lines[1..], extra));
      }
    }
  }

  // ------------------------------------------------------------ whole runs

  lemma ResolveLocal(g: Locked, asked: seq<string>)
    requires g.Valid()
    ensures Local(g, map[], ROOT, Resolve(g, asked)) && ValidUnits(g, Resolve(g, asked).units)
  {
    var empty: Units := map[];
    EnsureLocal(g, empty, ROOT);
    var r := Ensure(g, empty, ROOT);
    if r.error.None? {
      ActivateAllLocal(g, r.units, ROOT, asked);
      LocalThen(g, empty, ROOT, r.units, ActivateAll(g, r.units, ROOT, asked));
    }
  }

  /** Every unit a resolution makes is reached from the root. */
  lemma EveryUnitIsReached(g: Locked, asked: seq<string>)
    requires g.Valid() && Resolve(g, asked).error.None?
    ensures var w := Resolve(g, asked).units; ROOT in w && forall u :: u in w ==> Reaches(w, ROOT, u)
  {
    ResolveLocal(g, asked);
  }

  /** Each edge is for a line of its unit; what a host unit uses is for the
      host, and so is every build dependency. */
  lemma HostStaysHost(g: Locked, asked: seq<string>, u: Unit, e: Edge)
    requires g.Valid()
    requires var w := Resolve(g, asked).units; u in w && e in w[u].edges
    ensures exists p :: OfLine(g, u, e, p)
    ensures u.host ==> e.to.host
    ensures e.kind == Build ==> e.to.host
    ensures e.to in Resolve(g, asked).units
  {
    ResolveLocal(g, asked);
    var empty: Units := map[];
    assert EdgesOfLines(g, empty);
  }
}
