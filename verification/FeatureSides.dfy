/** Nothing asked on the host side shows on the target side
    (kompilator/src/resolve.rs, `reached` and what it is used for). */
module FeatureSides {
  import opened Common
  import opened Manifests
  import opened Features
  import opened FeatureReach

  /** Whatever unit the line belongs to, it leads to a host unit. */
  ghost predicate HostLine(g: Locked, n: nat, p: nat)
    requires g.Valid() && n < |g.manifests| && p < |g.manifests[n].dependencies|
  {
    || g.manifests[n].dependencies[p].kind == Build
    || (g.targets[n][p].Some? && g.manifests[g.targets[n][p].value].ProcMacro())
  }

  /** `d'` differs from `d` at most in the features it asks for. */
  ghost predicate SameButAsked(d: Dependency, d': Dependency) {
    d' == d.(features := d'.features, defaultFeatures := d'.defaultFeatures)
  }

  /** `g'` differs from `g` at most in what host lines ask for. */
  ghost predicate SameButHostLines(g: Locked, g': Locked)
    requires g.Valid() && g'.Valid()
  {
    && g.targets == g'.targets && |g.manifests| == |g'.manifests|
    && forall n :: 0 <= n < |g.manifests| ==> SameManifestButHostLines(g, g', n)
  }

  ghost predicate SameManifestButHostLines(g: Locked, g': Locked, n: nat)
    requires g.Valid() && g'.Valid() && n < |g.manifests| && n < |g'.manifests| && g.targets == g'.targets
  {
    var m, m' := g.manifests[n], g'.manifests[n];
    && m' == m.(dependencies := m'.dependencies)
    && |m.dependencies| == |m'.dependencies|
    && forall p :: 0 <= p < |m.dependencies| ==>
         && SameButAsked(m.dependencies[p], m'.dependencies[p])
         && (HostLine(g, n, p) || m.dependencies[p] == m'.dependencies[p])
  }

  /** Two locked graphs that differ at most in what host lines ask for. */
  ghost predicate Pair(g: Locked, g': Locked) {
    g.Valid() && g'.Valid() && SameButHostLines(g, g')
  }

  /** The states of both graphs before a call about the target unit `u`. */
  ghost predicate Before(g: Locked, g': Locked, w: Units, w': Units, u: Unit) {
    && Pair(g, g') && ValidUnits(g, w) && ValidUnits(g', w') && SameTargets(w, w')
    && g.Has(u) && g'.Has(u) && !u.host
  }

  /** When both calls succeed, the target sides stay the same. */
  ghost predicate After(r: Outcome, r': Outcome) {
    r.error.None? && r'.error.None? ==> SameTargets(r.units, r'.units)
  }

  lemma SameManifest(g: Locked, g': Locked, u: Unit)
    requires Pair(g, g') && g.Has(u)
    ensures g'.Has(u) && g.Of(u).features == g'.Of(u).features && |g.Of(u).dependencies| == |g'.Of(u).dependencies|
    ensures g.Of(u).ProcMacro() == g'.Of(u).ProcMacro()
    ensures forall a :: g.Of(u).Implicit(a) == g'.Of(u).Implicit(a)
    ensures forall p: nat :: p < |g.Of(u).dependencies| ==>
      SameButAsked(g.Of(u).dependencies[p], g'.Of(u).dependencies[p]) && g.Used(u, p) == g'.Used(u, p)
  {
    assert SameManifestButHostLines(g, g', u.node);
    forall p: nat | p < |g.Of(u).dependencies|
      ensures SameButAsked(g.Of(u).dependencies[p], g'.Of(u).dependencies[p]) && g.Used(u, p) == g'.Used(u, p)
    {
    }
  }

  lemma {:induction false} SameLinesFrom(g: Locked, g': Locked, u: Unit, alias: string, p: nat)
    requires Pair(g, g') && g.Has(u) && g'.Has(u) && p <= |g.Of(u).dependencies| == |g'.Of(u).dependencies|
    ensures g.LinesFrom(u, alias, p) == g'.LinesFrom(u, alias, p)
    decreases |g.Of(u).dependencies| - p
  {
    SameManifest(g, g', u);
    if p < |g.Of(u).dependencies| {
      assert SameButAsked(g.Of(u).dependencies[p], g'.Of(u).dependencies[p]);
      SameLinesFrom(g, g', u, alias, p + 1);
    }
  }

  lemma SameTargetsOver(w: Units, w': Units, v: Units, v': Units)
    requires SameTargets(w, w') && SameTargets(w, v) && SameTargets(w', v')
    ensures SameTargets(v, v')
  {
  }

  // ---------------------------------------------------------- the nine steps

  lemma {:induction false} EnsureAlike(g: Locked, g': Locked, w: Units, w': Units, u: Unit)
    requires Before(g, g', w, w', u)
    ensures After(Ensure(g, w, u), Ensure(g', w', u))
    decreases Missing(g, w), 0, 0
  {
    if u !in w {
      MissingUnit(g, w, u);
      EnsureFromAlike(g, g', w[u := NEW], w'[u := NEW], u, 0);
    }
  }

  lemma {:induction false} EnsureFromAlike(g: Locked, g': Locked, w: Units, w': Units, u: Unit, p: nat)
    requires Before(g, g', w, w', u) && u in w && p <= |g.Of(u).dependencies| == |g'.Of(u).dependencies|
    ensures After(EnsureFrom(g, w, u, p), EnsureFrom(g', w', u, p))
    decreases Missing(g, w), 4, |g.Of(u).dependencies| - p, 1
  {
    SameManifest(g, g', u);
    if p < |g.Of(u).dependencies| {
      assert SameButAsked(g.Of(u).dependencies[p], g'.Of(u).dependencies[p]);
      if g.Of(u).dependencies[p].optional || !g.Used(u, p) {
        EnsureFromAlike(g, g', w, w', u, p + 1);
      } else {
        NeededLineAlike(g, g', w, w', u, p);
      }
    }
  }

  lemma {:induction false} NeededLineAlike(g: Locked, g': Locked, w: Units, w': Units, u: Unit, p: nat)
    requires Before(g, g', w, w', u) && u in w && p < |g.Of(u).dependencies| == |g'.Of(u).dependencies|
    requires !g.Of(u).dependencies[p].optional && g.Used(u, p) && !g'.Of(u).dependencies[p].optional && g'.Used(u, p)
    ensures After(EnsureFrom(g, w, u, p), EnsureFrom(g', w', u, p))
    decreases Missing(g, w), 4, |g.Of(u).dependencies| - p, 0
  {
    EnableLineAlike(g, g', w, w', u, p, None);
    var r, r' := EnableLine(g, w, u, p, None), EnableLine(g', w', u, p, None);
    if r.error.None? && r'.error.None? {
      MissingShrinks(g, w, r.units);
      EnsureFromAlike(g, g', r.units, r'.units, u, p + 1);
    }
  }

  ghost function AskedAt(g: Locked, u: Unit, p: nat, extra: Option<string>): seq<string>
    requires g.Valid() && g.Has(u) && p < |g.Of(u).dependencies| && g.targets[u.node][p].Some?
  {
    AskedOf(g, g.Of(u).dependencies[p], g.targets[u.node][p].value, extra)
  }

  lemma SameLine(g: Locked, g': Locked, u: Unit, p: nat, extra: Option<string>)
    requires Pair(g, g') && g.Has(u) && g'.Has(u) && p < |g.Of(u).dependencies| == |g'.Of(u).dependencies|
    requires g.targets[u.node][p].Some?
    ensures EdgeAt(g, u, p) == EdgeAt(g', u, p)
    ensures g.Has(EdgeAt(g, u, p).to) && g'.Has(EdgeAt(g, u, p).to)
    ensures !EdgeAt(g, u, p).to.host ==> AskedAt(g, u, p, extra) == AskedAt(g', u, p, extra)
  {
    SameManifest(g, g', u);
    assert SameButAsked(g.Of(u).dependencies[p], g'.Of(u).dependencies[p]);
    SameManifest(g, g', Unit(g.targets[u.node][p].value, false));
    if !EdgeAt(g, u, p).to.host {
      assert SameManifestButHostLines(g, g', u.node);
      assert !HostLine(g, u.node, p);
    }
  }

  lemma {:induction false} EnableLineAlike(g: Locked, g': Locked, w: Units, w': Units, u: Unit, p: nat, extra: Option<string>)
    requires Before(g, g', w, w', u) && u in w && p < |g.Of(u).dependencies| == |g'.Of(u).dependencies|
    ensures After(EnableLine(g, w, u, p, extra), EnableLine(g', w', u, p, extra))
    decreases Missing(g, w), 3, 2
  {
    if g.targets[u.node][p].Some? {
      SameLine(g, g', u, p, extra);
      var to := EdgeAt(g, u, p).to;
      EndAlike(g, g', w, w', to);
      var r1, r1' := Ensure(g, w, to), Ensure(g', w', to);
      if r1.error.None? && r1'.error.None? {
        MissingShrinks(g, w, r1.units);
        MadeLineAlike(g, g', r1.units, r1'.units, u, p, extra);
      }
    }
  }

  lemma {:induction false} MadeLineAlike(g: Locked, g': Locked, w: Units, w': Units, u: Unit, p: nat, extra: Option<string>)
    requires Before(g, g', w, w', u) && u in w && p < |g.Of(u).dependencies| == |g'.Of(u).dependencies|
    requires g.targets[u.node][p].Some? && EdgeAt(g, u, p) == EdgeAt(g', u, p) && EdgeAt(g, u, p).to in w && EdgeAt(g, u, p).to in w'
    ensures After(Ask(g, Features.Linked(w, u, EdgeAt(g, u, p)), u, p, extra),
                  Ask(g', Features.Linked(w', u, EdgeAt(g, u, p)), u, p, extra))
    decreases Missing(g, w), 3, 1
  {
    var w2, w2' := Features.Linked(w, u, EdgeAt(g, u, p)), Features.Linked(w', u, EdgeAt(g, u, p));
    assert SameTargets(w2, w2');
    LinkedIsValid(g, w, u, EdgeAt(g, u, p));
    LinkedIsValid(g', w', u, EdgeAt(g, u, p));
    MissingShrinks(g, w, w2);
    AskAlike(g, g', w2, w2', u, p, extra);
  }

  /** Making the end of a line, for either side. */
  lemma {:induction false} EndAlike(g: Locked, g': Locked, w: Units, w': Units, to: Unit)
    requires Pair(g, g') && ValidUnits(g, w) && ValidUnits(g', w') && SameTargets(w, w') && g.Has(to) && g'.Has(to)
    ensures After(Ensure(g, w, to), Ensure(g', w', to))
    decreases Missing(g, w), 0, 1
  {
    if to.host {
      EnsureLocal(g, w, to);
      EnsureLocal(g', w', to);
      SameTargetsOver(w, w', Ensure(g, w, to).units, Ensure(g', w', to).units);
    } else {
      EnsureAlike(g, g', w, w', to);
    }
  }

  lemma {:induction false} AskAlike(g: Locked, g': Locked, w: Units, w': Units, u: Unit, p: nat, extra: Option<string>)
    requires Before(g, g', w, w', u) && u in w && p < |g.Of(u).dependencies| == |g'.Of(u).dependencies|
    requires g.targets[u.node][p].Some?
    ensures After(Ask(g, w, u, p, extra), Ask(g', w', u, p, extra))
    decreases Missing(g, w), 3, 0
  {
    SameLine(g, g', u, p, extra);
    var to, alias := EdgeAt(g, u, p).to, EdgeAt(g, u, p).alias;
    var asked, asked' := AskedAt(g, u, p, extra), AskedAt(g', u, p, extra);
    EndsActivateAlike(g, g', w, w', to, asked, asked');
    var r1, r1' := ActivateAll(g, w, to, asked), ActivateAll(g', w', to, asked');
    if r1.error.None? && r1'.error.None? {
      MissingShrinks(g, w, r1.units);
      ReleaseAlike(g, g', r1.units, r1'.units, u, alias, to);
    }
  }

  /** Applying the requests that waited. */
  lemma {:induction false} ReleaseAlike(g: Locked, g': Locked, w: Units, w': Units, u: Unit, alias: string, to: Unit)
    requires Before(g, g', w, w', u) && u in w && g.Has(to) && g'.Has(to)
    ensures After(ActivateAll(g, Drained(w, u, alias), to, Released(w[u].weak, alias)),
                  ActivateAll(g', Drained(w', u, alias), to, Released(w'[u].weak, alias)))
    decreases Missing(g, w), 2, |Released(w[u].weak, alias)| + 2
  {
    var v, v' := Drained(w, u, alias), Drained(w', u, alias);
    assert SameTargets(v, v');
    MissingShrinks(g, w, v);
    EndsActivateAlike(g, g', v, v', to, Released(w[u].weak, alias), Released(w'[u].weak, alias));
  }

  /** Activating at the end of a line: the same for the target, whatever for
      the host. */
  lemma {:induction false} EndsActivateAlike(g: Locked, g': Locked, w: Units, w': Units, to: Unit,
                                             features: seq<string>, features': seq<string>)
    requires Pair(g, g') && ValidUnits(g, w) && ValidUnits(g', w') && SameTargets(w, w') && g.Has(to) && g'.Has(to)
    requires !to.host ==> features == features'
    ensures After(ActivateAll(g, w, to, features), ActivateAll(g', w', to, features'))
    decreases Missing(g, w), 2, |features| + 1
  {
    if to.host {
      ActivateAllLocal(g, w, to, features);
      ActivateAllLocal(g', w', to, features');
      SameTargetsOver(w, w', ActivateAll(g, w, to, features).units, ActivateAll(g', w', to, features').units);
    } else {
      ActivateAllAlike(g, g', w, w', to, features);
    }
  }

  lemma {:induction false} ActivateAllAlike(g: Locked, g': Locked, w: Units, w': Units, u: Unit, features: seq<string>)
    requires Before(g, g', w, w', u)
    ensures After(ActivateAll(g, w, u, features), ActivateAll(g', w', u, features))
    decreases Missing(g, w), 2, |features|
  {
    if features != [] {
      ActivateAlike(g, g', w, w', u, features[0]);
      var r, r' := Activate(g, w, u, features[0]), Activate(g', w', u, features[0]);
      if r.error.None? && r'.error.None? {
        MissingShrinks(g, w, r.units);
        ActivateAllAlike(g, g', r.units, r'.units, u, features[1..]);
      }
    }
  }

  lemma {:induction false} ActivateAlike(g: Locked, g': Locked, w: Units, w': Units, u: Unit, feature: string)
    requires Before(g, g', w, w', u)
    ensures After(Activate(g, w, u, feature), Activate(g', w', u, feature))
    decreases Missing(g, w), 1, 1
  {
    EnsureAlike(g, g', w, w', u);
    SameManifest(g, g', u);
    var r1, r1' := Ensure(g, w, u), Ensure(g', w', u);
    if r1.error.None? && r1'.error.None? && feature !in r1.units[u].features {
      MissingShrinks(g, w, r1.units);
      if feature in g.Of(u).features || g.Of(u).Implicit(feature) {
        FeatureAlike(g, g', r1.units, r1'.units, u, feature);
      }
    }
  }

  /** Adding a feature and doing what it means. */
  lemma {:induction false} FeatureAlike(g: Locked, g': Locked, w: Units, w': Units, u: Unit, feature: string)
    requires Before(g, g', w, w', u) && u in w && feature !in w[u].features && g.Of(u).features == g'.Of(u).features
    requires feature in g.Of(u).features || g.Of(u).Implicit(feature)
    ensures var v, v' := WithFeature(w, u, feature), WithFeature(w', u, feature);
      if feature in g.Of(u).features then
        After(RunEntries(g, v, u, g.Of(u).features[feature]), RunEntries(g', v', u, g'.Of(u).features[feature]))
      else
        After(EnableLines(g, v, u, g.Lines(u, feature), None), EnableLines(g', v', u, g'.Lines(u, feature), None))
    decreases Missing(g, w), 1, 0
  {
    var v, v' := WithFeature(w, u, feature), WithFeature(w', u, feature);
    assert SameTargets(v, v');
    MissingFeature(g, w, u, feature);
    if feature in g.Of(u).features {
      RunEntriesAlike(g, g', v, v', u, g.Of(u).features[feature]);
    } else {
      LinesAlike(g, g', v, v', u, feature, None);
    }
  }

  lemma {:induction false} RunEntriesAlike(g: Locked, g': Locked, w: Units, w': Units, u: Unit, entries: seq<string>)
    requires Before(g, g', w, w', u) && u in w
    ensures After(RunEntries(g, w, u, entries), RunEntries(g', w', u, entries))
    decreases Missing(g, w), 6, |entries|
  {
    if entries != [] {
      var entry := Classify(entries[0]);
      RunEntryAlike(g, g', w, w', u, entry);
      var r, r' := RunEntry(g, w, u, entry), RunEntry(g', w', u, entry);
      if r.error.None? && r'.error.None? {
        MissingShrinks(g, w, r.units);
        RunEntriesAlike(g, g', r.units, r'.units, u, entries[1..]);
      }
    }
  }

  lemma {:induction false} RunEntryAlike(g: Locked, g': Locked, w: Units, w': Units, u: Unit, entry: Entry)
    requires Before(g, g', w, w', u) && u in w
    ensures After(RunEntry(g, w, u, entry), RunEntry(g', w', u, entry))
    decreases Missing(g, w), 5, 0
  {
    SameManifest(g, g', u);
    match entry
    case Dep(alias) => LinesAlike(g, g', w, w', u, alias, None);
    case Plain(name) => ActivateAlike(g, g', w, w', u, name);
    case Sub(alias, sub, weak) =>
      assert Enabled(w, u, alias) == Enabled(w', u, alias);
      if !weak || Enabled(w, u, alias) {
        var implicit := !weak && g.Of(u).Implicit(alias);
        var w1 := if implicit then WithFeature(w, u, alias) else w;
        var w1' := if implicit then WithFeature(w', u, alias) else w';
        assert SameTargets(w1, w1');
        MissingShrinks(g, w, w1);
        LinesAlike(g, g', w1, w1', u, alias, Some(sub));
      }
  }

  lemma {:induction false} LinesAlike(g: Locked, g': Locked, w: Units, w': Units, u: Unit, alias: string, extra: Option<string>)
    requires Before(g, g', w, w', u) && u in w
    ensures After(EnableLines(g, w, u, g.Lines(u, alias), extra), EnableLines(g', w', u, g'.Lines(u, alias), extra))
    decreases Missing(g, w), 4, |g.Lines(u, alias)| + 1
  {
    SameManifest(g, g', u);
    SameLinesFrom(g, g', u, alias, 0);
    EnableLinesAlike(g, g', w, w', u, g.Lines(u, alias), extra);
  }

  lemma {:induction false} EnableLinesAlike(g: Locked, g': Locked, w: Units, w': Units, u: Unit, lines: seq<nat>,
                                            extra: Option<string>)
    requires Before(g, g', w, w', u) && u in w && |g.Of(u).dependencies| == |g'.Of(u).dependencies|
    requires forall p :: p in lines ==> p < |g.Of(u).dependencies|
    ensures After(EnableLines(g, w, u, lines, extra), EnableLines(g', w', u, lines, extra))
    decreases Missing(g, w), 4, |lines|
  {
    if lines != [] {
      assert lines[0] in lines && forall p :: p in lines[1..] ==> p in lines;
      EnableLineAlike(g, g', w, w', u, lines[0], extra);
      var r, r' := EnableLine(g, w, u, lines[0], extra), EnableLine(g', w', u, lines[0], extra);
      if r.error.None? && r'.error.None? {
        MissingShrinks(g, w, r.units);
        EnableLinesAlike(g, g', r.units, r'.units, u, lines[1..], extra);
      }
    }
  }

  // ------------------------------------------------------------ whole runs

  /** Noninterference: two graphs that differ in what host lines ask for give the
      same target units, with
      the same features, the same edges and the same waiting requests. */
  lemma HostFeaturesStayOnTheHost(g: Locked, g': Locked, asked: seq<string>)
    requires g.Valid() && g'.Valid() && SameButHostLines(g, g')
    requires Resolve(g, asked).error.None? && Resolve(g', asked).error.None?
    ensures SameTargets(Resolve(g, asked).units, Resolve(g', asked).units)
  {
    var empty: Units := map[];
    EnsureAlike(g, g', empty, empty, ROOT);
    ActivateAllAlike(g, g', Ensure(g, empty, ROOT).units, Ensure(g', empty, ROOT).units, ROOT, asked);
  }
}
