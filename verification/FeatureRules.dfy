/** What a manifest's features mean, said without an order: the rules of the
    Cargo Book, chapters "Features" and "Dependency Resolution" (resolver 2),
    over the facts a resolution records. */
module FeatureRules {
  import opened Common
  import opened Manifests
  import opened Features

  datatype Fact =
    | Present(unit: Unit)
    | Linked(unit: Unit, edge: Edge)
    | Active(unit: Unit, feature: string)

  /** A line that applies: its kind is used and it is a locked package. */
  ghost predicate Live(g: Locked, u: Unit, p: nat) {
    && g.Has(u) && u.node < |g.targets| && p < |g.Of(u).dependencies| && p < |g.targets[u.node]|
    && g.Used(u, p)
    && g.targets[u.node][p].Some? && g.targets[u.node][p].value < |g.manifests|
  }

  ghost predicate LiveAs(g: Locked, u: Unit, alias: string, p: nat) {
    Live(g, u, p) && g.Of(u).dependencies[p].alias == alias
  }

  ghost function To(g: Locked, u: Unit, p: nat): Unit
    requires Live(g, u, p)
  {
    g.Reached(u, g.Of(u).dependencies[p], g.targets[u.node][p].value)
  }

  ghost function EdgeOf(g: Locked, u: Unit, p: nat): Edge
    requires Live(g, u, p)
  {
    Edge(g.Of(u).dependencies[p].alias, g.Of(u).dependencies[p].kind, To(g, u, p))
  }

  /** Everything an enabled line asks for. */
  ghost predicate LineIn(g: Locked, S: iset<Fact>, u: Unit, p: nat)
    requires Live(g, u, p)
  {
    var dependency := g.Of(u).dependencies[p];
    var to := To(g, u, p);
    && Present(to) in S
    && Linked(u, EdgeOf(g, u, p)) in S
    && (dependency.defaultFeatures && "default" in g.Of(to).features ==> Active(to, "default") in S)
    && (forall f :: f in dependency.features ==> Active(to, f) in S)
  }

  ghost predicate LinesIn(g: Locked, S: iset<Fact>, u: Unit, alias: string) {
    forall p :: LiveAs(g, u, alias, p) ==> LineIn(g, S, u, p)
  }

  ghost predicate SubIn(g: Locked, S: iset<Fact>, u: Unit, alias: string, feature: string) {
    forall p :: LiveAs(g, u, alias, p) ==> Active(To(g, u, p), feature) in S
  }

  /** `x?/f`: only for a dependency enabled some other way. */
  ghost predicate WeakIn(g: Locked, S: iset<Fact>, u: Unit, alias: string, feature: string) {
    forall p :: LiveAs(g, u, alias, p) && Linked(u, EdgeOf(g, u, p)) in S ==> Active(To(g, u, p), feature) in S
  }

  ghost predicate EntryIn(g: Locked, S: iset<Fact>, u: Unit, entry: Entry)
    requires g.Has(u)
  {
    match entry
    case Dep(alias) => LinesIn(g, S, u, alias)
    case Plain(name) => Active(u, name) in S
    case Sub(alias, feature, weak) =>
      if weak then WeakIn(g, S, u, alias, feature)
      else
        && (g.Of(u).Implicit(alias) ==> Active(u, alias) in S)
        && LinesIn(g, S, u, alias)
        && SubIn(g, S, u, alias, feature)
  }

  ghost predicate UnitIn(g: Locked, S: iset<Fact>, u: Unit)
    requires g.Has(u)
  {
    forall p: nat :: Live(g, u, p) && !g.Of(u).dependencies[p].optional ==> LineIn(g, S, u, p)
  }

  ghost predicate FeatureIn(g: Locked, S: iset<Fact>, u: Unit, feature: string)
    requires g.Has(u)
  {
    var m := g.Of(u);
    && Present(u) in S
    && (feature in m.features ==>
          forall i :: 0 <= i < |m.features[feature]| ==> EntryIn(g, S, u, Classify(m.features[feature][i])))
    && (feature !in m.features && m.Implicit(feature) ==> LinesIn(g, S, u, feature))
  }

  /** Every rule is obeyed. */
  ghost predicate Closed(g: Locked, S: iset<Fact>) {
    && (forall u :: Present(u) in S && g.Has(u) ==> UnitIn(g, S, u))
    && (forall u, f :: Active(u, f) in S && g.Has(u) ==> FeatureIn(g, S, u, f))
  }

  ghost predicate ClosedOver(g: Locked, seeds: iset<Fact>, S: iset<Fact>) {
    Closed(g, S) && seeds <= S
  }

  ghost predicate Necessary(g: Locked, seeds: iset<Fact>, x: Fact) {
    forall S :: ClosedOver(g, seeds, S) ==> x in S
  }

  /** The facts every rule-obeying set holds: the least fixed point. */
  ghost function Forced(g: Locked, seeds: iset<Fact>): iset<Fact> {
    iset x | Necessary(g, seeds, x)
  }

  /** What a build asks for. */
  ghost function Seeds(asked: iset<string>): (seeds: iset<Fact>)
  {
    iset x: Fact | x == Present(ROOT) || (x.Active? && x.unit == ROOT && x.feature in asked)
  }

  /** A feature its package does not have. */
  ghost predicate Unknown(g: Locked, x: Fact) {
    x.Active? && g.Has(x.unit) && x.feature !in g.Of(x.unit).features && !g.Of(x.unit).Implicit(x.feature)
  }

  // ------------------------------------------------- the least fixed point

  lemma ForcedIsLeast(g: Locked, seeds: iset<Fact>, S: iset<Fact>)
    requires ClosedOver(g, seeds, S)
    ensures Forced(g, seeds) <= S
  {
  }

  lemma LineInGrows(g: Locked, S: iset<Fact>, T: iset<Fact>, u: Unit, p: nat)
    requires S <= T && Live(g, u, p) && LineIn(g, S, u, p)
    ensures LineIn(g, T, u, p)
  {
  }

  lemma EntryInForced(g: Locked, seeds: iset<Fact>, u: Unit, entry: Entry)
    requires g.Has(u)
    requires forall S :: ClosedOver(g, seeds, S) ==> EntryIn(g, S, u, entry)
    ensures EntryIn(g, Forced(g, seeds), u, entry)
  {
    var F := Forced(g, seeds);
    match entry {
      case Dep(alias) => LinesInForced(g, seeds, u, alias);
      case Plain(_) =>
      case Sub(alias, feature, weak) =>
        if weak {
          forall p | LiveAs(g, u, alias, p) && Linked(u, EdgeOf(g, u, p)) in F
            ensures Active(To(g, u, p), feature) in F
          {
            forall S | ClosedOver(g, seeds, S) ensures Active(To(g, u, p), feature) in S {
              assert WeakIn(g, S, u, alias, feature);
            }
          }
        } else {
          LinesInForced(g, seeds, u, alias);
          forall p | LiveAs(g, u, alias, p) ensures Active(To(g, u, p), feature) in F {
            forall S | ClosedOver(g, seeds, S) ensures Active(To(g, u, p), feature) in S {
              assert SubIn(g, S, u, alias, feature);
            }
          }
        }
    }
  }

  lemma LineInForced(g: Locked, seeds: iset<Fact>, u: Unit, p: nat)
    requires Live(g, u, p)
    requires forall S :: ClosedOver(g, seeds, S) ==> LineIn(g, S, u, p)
    ensures LineIn(g, Forced(g, seeds), u, p)
  {
  }

  lemma LinesInForced(g: Locked, seeds: iset<Fact>, u: Unit, alias: string)
    requires forall S :: ClosedOver(g, seeds, S) ==> LinesIn(g, S, u, alias)
    ensures LinesIn(g, Forced(g, seeds), u, alias)
  {
    forall p | LiveAs(g, u, alias, p) ensures LineIn(g, Forced(g, seeds), u, p) {
      forall S | ClosedOver(g, seeds, S) ensures LineIn(g, S, u, p) {
        assert LinesIn(g, S, u, alias);
      }
      LineInForced(g, seeds, u, p);
    }
  }

  /** The rules never conflict: what is forced obeys them. */
  lemma ForcedIsClosed(g: Locked, seeds: iset<Fact>)
    ensures ClosedOver(g, seeds, Forced(g, seeds))
  {
    var F := Forced(g, seeds);
    forall u | Present(u) in F && g.Has(u) ensures UnitIn(g, F, u) {
      forall p: nat | Live(g, u, p) && !g.Of(u).dependencies[p].optional ensures LineIn(g, F, u, p) {
        forall S | ClosedOver(g, seeds, S) ensures LineIn(g, S, u, p) {
          assert UnitIn(g, S, u);
        }
        LineInForced(g, seeds, u, p);
      }
    }
    forall u, f | Active(u, f) in F && g.Has(u) ensures FeatureIn(g, F, u, f) {
      ForcedFeature(g, seeds, u, f);
    }
  }

  lemma ForcedFeature(g: Locked, seeds: iset<Fact>, u: Unit, f: string)
    requires Active(u, f) in Forced(g, seeds) && g.Has(u)
    ensures FeatureIn(g, Forced(g, seeds), u, f)
  {
    var m := g.Of(u);
    forall S | ClosedOver(g, seeds, S) ensures FeatureIn(g, S, u, f) {
      assert Active(u, f) in S;
    }
    if f in m.features {
      forall i | 0 <= i < |m.features[f]|
        ensures EntryIn(g, Forced(g, seeds), u, Classify(m.features[f][i]))
      {
        EntryInForced(g, seeds, u, Classify(m.features[f][i]));
      }
    } else if m.Implicit(f) {
      LinesInForced(g, seeds, u, f);
    }
  }

  // -------------------------------------------------------- where the code
  //                                                  follows these rules

  /** Some active feature of `u` asks `alias?/feature`. */
  ghost predicate WeakEntry(m: Manifest, f: string, alias: string, feature: string) {
    f in m.features && exists i :: 0 <= i < |m.features[f]| && Classify(m.features[f][i]) == Sub(alias, feature, true)
  }

  ghost predicate StrongEntry(m: Manifest, f: string, alias: string, feature: string) {
    f in m.features && exists i :: 0 <= i < |m.features[f]| && Classify(m.features[f][i]) == Sub(alias, feature, false)
  }

  /** The two conditions under which the order of a resolution is invisible,
      on the facts of `S` alone: when an active weak entry names an alias that
      is enabled, every line of that alias is enabled and is the same unit, and
      the `x` of an active `x/f` that is an implicit feature is in no feature
      table as `x`. */
  ghost predicate Regular(g: Locked, S: iset<Fact>) {
    && (forall u, f, a, s, p, q :: g.Has(u) && Active(u, f) in S && WeakEntry(g.Of(u), f, a, s) ==>
          (LiveAs(g, u, a, p) && LiveAs(g, u, a, q) && Linked(u, EdgeOf(g, u, p)) in S ==>
             LineIn(g, S, u, q) && To(g, u, p) == To(g, u, q)))
    && (forall u, f, a, s :: g.Has(u) && Active(u, f) in S && StrongEntry(g.Of(u), f, a, s) && g.Of(u).Implicit(a) ==>
          a !in g.Of(u).features)
  }

  /** Of every feature of every package, which asks for no facts: an alias a
      weak entry names has one line. */
  ghost predicate RegularTables(g: Locked) {
    && (forall u, f, a, s, p, q :: g.Has(u) && WeakEntry(g.Of(u), f, a, s) && LiveAs(g, u, a, p) && LiveAs(g, u, a, q) ==> p == q)
    && (forall u, f, a, s :: g.Has(u) && StrongEntry(g.Of(u), f, a, s) && g.Of(u).Implicit(a) ==> a !in g.Of(u).features)
  }

  ghost predicate Asks(g: Locked, S: iset<Fact>, u: Unit, alias: string, feature: string) {
    g.Has(u) && exists f :: Active(u, f) in S && WeakEntry(g.Of(u), f, alias, feature)
  }

  /** Each edge stands for a line everything of which is there. */
  ghost predicate Grounded(g: Locked, S: iset<Fact>, x: Fact) {
    && g.Has(x.unit)
    && (x.Linked? ==> exists p :: Live(g, x.unit, p) && x.edge == EdgeOf(g, x.unit, p) && LineIn(g, S, x.unit, p))
  }

  /** No edge is forced but by a line, and no unit but of a locked package. */
  lemma ForcedIsGrounded(g: Locked, asked: iset<string>)
    requires g.Valid()
    ensures forall x :: x in Forced(g, Seeds(asked)) ==> Grounded(g, Forced(g, Seeds(asked)), x)
  {
    var seeds := Seeds(asked);
    var F := Forced(g, seeds);
    ForcedIsClosed(g, seeds);
    var T := iset x | x in F && Grounded(g, F, x);
    forall u, p | Live(g, u, p) && LineIn(g, F, u, p)
      ensures LineIn(g, T, u, p)
    {
      assert Grounded(g, F, Linked(u, EdgeOf(g, u, p)));
    }
    forall u | Present(u) in T && g.Has(u) ensures UnitIn(g, T, u) {
      assert UnitIn(g, F, u);
    }
    forall u, f | Active(u, f) in T && g.Has(u) ensures FeatureIn(g, T, u, f) {
      assert FeatureIn(g, F, u, f);
      var m := g.Of(u);
      if f in m.features {
        forall i | 0 <= i < |m.features[f]| ensures EntryIn(g, T, u, Classify(m.features[f][i])) {
          assert EntryIn(g, F, u, Classify(m.features[f][i]));
        }
      }
    }
    assert ClosedOver(g, seeds, T);
    ForcedIsLeast(g, seeds, T);
  }

  lemma RegularTablesAreRegular(g: Locked, asked: iset<string>)
    requires g.Valid() && RegularTables(g)
    ensures Regular(g, Forced(g, Seeds(asked)))
  {
    var F := Forced(g, Seeds(asked));
    ForcedIsGrounded(g, asked);
    forall u, f, a, s, p, q | g.Has(u) && Active(u, f) in F && WeakEntry(g.Of(u), f, a, s)
                              && LiveAs(g, u, a, p) && LiveAs(g, u, a, q) && Linked(u, EdgeOf(g, u, p)) in F
      ensures LineIn(g, F, u, q) && To(g, u, p) == To(g, u, q)
    {
      assert Grounded(g, F, Linked(u, EdgeOf(g, u, p)));
      var l :| Live(g, u, l) && EdgeOf(g, u, p) == EdgeOf(g, u, l) && LineIn(g, F, u, l);
      assert LiveAs(g, u, a, l);
    }
  }
}
