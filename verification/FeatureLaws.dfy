/** What a resolution means for its caller. */
module FeatureLaws {
  import opened Common
  import opened Manifests
  import opened Features
  import opened FeatureRules
  import opened FeatureProof

  ghost function Names(asked: seq<string>): iset<string> {
    iset f | f in asked
  }

  ghost function ForcedBy(g: Locked, asked: seq<string>): iset<Fact> {
    Forced(g, Seeds(Names(asked)))
  }

  /** The resolver fails exactly when the rules force a feature its package
      does not have, and else records exactly the least fixed point of the
      rules; no weak request is left for a dependency that is enabled. */
  lemma ResolutionIsLeast(g: Locked, asked: seq<string>)
    requires g.Valid() && Regular(g, ForcedBy(g, asked))
    ensures var r := Resolve(g, asked); var F := ForcedBy(g, asked);
      && ValidUnits(g, r.units)
      && (r.error.None? <==> forall x :: x in F ==> !Unknown(g, x))
      && (r.error.Some? ==> var x := Active(r.error.value.unit, r.error.value.feature); x in F && Unknown(g, x))
      && (r.error.None? ==>
            && Facts(r.units) == F
            && forall u, a, s :: Waiting(r.units, u, a, s) ==> !Enabled(r.units, u, a))
  {
    var F := ForcedBy(g, asked);
    var r := Resolve(g, asked);
    ForcedIsClosed(g, Seeds(Names(asked)));
    ForcedIsUpper(g, Names(asked));
    ResolveStaysWithin(g, asked, F);
    if r.error.None? {
      NothingWaits(g, r.units);
      SettledIsClosed(g, r.units, asked);
    }
  }

  /** No resolution leaves a regular set that no step leaves. */
  lemma ResolveStaysWithin(g: Locked, asked: seq<string>, S: iset<Fact>)
    requires g.Valid() && Regular(g, S) && Upper(g, S) && Seeds(Names(asked)) <= S
    ensures var r := Resolve(g, asked);
      && Faithful(g, map[], r, S)
      && (r.error.None? ==> ROOT in r.units && forall f :: f in asked ==> Holds(r.units, Active(ROOT, f)))
  {
    var empty: Units := map[];
    assert Present(ROOT) in Seeds(Names(asked));
    EnsureFaithful(g, empty, ROOT, S);
    var r1 := Ensure(g, empty, ROOT);
    if r1.error.None? {
      forall f | f in asked ensures Active(ROOT, f) in S {
        assert Active(ROOT, f) in Seeds(Names(asked));
      }
      ActivateAllFaithful(g, r1.units, ROOT, asked, S);
      var r := Resolve(g, asked);
      if r.error.None? {
        GrowsTransitive(empty, r1.units, r.units);
        Sequence(g, empty, r1.units, r.units);
      }
    }
  }

  lemma NothingWaits(g: Locked, w: Units)
    requires Settled(g, map[], w, iset{})
    ensures forall u, a, s :: Waiting(w, u, a, s) ==> !Enabled(w, u, a)
  {
  }

  lemma SettledIsClosed(g: Locked, w: Units, asked: seq<string>)
    requires g.Valid() && Regular(g, ForcedBy(g, asked)) && ValidUnits(g, w)
    requires Settled(g, map[], w, iset{}) && Sound(g, w, ForcedBy(g, asked))
    requires ROOT in w && forall f :: f in asked ==> Holds(w, Active(ROOT, f))
    ensures Facts(w) == ForcedBy(g, asked)
    ensures forall x :: x in ForcedBy(g, asked) ==> !Unknown(g, x)
  {
    var W := Facts(w);
    forall x | x in W ensures Processed(g, w, x) {
      assert Holds(w, x) && !Holds(map[], x);
    }
    forall u | Present(u) in W && g.Has(u) ensures UnitIn(g, W, u) {
      assert Processed(g, w, Present(u));
    }
    forall u, f | Active(u, f) in W && g.Has(u) ensures FeatureIn(g, W, u, f) {
      assert Processed(g, w, Active(u, f));
      var m := g.Of(u);
      if f in m.features {
        forall i | 0 <= i < |m.features[f]| ensures EntryIn(g, W, u, Classify(m.features[f][i])) {
          RanEntryIsIn(g, w, asked, u, f, i);
        }
      }
    }
    assert ClosedOver(g, Seeds(Names(asked)), W);
    ForcedIsLeast(g, Seeds(Names(asked)), W);
    forall x | x in ForcedBy(g, asked) ensures !Unknown(g, x) {
      assert Processed(g, w, x);
    }
  }

  lemma RanEntryIsIn(g: Locked, w: Units, asked: seq<string>, u: Unit, f: string, i: nat)
    requires g.Valid() && Regular(g, ForcedBy(g, asked)) && g.Has(u) && Holds(w, Active(u, f))
    requires Settled(g, map[], w, iset{}) && Sound(g, w, ForcedBy(g, asked))
    requires f in g.Of(u).features && i < |g.Of(u).features[f]|
    requires EntryRan(g, w, u, Classify(g.Of(u).features[f][i]))
    ensures EntryIn(g, Facts(w), u, Classify(g.Of(u).features[f][i]))
  {
    var entry := Classify(g.Of(u).features[f][i]);
    if entry.Sub? && entry.weak {
      var alias, feature := entry.alias, entry.feature;
      assert WeakEntry(g.Of(u), f, alias, feature);
      NothingWaits(g, w);
      ForcedIsGrounded(g, Names(asked));
      forall p | LiveAs(g, u, alias, p) && Linked(u, EdgeOf(g, u, p)) in Facts(w)
        ensures Active(To(g, u, p), feature) in Facts(w)
      {
        LineServed(g, w, ForcedBy(g, asked), u, f, alias, feature, p);
      }
    }
  }

  /** An enabled line of the alias leads where the request was served. */
  lemma LineServed(g: Locked, w: Units, F: iset<Fact>, u: Unit, f: string, alias: string, feature: string, p: nat)
    requires Regular(g, F) && Facts(w) <= F && (forall x :: x in F ==> Grounded(g, F, x))
    requires Active(u, f) in F && g.Has(u) && WeakEntry(g.Of(u), f, alias, feature)
    requires Waiting(w, u, alias, feature) ==> !Enabled(w, u, alias)
    requires Waiting(w, u, alias, feature) || Served(w, u, alias, feature)
    requires LiveAs(g, u, alias, p) && Linked(u, EdgeOf(g, u, p)) in Facts(w)
    ensures Active(To(g, u, p), feature) in Facts(w)
  {
    var k :| 0 <= k < |w[u].edges| && w[u].edges[k] == EdgeOf(g, u, p);
    assert w[u].edges[k].alias == alias;
    assert Enabled(w, u, alias);
    var e :| e in w[u].edges && e.alias == alias && Holds(w, Active(e.to, feature));
    assert Holds(w, Linked(u, e));
    assert Grounded(g, F, Linked(u, e));
    OneUnitOfItsName(g, F, u, f, feature, e, p);
  }

  /** The edge a weak request was served over leads where the line does. */
  lemma OneUnitOfItsName(g: Locked, F: iset<Fact>, u: Unit, f: string, feature: string, e: Edge, p: nat)
    requires Regular(g, F) && Active(u, f) in F && g.Has(u) && WeakEntry(g.Of(u), f, e.alias, feature)
    requires Linked(u, e) in F && Grounded(g, F, Linked(u, e)) && LiveAs(g, u, e.alias, p) && Linked(u, EdgeOf(g, u, p)) in F
    ensures e.to == To(g, u, p)
  {
    var q :| Live(g, u, q) && e == EdgeOf(g, u, q);
    assert LiveAs(g, u, e.alias, q);
  }

  /** Two resolutions record the same units, features and edges. */
  ghost predicate SameUnits(w: Units, w': Units) {
    && w.Keys == w'.Keys
    && (forall u :: u in w ==> w[u].features == w'[u].features)
    && (forall u, e :: u in w ==> (e in w[u].edges <==> e in w'[u].edges))
  }

  lemma SameFacts(w: Units, w': Units)
    requires Facts(w) == Facts(w')
    ensures SameUnits(w, w')
  {
    forall u ensures u in w <==> u in w' {
      assert Present(u) in Facts(w) <==> u in w;
      assert Present(u) in Facts(w') <==> u in w';
    }
    forall u, f | u in w ensures f in w[u].features <==> f in w'[u].features {
      assert Active(u, f) in Facts(w) <==> f in w[u].features;
      assert Active(u, f) in Facts(w') <==> f in w'[u].features;
    }
    forall u, e | u in w ensures e in w[u].edges <==> e in w'[u].edges {
      assert Linked(u, e) in Facts(w) <==> e in w[u].edges;
      assert Linked(u, e) in Facts(w') <==> e in w'[u].edges;
    }
  }

  /** Neither the result nor failing depends on the order in which features
      are asked for, nor on asking twice. */
  lemma OrderOfAskingIsInvisible(g: Locked, asked: seq<string>, asked': seq<string>)
    requires g.Valid() && Regular(g, ForcedBy(g, asked))
    requires forall f :: f in asked <==> f in asked'
    ensures var r, r' := Resolve(g, asked), Resolve(g, asked');
      && (r.error.None? <==> r'.error.None?)
      && (r.error.None? ==> SameUnits(r.units, r'.units))
  {
    assert Names(asked) == Names(asked');
    ResolutionIsLeast(g, asked);
    ResolutionIsLeast(g, asked');
    if Resolve(g, asked).error.None? {
      SameFacts(Resolve(g, asked).units, Resolve(g, asked').units);
    }
  }

  /** Asking for more never takes anything away. */
  lemma AskingForMoreOnlyAdds(g: Locked, asked: seq<string>, more: seq<string>)
    requires g.Valid() && Regular(g, ForcedBy(g, more))
    requires forall f :: f in asked ==> f in more
    requires Resolve(g, more).error.None?
    ensures Resolve(g, asked).error.None?
    ensures Facts(Resolve(g, asked).units) <= Facts(Resolve(g, more).units)
  {
    var S := ForcedBy(g, more);
    ForcedIsClosed(g, Seeds(Names(more)));
    ForcedIsUpper(g, Names(more));
    assert Seeds(Names(asked)) <= Seeds(Names(more));
    ResolveStaysWithin(g, asked, S);
    ResolutionIsLeast(g, more);
  }

  /** Tables that are regular in every package, which a caller can check before
      a resolution, leave nothing to the order. */
  lemma RegularTablesResolve(g: Locked, asked: seq<string>, asked': seq<string>)
    requires g.Valid() && RegularTables(g) && forall f :: f in asked <==> f in asked'
    ensures var r, r' := Resolve(g, asked), Resolve(g, asked');
      && (r.error.None? <==> r'.error.None?)
      && (r.error.None? ==> Facts(r.units) == ForcedBy(g, asked) && SameUnits(r.units, r'.units))
  {
    RegularTablesAreRegular(g, Names(asked));
    ResolutionIsLeast(g, asked);
    OrderOfAskingIsInvisible(g, asked, asked');
  }
}
