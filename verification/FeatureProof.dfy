/** The resolver records exactly what the rules force. */
module FeatureProof {
  import opened Common
  import opened Manifests
  import opened Features
  import opened FeatureRules

  ghost predicate Holds(w: Units, x: Fact) {
    && x.unit in w
    && match x
       case Present(_) => true
       case Linked(u, e) => e in w[u].edges
       case Active(u, f) => f in w[u].features
  }

  ghost function Facts(w: Units): iset<Fact> {
    iset x | Holds(w, x)
  }

  /** `alias?/feature` was applied. */
  ghost predicate Served(w: Units, u: Unit, alias: string, feature: string) {
    u in w && exists e :: e in w[u].edges && e.alias == alias && Holds(w, Active(e.to, feature))
  }

  // ---------------------------------------------------- settled, or waiting

  ghost predicate EntryRan(g: Locked, w: Units, u: Unit, entry: Entry)
    requires g.Has(u)
  {
    if entry.Sub? && entry.weak then Waiting(w, u, entry.alias, entry.feature) || Served(w, u, entry.alias, entry.feature)
    else EntryIn(g, Facts(w), u, entry)
  }

  ghost predicate FeatureRan(g: Locked, w: Units, u: Unit, feature: string)
    requires g.Has(u)
  {
    var m := g.Of(u);
    && u in w
    && !Unknown(g, Active(u, feature))
    && (feature in m.features ==>
          forall i :: 0 <= i < |m.features[feature]| ==> EntryRan(g, w, u, Classify(m.features[feature][i])))
    && (feature !in m.features ==> LinesIn(g, Facts(w), u, feature))
  }

  /** What `x` asks for was done, or waits as a weak request. */
  ghost predicate Processed(g: Locked, w: Units, x: Fact) {
    g.Has(x.unit) ==>
      match x
      case Present(u) => UnitIn(g, Facts(w), u)
      case Linked(_, _) => true
      case Active(u, f) => FeatureRan(g, w, u, f)
  }

  /** Between `w` and `w'`: each new fact but those of `xs` was processed,
      each waiting request still waits or was served, and none waits for an
      alias newly enabled. */
  ghost predicate Settled(g: Locked, w: Units, w': Units, xs: iset<Fact>) {
    && (forall x :: Holds(w', x) && !Holds(w, x) && x !in xs ==> Processed(g, w', x))
    && StillAsked(w, w')
    && (forall u, a, s :: Waiting(w', u, a, s) && Enabled(w', u, a) ==> Enabled(w, u, a) || Opened(xs, u, a))
  }

  ghost predicate StillAsked(w: Units, w': Units) {
    forall u, a, s :: Waiting(w, u, a, s) ==> Waiting(w', u, a, s) || Served(w', u, a, s)
  }

  ghost predicate Opened(xs: iset<Fact>, u: Unit, alias: string) {
    exists e :: Linked(u, e) in xs && e.alias == alias
  }

  lemma FactsGrow(w: Units, w': Units)
    requires Grows(w, w')
    ensures Facts(w) <= Facts(w')
  {
  }

  lemma ServedGrows(w: Units, w': Units, u: Unit, alias: string, feature: string)
    requires Grows(w, w') && Served(w, u, alias, feature)
    ensures Served(w', u, alias, feature)
  {
  }

  lemma LinesInGrows(g: Locked, S: iset<Fact>, T: iset<Fact>, u: Unit, alias: string)
    requires S <= T && LinesIn(g, S, u, alias)
    ensures LinesIn(g, T, u, alias)
  {
    forall p | LiveAs(g, u, alias, p) ensures LineIn(g, T, u, p) {
      LineInGrows(g, S, T, u, p);
    }
  }

  lemma EntryRanGrows(g: Locked, w: Units, w': Units, u: Unit, entry: Entry)
    requires Grows(w, w') && StillAsked(w, w') && g.Has(u) && EntryRan(g, w, u, entry)
    ensures EntryRan(g, w', u, entry)
  {
    FactsGrow(w, w');
    if !entry.Plain? {
      if entry.Sub? && entry.weak {
        if Served(w, u, entry.alias, entry.feature) {
          ServedGrows(w, w', u, entry.alias, entry.feature);
        }
      } else {
        LinesInGrows(g, Facts(w), Facts(w'), u, entry.alias);
      }
    }
  }

  lemma ProcessedGrows(g: Locked, w: Units, w': Units, x: Fact)
    requires Grows(w, w') && StillAsked(w, w') && Processed(g, w, x)
    ensures Processed(g, w', x)
  {
    if g.Has(x.unit) {
      var m := g.Of(x.unit);
      FactsGrow(w, w');
      match x {
        case Present(u) =>
          forall p: nat | Live(g, u, p) && !m.dependencies[p].optional ensures LineIn(g, Facts(w'), u, p) {
            LineInGrows(g, Facts(w), Facts(w'), u, p);
          }
        case Linked(_, _) =>
        case Active(u, f) =>
          if f in m.features {
            forall i | 0 <= i < |m.features[f]| ensures EntryRan(g, w', u, Classify(m.features[f][i])) {
              EntryRanGrows(g, w, w', u, Classify(m.features[f][i]));
            }
          } else {
            LinesInGrows(g, Facts(w), Facts(w'), u, f);
          }
      }
    }
  }

  lemma Compose(g: Locked, w: Units, w': Units, w'': Units, xs: iset<Fact>, ys: iset<Fact>)
    requires Grows(w, w') && Grows(w', w'')
    requires Settled(g, w, w', xs) && Settled(g, w', w'', ys)
    ensures Settled(g, w, w'', xs + ys)
  {
    forall x | Holds(w'', x) && !Holds(w, x) && x !in xs + ys ensures Processed(g, w'', x) {
      if Holds(w', x) {
        ProcessedGrows(g, w', w'', x);
      }
    }
    forall u, a, s | Waiting(w, u, a, s) ensures Waiting(w'', u, a, s) || Served(w'', u, a, s) {
      if Served(w', u, a, s) {
        ServedGrows(w', w'', u, a, s);
      }
    }
    forall u, a, s | Waiting(w'', u, a, s) && Enabled(w'', u, a)
      ensures Enabled(w, u, a) || Opened(xs + ys, u, a)
    {
      if Enabled(w', u, a) {
        assert Waiting(w', u, a, s);
        if !Enabled(w, u, a) {
          var e :| Linked(u, e) in xs && e.alias == a;
          assert Linked(u, e) in xs + ys;
        }
      } else {
        var e :| Linked(u, e) in ys && e.alias == a;
        assert Linked(u, e) in xs + ys;
      }
    }
  }

  /** A fact left open is closed once it was processed. */
  lemma Discharge(g: Locked, w: Units, w': Units, x: Fact)
    requires Settled(g, w, w', iset{x}) && Processed(g, w', x)
    requires x.Linked? ==> forall s :: !Waiting(w', x.unit, x.edge.alias, s)
    ensures Settled(g, w, w', iset{})
  {
  }

  // --------------------------------------------------------- upper bounds

  /** A set of facts no step of the resolver leaves. */
  ghost predicate Upper(g: Locked, S: iset<Fact>) {
    && Closed(g, S)
    && (forall u, e :: Linked(u, e) in S ==> exists p :: Live(g, u, p) && e == EdgeOf(g, u, p))
    && (forall u, e :: Linked(u, e) in S ==> RequestsIn(g, S, u, e.alias))
  }

  /** Whatever waits for the alias may be applied at all its lines. */
  ghost predicate RequestsIn(g: Locked, S: iset<Fact>, u: Unit, alias: string) {
    forall s, p :: Asks(g, S, u, alias, s) && LiveAs(g, u, alias, p) ==> LineIn(g, S, u, p) && Active(To(g, u, p), s) in S
  }

  lemma ForcedIsUpper(g: Locked, asked: iset<string>)
    requires g.Valid() && Regular(g, Forced(g, Seeds(asked)))
    ensures Upper(g, Forced(g, Seeds(asked)))
  {
    ForcedIsClosed(g, Seeds(asked));
    ForcedIsGrounded(g, asked);
    GroundedIsUpper(g, Forced(g, Seeds(asked)));
  }

  lemma GroundedIsUpper(g: Locked, F: iset<Fact>)
    requires g.Valid() && Regular(g, F) && Closed(g, F) && forall x :: x in F ==> Grounded(g, F, x)
    ensures Upper(g, F)
  {
    forall u, e | Linked(u, e) in F
      ensures (exists p :: Live(g, u, p) && e == EdgeOf(g, u, p)) && RequestsIn(g, F, u, e.alias)
    {
      assert Grounded(g, F, Linked(u, e));
      RequestsAreForced(g, F, u, e);
    }
  }

  lemma RequestsAreForced(g: Locked, F: iset<Fact>, u: Unit, e: Edge)
    requires g.Valid() && Regular(g, F) && Closed(g, F) && Linked(u, e) in F && Grounded(g, F, Linked(u, e))
    ensures RequestsIn(g, F, u, e.alias)
  {
    forall s, p | Asks(g, F, u, e.alias, s) && LiveAs(g, u, e.alias, p) ensures LineIn(g, F, u, p) && Active(To(g, u, p), s) in F {
      AskedIsForced(g, F, u, e, s, p);
    }
  }

  /** A weak request meets the lines of its alias, once one is enabled. */
  lemma AskedIsForced(g: Locked, F: iset<Fact>, u: Unit, e: Edge, s: string, p: nat)
    requires g.Valid() && Regular(g, F) && Closed(g, F) && Linked(u, e) in F && Grounded(g, F, Linked(u, e))
    requires Asks(g, F, u, e.alias, s) && LiveAs(g, u, e.alias, p)
    ensures LineIn(g, F, u, p) && Active(To(g, u, p), s) in F
  {
    var q :| Live(g, u, q) && e == EdgeOf(g, u, q) && LineIn(g, F, u, q);
    var f :| Active(u, f) in F && WeakEntry(g.Of(u), f, e.alias, s);
    assert LiveAs(g, u, e.alias, q) && Linked(u, EdgeOf(g, u, q)) in F;
    assert LineIn(g, F, u, p) && To(g, u, q) == To(g, u, p);
    assert FeatureIn(g, F, u, f);
    var i :| 0 <= i < |g.Of(u).features[f]| && Classify(g.Of(u).features[f][i]) == Sub(e.alias, s, true);
    assert WeakIn(g, F, u, e.alias, s);
  }

  lemma UpperWeak(g: Locked, S: iset<Fact>, u: Unit, e: Edge, feature: string, p: nat)
    requires Upper(g, S) && Linked(u, e) in S && Asks(g, S, u, e.alias, feature) && LiveAs(g, u, e.alias, p)
    ensures Enableable(g, S, u, p, Some(feature))
  {
  }

  /** What a line that may be enabled may rely on. */
  ghost predicate Enableable(g: Locked, S: iset<Fact>, u: Unit, p: nat, extra: Option<string>) {
    Live(g, u, p) ==> LineIn(g, S, u, p) && (extra.Some? ==> Active(To(g, u, p), extra.value) in S)
  }

  ghost predicate Sound(g: Locked, w: Units, S: iset<Fact>) {
    && Facts(w) <= S
    && (forall u, a, s :: Waiting(w, u, a, s) ==> Asks(g, S, u, a, s))
  }

  /** A step that stays below `S` and settles what it adds, or meets a
      feature of `S` its package does not have. */
  ghost predicate Faithful(g: Locked, w: Units, r: Outcome, S: iset<Fact>) {
    && Sound(g, r.units, S)
    && match r.error
       case None => Settled(g, w, r.units, iset{})
       case Some(refusal) =>
         Active(refusal.unit, refusal.feature) in S && Unknown(g, Active(refusal.unit, refusal.feature))
  }

  lemma SettledSame(g: Locked, w: Units)
    ensures Settled(g, w, w, iset{})
  {
  }

  lemma Sequence(g: Locked, w: Units, w': Units, w'': Units)
    requires Grows(w, w') && Grows(w', w'')
    requires Settled(g, w, w', iset{}) && Settled(g, w', w'', iset{})
    ensures Settled(g, w, w'', iset{})
  {
    Compose(g, w, w', w'', iset{}, iset{});
    var none: iset<Fact> := iset{};
    assert none + none == none;
  }

  /** Open `x`, run to `w''`, and find it processed there. */
  lemma OpenAndClose(g: Locked, w: Units, w': Units, w'': Units, x: Fact)
    requires Grows(w, w') && Grows(w', w'')
    requires Settled(g, w, w', iset{x}) && Settled(g, w', w'', iset{})
    requires Processed(g, w'', x)
    requires x.Linked? ==> forall s :: !Waiting(w'', x.unit, x.edge.alias, s)
    ensures Settled(g, w, w'', iset{})
  {
    Compose(g, w, w', w'', iset{x}, iset{});
    assert iset{x} + iset{} == iset{x};
    Discharge(g, w, w'', x);
  }

  // ------------------------------------------------------- the seven steps

  lemma {:induction false} EnsureFaithful(g: Locked, w: Units, u: Unit, S: iset<Fact>)
    requires g.Valid() && ValidUnits(g, w) && g.Has(u)
    requires Regular(g, S) && Upper(g, S) && Sound(g, w, S) && Present(u) in S
    ensures Faithful(g, w, Ensure(g, w, u), S)
    decreases Missing(g, w), 0, 0
  {
    if u in w {
      SettledSame(g, w);
    } else {
      MissingUnit(g, w, u);
      var w' := w[u := NEW];
      assert Facts(w') <= S;
      assert Settled(g, w, w', iset{Present(u)});
      assert UnitIn(g, S, u);
      EnsureFromFaithful(g, w', u, 0, S);
      var r := EnsureFrom(g, w', u, 0);
      if r.error.None? {
        OpenAndClose(g, w, w', r.units, Present(u));
      }
    }
  }

  ghost predicate LinesFromIn(g: Locked, S: iset<Fact>, u: Unit, p: nat)
    requires g.Has(u)
  {
    forall q: nat :: p <= q && Live(g, u, q) && !g.Of(u).dependencies[q].optional ==> LineIn(g, S, u, q)
  }

  lemma OneMoreLine(g: Locked, w: Units, w': Units, u: Unit, p: nat)
    requires g.Has(u) && Grows(w, w') && LinesFromIn(g, Facts(w'), u, p + 1)
    requires Live(g, u, p) && !g.Of(u).dependencies[p].optional ==> LineIn(g, Facts(w), u, p)
    ensures LinesFromIn(g, Facts(w'), u, p)
  {
    FactsGrow(w, w');
    if Live(g, u, p) && !g.Of(u).dependencies[p].optional {
      LineInGrows(g, Facts(w), Facts(w'), u, p);
    }
  }

  lemma {:induction false} EnsureFromFaithful(g: Locked, w: Units, u: Unit, p: nat, S: iset<Fact>)
    requires g.Valid() && ValidUnits(g, w) && u in w && p <= |g.Of(u).dependencies|
    requires Regular(g, S) && Upper(g, S) && Sound(g, w, S) && UnitIn(g, S, u)
    ensures var r := EnsureFrom(g, w, u, p);
      Faithful(g, w, r, S) && (r.error.None? ==> LinesFromIn(g, Facts(r.units), u, p))
    decreases Missing(g, w), 4, |g.Of(u).dependencies| - p, 1
  {
    if p == |g.Of(u).dependencies| {
      SettledSame(g, w);
    } else if g.Of(u).dependencies[p].optional || !g.Used(u, p) {
      EnsureFromFaithful(g, w, u, p + 1, S);
      var r := EnsureFrom(g, w, u, p + 1);
      if r.error.None? { OneMoreLine(g, w, r.units, u, p); }
    } else {
      NeededLineFaithful(g, w, u, p, S);
    }
  }

  lemma {:induction false} NeededLineFaithful(g: Locked, w: Units, u: Unit, p: nat, S: iset<Fact>)
    requires g.Valid() && ValidUnits(g, w) && u in w && p < |g.Of(u).dependencies|
    requires !g.Of(u).dependencies[p].optional && g.Used(u, p)
    requires Regular(g, S) && Upper(g, S) && Sound(g, w, S) && UnitIn(g, S, u)
    ensures var r := EnsureFrom(g, w, u, p);
      Faithful(g, w, r, S) && (r.error.None? ==> LinesFromIn(g, Facts(r.units), u, p))
    decreases Missing(g, w), 4, |g.Of(u).dependencies| - p, 0
  {
    EnableLineFaithful(g, w, u, p, None, S);
    var r := EnableLine(g, w, u, p, None);
    if r.error.None? {
      MissingShrinks(g, w, r.units);
      EnsureFromFaithful(g, r.units, u, p + 1, S);
      LineThenTheRest(g, w, r.units, EnsureFrom(g, r.units, u, p + 1), u, p, S);
    }
  }

  lemma LineThenTheRest(g: Locked, w: Units, mid: Units, r: Outcome, u: Unit, p: nat, S: iset<Fact>)
    requires g.Has(u) && Grows(w, mid) && Grows(mid, r.units) && Settled(g, w, mid, iset{}) && Faithful(g, mid, r, S)
    requires Enableable(g, Facts(mid), u, p, None)
    requires r.error.None? ==> LinesFromIn(g, Facts(r.units), u, p + 1)
    ensures Faithful(g, w, r, S) && (r.error.None? ==> LinesFromIn(g, Facts(r.units), u, p))
  {
    if r.error.None? {
      Sequence(g, w, mid, r.units);
      OneMoreLine(g, mid, r.units, u, p);
    }
  }

  /** One more edge of a line that is forced. */
  lemma LinkedFaithful(g: Locked, w: Units, u: Unit, edge: Edge, S: iset<Fact>)
    requires u in w && Sound(g, w, S) && Linked(u, edge) in S
    ensures var w' := Features.Linked(w, u, edge);
      Sound(g, w', S) && Settled(g, w, w', iset{Linked(u, edge)})
  {
    var w' := Features.Linked(w, u, edge);
    forall x | Holds(w', x) ensures Holds(w, x) || x == Linked(u, edge) {}
    forall v, a, s | Waiting(w', v, a, s) ensures Waiting(w, v, a, s) {}
    forall v, a, s | Waiting(w', v, a, s) && Enabled(w', v, a)
      ensures Enabled(w, v, a) || Opened(iset{Linked(u, edge)}, v, a)
    {
      var i :| 0 <= i < |w'[v].edges| && w'[v].edges[i].alias == a;
      if i < |w[v].edges| {
        assert w[v].edges[i].alias == a;
      } else {
        assert v == u && w'[v].edges[i] == edge;
      }
    }
  }

  /** Draining the requests for `alias` and applying them to its edge. */
  lemma DrainFaithful(g: Locked, w: Units, u: Unit, edge: Edge, w': Units)
    requires u in w && edge in w[u].edges
    requires Grows(Drained(w, u, edge.alias), w')
    requires Settled(g, Drained(w, u, edge.alias), w', iset{})
    requires forall s :: s in Released(w[u].weak, edge.alias) ==> Holds(w', Active(edge.to, s))
    ensures Settled(g, w, w', iset{})
    ensures forall s :: !Waiting(w', u, edge.alias, s)
  {
    var d := Drained(w, u, edge.alias);
    forall x ensures Holds(w, x) == Holds(d, x) {}
    forall v, a ensures Enabled(w, v, a) == Enabled(d, v, a) {
      if v in w { EnabledSame(w, d, v, a); }
    }
    forall v, a, s | Waiting(w, v, a, s) ensures Waiting(w', v, a, s) || Served(w', v, a, s) {
      if !Waiting(d, v, a, s) {
        assert v == u && a == edge.alias && s in Released(w[u].weak, a);
        assert edge in d[u].edges;
        assert edge in w'[u].edges;
      }
    }
    forall s ensures !Waiting(w', u, edge.alias, s) {
      var i :| 0 <= i < |w[u].edges| && w[u].edges[i] == edge;
      assert d[u].edges[i].alias == edge.alias;
      assert Enabled(d, u, edge.alias);
      assert !Waiting(d, u, edge.alias, s);
    }
  }

  lemma {:induction false} EnableLineFaithful(g: Locked, w: Units, u: Unit, p: nat, extra: Option<string>, S: iset<Fact>)
    requires g.Valid() && ValidUnits(g, w) && u in w && p < |g.Of(u).dependencies| && g.Used(u, p)
    requires Regular(g, S) && Upper(g, S) && Sound(g, w, S) && Enableable(g, S, u, p, extra)
    ensures var r := EnableLine(g, w, u, p, extra);
      Faithful(g, w, r, S) && (r.error.None? ==> Enableable(g, Facts(r.units), u, p, extra))
    decreases Missing(g, w), 3, 2
  {
    if g.targets[u.node][p].None? {
      SettledSame(g, w);
    } else {
      EnsureFaithful(g, w, To(g, u, p), S);
      var r1 := Ensure(g, w, To(g, u, p));
      if r1.error.None? {
        MissingShrinks(g, w, r1.units);
        MadeLineFaithful(g, r1.units, u, p, extra, S);
        LineFaithful(g, w, u, p, extra, S, r1.units);
      }
    }
  }

  /** The edge of a line is made, and what is asked over it. */
  lemma {:induction false} MadeLineFaithful(g: Locked, w: Units, u: Unit, p: nat, extra: Option<string>, S: iset<Fact>)
    requires g.Valid() && ValidUnits(g, w) && u in w && Live(g, u, p) && To(g, u, p) in w
    requires Regular(g, S) && Upper(g, S) && Sound(g, w, S) && Enableable(g, S, u, p, extra)
    ensures var r := Ask(g, Features.Linked(w, u, EdgeOf(g, u, p)), u, p, extra);
      Faithful(g, w, r, S) && (r.error.None? ==> Enableable(g, Facts(r.units), u, p, extra))
    decreases Missing(g, w), 3, 1
  {
    var x := Linked(u, EdgeOf(g, u, p));
    var w' := Features.Linked(w, u, x.edge);
    LinkedFaithful(g, w, u, x.edge, S);
    LinkedIsValid(g, w, u, x.edge);
    MissingShrinks(g, w, w');
    AskFaithful(g, w', u, p, extra, S);
    var r := Ask(g, w', u, p, extra);
    if r.error.None? { OpenAndClose(g, w, w', r.units, x); }
  }

  lemma LineFaithful(g: Locked, w: Units, u: Unit, p: nat, extra: Option<string>, S: iset<Fact>, w1: Units)
    requires g.Valid() && ValidUnits(g, w) && u in w && Live(g, u, p)
    requires Ensure(g, w, To(g, u, p)) == Outcome(w1, None) && Settled(g, w, w1, iset{})
    requires var r := Ask(g, Features.Linked(w1, u, EdgeOf(g, u, p)), u, p, extra);
      Faithful(g, w1, r, S) && (r.error.None? ==> Enableable(g, Facts(r.units), u, p, extra))
    ensures var r := EnableLine(g, w, u, p, extra);
      Faithful(g, w, r, S) && (r.error.None? ==> Enableable(g, Facts(r.units), u, p, extra))
  {
    var w2 := Features.Linked(w1, u, EdgeOf(g, u, p));
    LinkedIsValid(g, w1, u, EdgeOf(g, u, p));
    var r := Ask(g, w2, u, p, extra);
    assert EnableLine(g, w, u, p, extra) == r;
    if r.error.None? {
      GrowsTransitive(w1, w2, r.units);
      Sequence(g, w, w1, r.units);
    }
  }

  lemma {:induction false} AskFaithful(g: Locked, w: Units, u: Unit, p: nat, extra: Option<string>, S: iset<Fact>)
    requires g.Valid() && ValidUnits(g, w) && u in w && Live(g, u, p)
    requires EdgeOf(g, u, p) in w[u].edges
    requires Regular(g, S) && Upper(g, S) && Sound(g, w, S) && Enableable(g, S, u, p, extra)
    ensures var r := Ask(g, w, u, p, extra);
      && Faithful(g, w, r, S)
      && (r.error.None? ==>
            && Enableable(g, Facts(r.units), u, p, extra)
            && forall s :: !Waiting(r.units, u, EdgeOf(g, u, p).alias, s))
    decreases Missing(g, w), 3, 0
  {
    var edge := EdgeOf(g, u, p);
    var asked := AskedOf(g, g.Of(u).dependencies[p], g.targets[u.node][p].value, extra);
    ActivateAllFaithful(g, w, edge.to, asked, S);
    var r1 := ActivateAll(g, w, edge.to, asked);
    if r1.error.None? {
      MissingShrinks(g, w, r1.units);
      assert edge in r1.units[u].edges;
      ReleaseFaithful(g, r1.units, u, p, S);
      var r := Ask(g, w, u, p, extra);
      if r.error.None? {
        GrowsTransitive(r1.units, Drained(r1.units, u, edge.alias), r.units);
        Sequence(g, w, r1.units, r.units);
        AskedOfLine(g, r1.units, r.units, u, p, extra);
      }
    }
  }

  /** Draining the requests that wait for line `p` and applying them. */
  lemma {:induction false} ReleaseFaithful(g: Locked, w: Units, u: Unit, p: nat, S: iset<Fact>)
    requires g.Valid() && ValidUnits(g, w) && u in w && Live(g, u, p) && EdgeOf(g, u, p) in w[u].edges
    requires Regular(g, S) && Upper(g, S) && Sound(g, w, S)
    ensures var edge := EdgeOf(g, u, p);
      var r := ActivateAll(g, Drained(w, u, edge.alias), edge.to, Released(w[u].weak, edge.alias));
      Faithful(g, w, r, S) && (r.error.None? ==> forall s :: !Waiting(r.units, u, edge.alias, s))
    decreases Missing(g, w), 2, |Released(w[u].weak, EdgeOf(g, u, p).alias)| + 1
  {
    var edge := EdgeOf(g, u, p);
    var released := Released(w[u].weak, edge.alias);
    DrainSound(g, w, u, p, S);
    MissingShrinks(g, w, Drained(w, u, edge.alias));
    ActivateAllFaithful(g, Drained(w, u, edge.alias), edge.to, released, S);
    var r := ActivateAll(g, Drained(w, u, edge.alias), edge.to, released);
    if r.error.None? { DrainFaithful(g, w, u, edge, r.units); }
  }

  lemma DrainSound(g: Locked, w: Units, u: Unit, p: nat, S: iset<Fact>)
    requires u in w && Upper(g, S) && Sound(g, w, S) && Live(g, u, p) && EdgeOf(g, u, p) in w[u].edges
    ensures var alias := g.Of(u).dependencies[p].alias;
      && Sound(g, Drained(w, u, alias), S)
      && forall s :: s in Released(w[u].weak, alias) ==> Active(To(g, u, p), s) in S
  {
    var alias := g.Of(u).dependencies[p].alias;
    var d := Drained(w, u, alias);
    forall x | Holds(d, x) ensures x in S {
      assert Holds(w, x);
    }
    forall v, a, s | Waiting(d, v, a, s) ensures Asks(g, S, v, a, s) {
      assert Waiting(w, v, a, s);
    }
    forall s | s in Released(w[u].weak, alias) ensures Active(To(g, u, p), s) in S {
      assert Waiting(w, u, alias, s);
      assert Holds(w, Linked(u, EdgeOf(g, u, p)));
      UpperWeak(g, S, u, EdgeOf(g, u, p), s, p);
    }
  }

  lemma AskedOfLine(g: Locked, w: Units, w': Units, u: Unit, p: nat, extra: Option<string>)
    requires g.Valid() && ValidUnits(g, w) && Live(g, u, p) && Grows(w, w')
    requires Holds(w, Linked(u, EdgeOf(g, u, p)))
    requires forall f :: f in AskedOf(g, g.Of(u).dependencies[p], To(g, u, p).node, extra) ==>
      Holds(w, Active(To(g, u, p), f))
    ensures Enableable(g, Facts(w'), u, p, extra)
  {
    FactsGrow(w, w');
    var to := To(g, u, p);
    var d := g.Of(u).dependencies[p];
    var asked := AskedOf(g, d, to.node, extra);
    var first := if d.defaultFeatures && "default" in g.manifests[to.node].features then ["default"] else [];
    var last := if extra.Some? then [extra.value] else [];
    assert asked == first + d.features + last;
    forall f | f in first || f in d.features || f in last ensures Active(to, f) in Facts(w') {
      assert f in asked;
      assert Active(to, f) in Facts(w);
    }
    assert "default" in ["default"];
    assert extra.Some? ==> extra.value in last;
    assert Present(to) in Facts(w) && Linked(u, EdgeOf(g, u, p)) in Facts(w);
  }

  lemma {:induction false} ActivateAllFaithful(g: Locked, w: Units, u: Unit, features: seq<string>, S: iset<Fact>)
    requires g.Valid() && ValidUnits(g, w) && g.Has(u)
    requires Regular(g, S) && Upper(g, S) && Sound(g, w, S)
    requires forall f :: f in features ==> Active(u, f) in S
    ensures var r := ActivateAll(g, w, u, features);
      && Faithful(g, w, r, S)
      && (r.error.None? ==> forall f :: f in features ==> Holds(r.units, Active(u, f)))
    decreases Missing(g, w), 2, |features|
  {
    if features == [] {
      SettledSame(g, w);
    } else {
      ActivateFaithful(g, w, u, features[0], S);
      var r := Activate(g, w, u, features[0]);
      if r.error.None? {
        MissingShrinks(g, w, r.units);
        ActivateAllFaithful(g, r.units, u, features[1..], S);
        var r' := ActivateAll(g, r.units, u, features[1..]);
        if r'.error.None? {
          Sequence(g, w, r.units, r'.units);
          FactsGrow(r.units, r'.units);
          assert Active(u, features[0]) in Facts(r.units);
          forall f | f in features ensures Holds(r'.units, Active(u, f)) {
            assert f == features[0] || f in features[1..];
          }
        }
      }
    }
  }

  /** A recorded feature that is forced is an open fact. */
  lemma WithFeatureFaithful(g: Locked, w: Units, u: Unit, feature: string, S: iset<Fact>)
    requires u in w && Sound(g, w, S) && Active(u, feature) in S
    ensures var w' := WithFeature(w, u, feature);
      Grows(w, w') && Sound(g, w', S) && Settled(g, w, w', iset{Active(u, feature)})
  {
    var w' := WithFeature(w, u, feature);
    forall x | Holds(w', x) ensures Holds(w, x) || x == Active(u, feature) {}
    forall v, a, s | Waiting(w', v, a, s) ensures Waiting(w, v, a, s) {}
    forall v, a ensures Enabled(w, v, a) == Enabled(w', v, a) {
      if v in w { EnabledSame(w, w', v, a); }
    }
  }

  lemma {:induction false} ActivateFaithful(g: Locked, w: Units, u: Unit, feature: string, S: iset<Fact>)
    requires g.Valid() && ValidUnits(g, w) && g.Has(u)
    requires Regular(g, S) && Upper(g, S) && Sound(g, w, S) && Active(u, feature) in S
    ensures var r := Activate(g, w, u, feature);
      && Faithful(g, w, r, S)
      && (r.error.None? ==> Holds(r.units, Active(u, feature)))
    decreases Missing(g, w), 1, 0
  {
    var m := g.Of(u);
    assert FeatureIn(g, S, u, feature);
    EnsureFaithful(g, w, u, S);
    var r1 := Ensure(g, w, u);
    if r1.error.Some? || feature in r1.units[u].features { return; }
    var w2 := WithFeature(r1.units, u, feature);
    WithFeatureFaithful(g, r1.units, u, feature, S);
    MissingShrinks(g, w, r1.units);
    var x := Active(u, feature);
    var r := Activate(g, w, u, feature);
    if feature in m.features {
      MissingFeature(g, r1.units, u, feature);
      forall i | 0 <= i < |m.features[feature]|
        ensures Runnable(g, S, u, Classify(m.features[feature][i]))
      {
        EntryRunnable(g, S, u, feature, i);
      }
      RunEntriesFaithful(g, w2, u, m.features[feature], S);
    } else if m.Implicit(feature) {
      MissingFeature(g, r1.units, u, feature);
      AllLinesIn(g, S, u, feature, None);
      EnableLinesFaithful(g, w2, u, g.Lines(u, feature), None, S);
      if r.error.None? {
        AllLinesIn(g, Facts(r.units), u, feature, None);
      }
    } else {
      return;
    }
    if r.error.None? {
      FactsGrow(w2, r.units);
      assert x in Facts(w2);
      OpenAndClose(g, r1.units, w2, r.units, x);
      GrowsTransitive(r1.units, w2, r.units);
      Sequence(g, w, r1.units, r.units);
    }
  }

  /** What running an entry of an active feature may rely on. */
  ghost predicate Runnable(g: Locked, S: iset<Fact>, u: Unit, entry: Entry)
    requires g.Has(u)
  {
    && EntryIn(g, S, u, entry)
    && (entry.Sub? && entry.weak ==> Asks(g, S, u, entry.alias, entry.feature))
    && (entry.Sub? && !entry.weak && g.Of(u).Implicit(entry.alias) ==> entry.alias !in g.Of(u).features)
  }

  lemma EntryRunnable(g: Locked, S: iset<Fact>, u: Unit, feature: string, i: nat)
    requires g.Has(u) && Regular(g, S) && Closed(g, S) && Active(u, feature) in S
    requires feature in g.Of(u).features && i < |g.Of(u).features[feature]|
    ensures Runnable(g, S, u, Classify(g.Of(u).features[feature][i]))
  {
    assert FeatureIn(g, S, u, feature);
    var entry := Classify(g.Of(u).features[feature][i]);
    if entry.Sub? {
      if entry.weak {
        assert WeakEntry(g.Of(u), feature, entry.alias, entry.feature);
      } else {
        assert StrongEntry(g.Of(u), feature, entry.alias, entry.feature);
      }
    }
  }

  /** Each of `lines` may be enabled. */
  ghost predicate AllEnableable(g: Locked, S: iset<Fact>, u: Unit, lines: seq<nat>, extra: Option<string>) {
    forall p :: p in lines ==> Enableable(g, S, u, p, extra)
  }

  lemma AllLinesIn(g: Locked, S: iset<Fact>, u: Unit, alias: string, extra: Option<string>)
    requires g.Has(u)
    ensures AllEnableable(g, S, u, g.Lines(u, alias), extra) <==>
      LinesIn(g, S, u, alias) && (extra.Some? ==> SubIn(g, S, u, alias, extra.value))
  {
    forall p: nat ensures p in g.Lines(u, alias) && Live(g, u, p) <==> LiveAs(g, u, alias, p) {}
    if AllEnableable(g, S, u, g.Lines(u, alias), extra) {
      forall p | LiveAs(g, u, alias, p)
        ensures LineIn(g, S, u, p) && (extra.Some? ==> Active(To(g, u, p), extra.value) in S)
      {
        assert Enableable(g, S, u, p, extra);
      }
    } else {
      var p :| p in g.Lines(u, alias) && !Enableable(g, S, u, p, extra);
      assert LiveAs(g, u, alias, p);
    }
  }

  lemma {:induction false} RunEntriesFaithful(g: Locked, w: Units, u: Unit, entries: seq<string>, S: iset<Fact>)
    requires g.Valid() && ValidUnits(g, w) && u in w
    requires Regular(g, S) && Upper(g, S) && Sound(g, w, S)
    requires forall i :: 0 <= i < |entries| ==> Runnable(g, S, u, Classify(entries[i]))
    ensures var r := RunEntries(g, w, u, entries);
      && Faithful(g, w, r, S)
      && (r.error.None? ==> forall i :: 0 <= i < |entries| ==> EntryRan(g, r.units, u, Classify(entries[i])))
    decreases Missing(g, w), 6, |entries|
  {
    if entries == [] {
      SettledSame(g, w);
    } else {
      var entry := Classify(entries[0]);
      RunEntryFaithful(g, w, u, entry, S);
      var r := RunEntry(g, w, u, entry);
      if r.error.None? {
        MissingShrinks(g, w, r.units);
        RunEntriesFaithful(g, r.units, u, entries[1..], S);
        var r' := RunEntries(g, r.units, u, entries[1..]);
        if r'.error.None? {
          Sequence(g, w, r.units, r'.units);
          EntryRanGrows(g, r.units, r'.units, u, entry);
          forall i | 0 <= i < |entries| ensures EntryRan(g, r'.units, u, Classify(entries[i])) {
            assert i > 0 ==> entries[i] == entries[1..][i - 1];
          }
        }
      }
    }
  }

  lemma {:induction false} RunEntryFaithful(g: Locked, w: Units, u: Unit, entry: Entry, S: iset<Fact>)
    requires g.Valid() && ValidUnits(g, w) && u in w
    requires Regular(g, S) && Upper(g, S) && Sound(g, w, S) && Runnable(g, S, u, entry)
    ensures var r := RunEntry(g, w, u, entry);
      Faithful(g, w, r, S) && (r.error.None? ==> EntryRan(g, r.units, u, entry))
    decreases Missing(g, w), 5, 0
  {
    match entry {
      case Plain(name) => ActivateFaithful(g, w, u, name, S);
      case Dep(alias) =>
        AllLinesIn(g, S, u, alias, None);
        EnableLinesFaithful(g, w, u, g.Lines(u, alias), None, S);
        var r := RunEntry(g, w, u, entry);
        if r.error.None? {
          AllLinesIn(g, Facts(r.units), u, alias, None);
        }
      case Sub(alias, sub, weak) =>
        if weak && !Enabled(w, u, alias) {
          RequestFaithful(g, w, u, alias, sub, S);
        } else if weak {
          WeakSubFaithful(g, w, u, alias, sub, S);
        } else {
          StrongSubFaithful(g, w, u, alias, sub, S);
        }
    }
  }

  /** A weak request for a dependency not enabled yet. */
  lemma RequestFaithful(g: Locked, w: Units, u: Unit, alias: string, feature: string, S: iset<Fact>)
    requires u in w && !Enabled(w, u, alias) && Sound(g, w, S) && Asks(g, S, u, alias, feature)
    ensures var w' := w[u := w[u].(weak := w[u].weak + [(alias, feature)])];
      Sound(g, w', S) && Settled(g, w, w', iset{}) && Waiting(w', u, alias, feature)
  {
    var w' := w[u := w[u].(weak := w[u].weak + [(alias, feature)])];
    forall x ensures Holds(w, x) == Holds(w', x) {}
    forall v, a ensures Enabled(w, v, a) == Enabled(w', v, a) {
      if v in w { EnabledSame(w, w', v, a); }
    }
    forall v, a, s | Waiting(w', v, a, s)
      ensures Waiting(w, v, a, s) || (v == u && a == alias && s == feature) {}
  }

  /** A weak entry for a dependency already enabled. */
  lemma {:induction false} WeakSubFaithful(g: Locked, w: Units, u: Unit, alias: string, sub: string, S: iset<Fact>)
    requires g.Valid() && ValidUnits(g, w) && u in w
    requires Regular(g, S) && Upper(g, S) && Sound(g, w, S) && Asks(g, S, u, alias, sub) && Enabled(w, u, alias)
    ensures var r := EnableLines(g, w, u, g.Lines(u, alias), Some(sub));
      Faithful(g, w, r, S) && (r.error.None? ==> Served(r.units, u, alias, sub))
    decreases Missing(g, w), 4, |g.Lines(u, alias)| + 1
  {
    var i :| 0 <= i < |w[u].edges| && w[u].edges[i].alias == alias;
    var e := w[u].edges[i];
    assert Holds(w, Linked(u, e));
    forall p | p in g.Lines(u, alias) ensures Enableable(g, S, u, p, Some(sub)) {
      if Live(g, u, p) {
        UpperWeak(g, S, u, e, sub, p);
      }
    }
    EnableLinesFaithful(g, w, u, g.Lines(u, alias), Some(sub), S);
    var r := EnableLines(g, w, u, g.Lines(u, alias), Some(sub));
    if r.error.None? {
      ServedByLine(g, S, w, r.units, u, e, sub);
    }
  }

  lemma ServedByLine(g: Locked, S: iset<Fact>, w: Units, w': Units, u: Unit, e: Edge, sub: string)
    requires Upper(g, S) && Linked(u, e) in S && Holds(w, Linked(u, e)) && Grows(w, w') && g.Has(u)
    requires AllEnableable(g, Facts(w'), u, g.Lines(u, e.alias), Some(sub))
    ensures Served(w', u, e.alias, sub)
  {
    var p :| Live(g, u, p) && e == EdgeOf(g, u, p);
    assert p in g.Lines(u, e.alias);
    assert Enableable(g, Facts(w'), u, p, Some(sub));
    assert e in w'[u].edges;
  }

  lemma {:induction false} StrongSubFaithful(g: Locked, w: Units, u: Unit, alias: string, sub: string, S: iset<Fact>)
    requires g.Valid() && ValidUnits(g, w) && u in w
    requires Regular(g, S) && Upper(g, S) && Sound(g, w, S) && Runnable(g, S, u, Sub(alias, sub, false))
    ensures var r := RunEntry(g, w, u, Sub(alias, sub, false));
      Faithful(g, w, r, S) && (r.error.None? ==> EntryIn(g, Facts(r.units), u, Sub(alias, sub, false)))
    decreases Missing(g, w), 4, |g.Lines(u, alias)| + 1
  {
    var implicit := g.Of(u).Implicit(alias);
    var w' := if implicit then WithFeature(w, u, alias) else w;
    var x := Active(u, alias);
    if implicit {
      WithFeatureFaithful(g, w, u, alias, S);
      MissingShrinks(g, w, w');
    }
    AllLinesIn(g, S, u, alias, Some(sub));
    EnableLinesFaithful(g, w', u, g.Lines(u, alias), Some(sub), S);
    var r := EnableLines(g, w', u, g.Lines(u, alias), Some(sub));
    if r.error.None? {
      AllLinesIn(g, Facts(r.units), u, alias, Some(sub));
      if implicit {
        FactsGrow(w', r.units);
        assert x in Facts(w');
        OpenAndClose(g, w, w', r.units, x);
      }
    }
  }

  lemma {:induction false} EnableLinesFaithful(g: Locked, w: Units, u: Unit, lines: seq<nat>, extra: Option<string>, S: iset<Fact>)
    requires g.Valid() && ValidUnits(g, w) && u in w
    requires forall p :: p in lines ==> p < |g.Of(u).dependencies| && g.Used(u, p)
    requires Regular(g, S) && Upper(g, S) && Sound(g, w, S) && AllEnableable(g, S, u, lines, extra)
    ensures var r := EnableLines(g, w, u, lines, extra);
      Faithful(g, w, r, S) && (r.error.None? ==> AllEnableable(g, Facts(r.units), u, lines, extra))
    decreases Missing(g, w), 4, |lines|
  {
    if lines == [] {
      SettledSame(g, w);
    } else {
      assert lines[0] in lines && forall p :: p in lines[1..] ==> p in lines;
      EnableLineFaithful(g, w, u, lines[0], extra, S);
      var r := EnableLine(g, w, u, lines[0], extra);
      if r.error.None? {
        MissingShrinks(g, w, r.units);
        EnableLinesFaithful(g, r.units, u, lines[1..], extra, S);
      }
      FirstLineFaithful(g, w, u, lines, extra, S);
    }
  }

  lemma FirstLineFaithful(g: Locked, w: Units, u: Unit, lines: seq<nat>, extra: Option<string>, S: iset<Fact>)
    requires g.Valid() && ValidUnits(g, w) && u in w && lines != []
    requires forall p :: p in lines ==> p < |g.Of(u).dependencies|
    requires lines[0] < |g.Of(u).dependencies| && forall p :: p in lines[1..] ==> p < |g.Of(u).dependencies|
    requires var r := EnableLine(g, w, u, lines[0], extra);
      && Faithful(g, w, r, S)
      && (r.error.None? ==>
            && Enableable(g, Facts(r.units), u, lines[0], extra)
            && var r' := EnableLines(g, r.units, u, lines[1..], extra);
               Faithful(g, r.units, r', S) && (r'.error.None? ==> AllEnableable(g, Facts(r'.units), u, lines[1..], extra)))
    ensures var r := EnableLines(g, w, u, lines, extra);
      Faithful(g, w, r, S) && (r.error.None? ==> AllEnableable(g, Facts(r.units), u, lines, extra))
  {
    var r := EnableLine(g, w, u, lines[0], extra);
    if r.error.None? {
      LineThenLines(g, w, r.units, EnableLines(g, r.units, u, lines[1..], extra), u, lines, extra, S);
    }
  }

  lemma LineThenLines(
    g: Locked, w: Units, mid: Units, r: Outcome, u: Unit, lines: seq<nat>, extra: Option<string>, S: iset<Fact>)
    requires lines != [] && Grows(w, mid) && Grows(mid, r.units)
    requires Settled(g, w, mid, iset{}) && Faithful(g, mid, r, S) && Enableable(g, Facts(mid), u, lines[0], extra)
    requires r.error.None? ==> AllEnableable(g, Facts(r.units), u, lines[1..], extra)
    ensures Faithful(g, w, r, S) && (r.error.None? ==> AllEnableable(g, Facts(r.units), u, lines, extra))
  {
    if r.error.None? {
      Sequence(g, w, mid, r.units);
      OneMoreEnableable(g, mid, r.units, u, lines, extra);
    }
  }

  lemma OneMoreEnableable(g: Locked, w: Units, w': Units, u: Unit, lines: seq<nat>, extra: Option<string>)
    requires lines != [] && Grows(w, w') && Enableable(g, Facts(w), u, lines[0], extra)
    requires AllEnableable(g, Facts(w'), u, lines[1..], extra)
    ensures AllEnableable(g, Facts(w'), u, lines, extra)
  {
    EnableableGrows(g, w, w', u, lines[0], extra);
    forall p | p in lines ensures Enableable(g, Facts(w'), u, p, extra) {
      assert p == lines[0] || p in lines[1..];
    }
  }

  lemma EnableableGrows(g: Locked, w: Units, w': Units, u: Unit, p: nat, extra: Option<string>)
    requires Grows(w, w') && Enableable(g, Facts(w), u, p, extra)
    ensures Enableable(g, Facts(w'), u, p, extra)
  {
    FactsGrow(w, w');
    if Live(g, u, p) {
      LineInGrows(g, Facts(w), Facts(w'), u, p);
    }
  }
}
