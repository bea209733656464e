/** The waits of each unit, and that they are met in order
    (kompilator/src/compile.rs). */
module Waiting {
  import opened Common
  import opened Manifests
  import opened Features
  import opened Ordering

  /** What a unit waits for: interfaces, and finished units. */
  datatype Waits = Waits(interface: set<Unit>, finished: set<Unit>)

  ghost predicate NormalClosed(w: Units, T: set<Unit>) {
    forall u, e :: u in T && e in EdgesOf(w, u) && e.kind == Normal ==> e.to in T
  }

  /** Normal edges lead from `u` to `v`, by any number of steps or none. */
  ghost predicate Under(w: Units, u: Unit, v: Unit) {
    forall T :: NormalClosed(w, T) && u in T ==> v in T
  }

  lemma UnderStep(w: Units, u: Unit, v: Unit, e: Edge)
    requires Under(w, u, v) && e in EdgesOf(w, v) && e.kind == Normal
    ensures Under(w, u, e.to)
  {
    forall T | NormalClosed(w, T) && u in T ensures e.to in T {
      assert v in T;
    }
  }

  /** Edges stay among the units. */
  ghost predicate ClosedUnits(w: Units) {
    forall u, e :: u in w && e in w[u].edges ==> e.to in w
  }

  /** What a closing loop still owes: a unit of `into` that was not there at
      first has each normal dependency in `into` or pending. */
  ghost predicate Owed(w: Units, start: set<Unit>, into: set<Unit>, pending: seq<Unit>) {
    forall u, e :: u in into && u !in start && e in EdgesOf(w, u) && e.kind == Normal ==> e.to in into || e.to in pending
  }

  ghost predicate FromSome(w: Units, from: seq<Unit>, v: Unit) {
    exists u :: u in from && Under(w, u, v)
  }

  /** Adds to `start` the downward closure of `from` over normal edges. */
  method LinkedClosure(w: Units, from: seq<Unit>, start: set<Unit>) returns (into: set<Unit>)
    requires ClosedUnits(w) && forall u :: u in from ==> u in w
    ensures start <= into
    ensures forall v :: v in into && v !in start ==> FromSome(w, from, v)
    ensures NormalClosed(w, start) ==>
      NormalClosed(w, into) && forall v :: v in into <==> v in start || FromSome(w, from, v)
  {
    var pending := from;
    into := start;
    AllUnder(w, from);
    while pending != []
      invariant Closing(w, from, start, into, pending)
      decreases w.Keys - into, |pending|
    {
      var unit := pending[|pending| - 1];
      var rest := pending[..|pending| - 1];
      assert pending == rest + [unit];
      if unit in into {
        ClosingSkip(w, from, start, into, rest, unit);
        pending := rest;
        continue;
      }
      ClosingStep(w, from, start, into, rest, unit);
      Fewer(w.Keys, into, unit);
      into := into + {unit};
      pending := rest + Targets(EdgesOf(w, unit), Normal);
    }
    ClosingEnd(w, from, start, into);
  }

  /** Between `start` and the closure: `into` holds only what belongs there,
      and what is missing is pending or owed by what is pending. */
  ghost predicate Closing(w: Units, from: seq<Unit>, start: set<Unit>, into: set<Unit>, pending: seq<Unit>) {
    && start <= into && into - start <= w.Keys
    && (forall v :: v in into && v !in start ==> FromSome(w, from, v))
    && (forall v :: v in pending ==> v in w && FromSome(w, from, v))
    && (forall u :: u in from ==> u in into || u in pending)
    && Owed(w, start, into, pending)
  }

  lemma ClosingSkip(w: Units, from: seq<Unit>, start: set<Unit>, into: set<Unit>, rest: seq<Unit>, unit: Unit)
    requires Closing(w, from, start, into, rest + [unit]) && unit in into
    ensures Closing(w, from, start, into, rest)
  {
    forall v | v in rest ensures v in w && FromSome(w, from, v) {
      assert v in rest + [unit];
    }
  }

  lemma ClosingStep(w: Units, from: seq<Unit>, start: set<Unit>, into: set<Unit>, rest: seq<Unit>, unit: Unit)
    requires ClosedUnits(w) && Closing(w, from, start, into, rest + [unit])
    ensures unit in w
    ensures Closing(w, from, start, into + {unit}, rest + Targets(EdgesOf(w, unit), Normal))
  {
    var targets := Targets(EdgesOf(w, unit), Normal);
    assert unit in rest + [unit];
    FromSomeSteps(w, from, unit, targets);
    OwedStep(w, start, into, rest, unit);
    forall v | v in rest + targets ensures v in w && FromSome(w, from, v) {
      assert v in rest ==> v in rest + [unit];
    }
    forall u | u in from ensures u in into + {unit} || u in rest + targets {
      assert u in into || u in rest + [unit];
    }
  }

  lemma ClosingEnd(w: Units, from: seq<Unit>, start: set<Unit>, into: set<Unit>)
    requires Closing(w, from, start, into, [])
    ensures NormalClosed(w, start) ==>
      NormalClosed(w, into) && forall v :: v in into <==> v in start || FromSome(w, from, v)
  {
    if NormalClosed(w, start) {
      assert NormalClosed(w, into);
      forall v | FromSome(w, from, v) ensures v in into {
        var u :| u in from && Under(w, u, v);
      }
    }
  }

  lemma Fewer(all: set<Unit>, into: set<Unit>, unit: Unit)
    requires unit in all && unit !in into
    ensures all - (into + {unit}) < all - into
  {
    assert unit in all - into;
  }

  lemma AllUnder(w: Units, from: seq<Unit>)
    ensures forall u :: u in from ==> FromSome(w, from, u)
  {
    forall u | u in from ensures FromSome(w, from, u) {
      assert Under(w, u, u);
    }
  }

  lemma FromSomeSteps(w: Units, from: seq<Unit>, unit: Unit, targets: seq<Unit>)
    requires FromSome(w, from, unit) && targets == Targets(EdgesOf(w, unit), Normal)
    ensures forall v :: v in targets ==> FromSome(w, from, v)
  {
    var u :| u in from && Under(w, u, unit);
    forall v | v in targets ensures FromSome(w, from, v) {
      var e :| e in EdgesOf(w, unit) && e.kind == Normal && e.to == v;
      UnderStep(w, u, unit, e);
    }
  }

  lemma OwedStep(w: Units, start: set<Unit>, into: set<Unit>, rest: seq<Unit>, unit: Unit)
    requires Owed(w, start, into, rest + [unit])
    ensures Owed(w, start, into + {unit}, rest + Targets(EdgesOf(w, unit), Normal))
  {
    forall u, e | u in into + {unit} && u !in start && e in EdgesOf(w, u) && e.kind == Normal
      ensures e.to in into + {unit} || e.to in rest + Targets(EdgesOf(w, unit), Normal)
    {
      if u == unit {
        assert e.to in Targets(EdgesOf(w, unit), Normal);
      } else {
        assert e.to in into || e.to in rest + [unit];
      }
    }
  }

  /** Where the edges of one kind lead. */
  function Targets(edges: seq<Edge>, kind: Kind): (units: seq<Unit>)
    ensures forall v :: v in units <==> exists e :: e in edges && e.kind == kind && e.to == v
  {
    if edges == [] then []
    else
      assert forall e :: e in edges <==> e == edges[0] || e in edges[1..];
      (if edges[0].kind == kind then [edges[0].to] else []) + Targets(edges[1..], kind)
  }

  ghost predicate Needs(w: Units, u: Unit, kind: Kind, v: Unit) {
    exists e :: e in EdgesOf(w, u) && e.kind == kind && e.to == v
  }

  /** Some link that compiling `u` makes reads `v`, so `v` must be finished. */
  ghost predicate MustFinish(g: Locked, w: Units, u: Unit, v: Unit) {
    if u == ROOT then v in w && v != ROOT
    else
      || (exists b :: Needs(w, u, Build, b) && Under(w, b, v))
      || (g.Has(u) && g.Of(u).ProcMacro() && exists b :: Needs(w, u, Normal, b) && Under(w, b, v))
      || (g.Has(u) && !g.Of(u).ProcMacro() && Needs(w, u, Normal, v) && g.Has(v) && g.Of(v).ProcMacro())
  }

  /** Compiling `u` reads the interface of `v` only. */
  ghost predicate MustInterface(g: Locked, w: Units, u: Unit, v: Unit) {
    && u != ROOT && g.Has(u) && !g.Of(u).ProcMacro()
    && Needs(w, u, Normal, v) && g.Has(v) && !g.Of(v).ProcMacro()
  }

  ghost predicate RightWaits(g: Locked, w: Units, u: Unit, wait: Waits) {
    && (forall v :: v in wait.finished <==> MustFinish(g, w, u, v))
    && (forall v :: v in wait.interface <==> MustInterface(g, w, u, v))
  }

  lemma FromTargets(w: Units, u: Unit, kind: Kind, v: Unit)
    ensures FromSome(w, Targets(EdgesOf(w, u), kind), v) <==> exists b :: Needs(w, u, kind, b) && Under(w, b, v)
  {
    var targets := Targets(EdgesOf(w, u), kind);
    forall b ensures b in targets <==> Needs(w, u, kind, b) {}
    if FromSome(w, targets, v) {
      var b :| b in targets && Under(w, b, v);
      assert Needs(w, u, kind, b);
    }
  }

  /** Procedural macros among normal dependencies must be finished; of other
      libraries the interface is enough. */
  method Split(g: Locked, edges: seq<Edge>, start: set<Unit>) returns (interface: set<Unit>, finished: set<Unit>)
    requires forall e :: e in edges ==> g.Has(e.to)
    ensures forall v :: v in finished <==>
      v in start || (v in Targets(edges, Normal) && g.Has(v) && g.Of(v).ProcMacro())
    ensures forall v :: v in interface <==> v in Targets(edges, Normal) && g.Has(v) && !g.Of(v).ProcMacro()
  {
    finished := start;
    interface := {};
    for i := 0 to |edges|
      invariant forall v :: v in finished <==>
        v in start || (v in Targets(edges[..i], Normal) && g.Has(v) && g.Of(v).ProcMacro())
      invariant forall v :: v in interface <==>
        v in Targets(edges[..i], Normal) && g.Has(v) && !g.Of(v).ProcMacro()
    {
      TargetsOneMore(edges, i);
      if edges[i].kind.Normal? {
        if g.Of(edges[i].to).ProcMacro() {
          finished := finished + {edges[i].to};
        } else {
          interface := interface + {edges[i].to};
        }
      }
    }
    assert edges[..|edges|] == edges;
  }

  lemma TargetsOneMore(edges: seq<Edge>, i: nat)
    requires i < |edges|
    ensures forall v :: v in Targets(edges[..i + 1], Normal) <==>
      v in Targets(edges[..i], Normal) || (edges[i].kind == Normal && v == edges[i].to)
  {
    var more, fewer := edges[..i + 1], edges[..i];
    assert more == fewer + [edges[i]];
    forall v
      ensures v in Targets(more, Normal) <==> v in Targets(fewer, Normal) || (edges[i].kind == Normal && v == edges[i].to)
    {
      if v in Targets(more, Normal) {
        var e :| e in more && e.kind == Normal && e.to == v;
        assert e in fewer || e == edges[i];
      }
      if v in Targets(fewer, Normal) {
        var e :| e in fewer && e.kind == Normal && e.to == v;
        assert e in more;
      }
      assert edges[i] in more;
    }
  }

  /** What `u` waits for. */
  method WaitsOf(g: Locked, w: Units, order: seq<Unit>, u: Unit) returns (wait: Waits)
    requires g.Valid() && ValidUnits(g, w) && u in w && forall v :: v in order <==> v in w
    ensures RightWaits(g, w, u, wait)
  {
    if u == ROOT {
      return Waits({}, (set v | v in order && v != u));
    }
    var edges := w[u].edges;
    var finished := LinkedClosure(w, Targets(edges, Build), {});
    ghost var built := finished;
    var interface: set<Unit> := {};
    if g.Of(u).ProcMacro() {
      finished := LinkedClosure(w, Targets(edges, Normal), finished);
      RightForMacro(g, w, u, built, finished);
    } else {
      interface, finished := Split(g, edges, finished);
      RightForLibrary(g, w, u, built, interface, finished);
    }
    wait := Waits(interface, finished);
  }

  lemma RightForMacro(g: Locked, w: Units, u: Unit, built: set<Unit>, finished: set<Unit>)
    requires g.Has(u) && u != ROOT && g.Of(u).ProcMacro()
    requires forall v :: v in built <==> FromSome(w, Targets(EdgesOf(w, u), Build), v)
    requires forall v :: v in finished <==> v in built || FromSome(w, Targets(EdgesOf(w, u), Normal), v)
    ensures RightWaits(g, w, u, Waits({}, finished))
  {
    forall v ensures v in finished <==> MustFinish(g, w, u, v) {
      FromTargets(w, u, Build, v);
      FromTargets(w, u, Normal, v);
    }
  }

  lemma RightForLibrary(g: Locked, w: Units, u: Unit, built: set<Unit>, interface: set<Unit>, finished: set<Unit>)
    requires g.Has(u) && u != ROOT && !g.Of(u).ProcMacro()
    requires forall v :: v in built <==> FromSome(w, Targets(EdgesOf(w, u), Build), v)
    requires forall v :: v in finished <==>
      v in built || (v in Targets(EdgesOf(w, u), Normal) && g.Has(v) && g.Of(v).ProcMacro())
    requires forall v :: v in interface <==> v in Targets(EdgesOf(w, u), Normal) && g.Has(v) && !g.Of(v).ProcMacro()
    ensures RightWaits(g, w, u, Waits(interface, finished))
  {
    forall v ensures v in Targets(EdgesOf(w, u), Normal) <==> Needs(w, u, Normal, v) {}
    forall v ensures v in finished <==> MustFinish(g, w, u, v) {
      FromTargets(w, u, Build, v);
    }
  }

  /** Every unit a unit waits for comes before it. */
  lemma WaitsComeBefore(g: Locked, w: Units, order: seq<Unit>, k: nat, v: Unit)
    requires Topological(w, order) && k < |order|
    requires MustFinish(g, w, order[k], v) || MustInterface(g, w, order[k], v)
    ensures v in order[..k]
  {
    var u := order[k];
    if u == ROOT {
      assert k == |order| - 1;
      var i :| 0 <= i < |order| && order[i] == v;
      assert order[..k][i] == v;
    } else {
      var T := set t | t in order[..k];
      forall t, e | t in T && e in EdgesOf(w, t) ensures e.to in T {
        var i :| 0 <= i < k && order[..k][i] == t;
        assert order[i] == t;
        assert e.to in order[..i];
        assert order[..i] <= order[..k];
      }
      assert NormalClosed(w, T);
      forall b, kind | Needs(w, u, kind, b) ensures b in T {
        var e :| e in EdgesOf(w, u) && e.kind == kind && e.to == b;
      }
    }
  }
}
