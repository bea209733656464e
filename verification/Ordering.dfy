/** The order units are compiled in (kompilator/src/resolve.rs, `order`). */
module Ordering {
  import opened Features
  import opened FeatureReach

  /** What the walk holds: its stack, the units put out, and their order. */
  datatype Walk = Walk(stack: seq<(Unit, bool)>, done: set<Unit>, out: seq<Unit>)

  const START := Walk([(ROOT, false)], {}, [])

  function EdgesOf(w: Units, u: Unit): seq<Edge> {
    if u in w then w[u].edges else []
  }

  /** The entries pushed for the edges whose units are not done. */
  function Pushed(edges: seq<Edge>, done: set<Unit>): (entries: seq<(Unit, bool)>)
    ensures forall x :: x in entries <==> !x.1 && x.0 !in done && exists e :: e in edges && e.to == x.0
  {
    if edges == [] then []
    else
      var last := edges[|edges| - 1];
      var rest := Pushed(edges[..|edges| - 1], done);
      assert forall e :: e in edges <==> e == last || e in edges[..|edges| - 1];
      rest + if last.to in done then [] else [(last.to, false)]
  }

  /** One round of the walk. */
  function Step(w: Units, s: Walk): Walk
    requires s.stack != []
  {
    var (unit, expanded) := s.stack[|s.stack| - 1];
    var below := s.stack[..|s.stack| - 1];
    if unit in s.done then s.(stack := below)
    else if expanded then Walk(below, s.done + {unit}, s.out + [unit])
    else s.(stack := below + [(unit, true)] + Pushed(EdgesOf(w, unit), s.done))
  }

  function Steps(w: Units, s: Walk, n: nat): Walk
    decreases n
  {
    if n == 0 || s.stack == [] then s else Steps(w, Step(w, s), n - 1)
  }

  /** The walk comes to an end. */
  ghost predicate Ends(w: Units, s: Walk) {
    exists n: nat :: Steps(w, s, n).stack == []
  }

  /** Each unit after all it depends on. */
  ghost predicate Sorted(w: Units, out: seq<Unit>) {
    forall k, e :: 0 <= k < |out| && e in EdgesOf(w, out[k]) ==> e.to in out[..k]
  }

  ghost predicate Once(out: seq<Unit>) {
    forall i, j :: 0 <= i < j < |out| ==> out[i] != out[j]
  }

  /** Every unit once, each after all it depends on, the root last. */
  ghost predicate Topological(w: Units, out: seq<Unit>) {
    && Once(out) && Sorted(w, out)
    && (forall u :: u in out <==> u in w)
    && |out| > 0 && out[|out| - 1] == ROOT
  }

  /** A unit graph as the resolver leaves it. */
  ghost predicate Rooted(w: Units) {
    && ROOT in w
    && (forall u, e :: u in w && e in w[u].edges ==> e.to in w)
    && (forall u :: u in w ==> Reaches(w, ROOT, u))
  }

  /** `rank` goes down along every edge: there is no cycle. */
  ghost predicate Ranks(w: Units, rank: map<Unit, nat>) {
    forall u, e :: u in w && e in w[u].edges ==> u in rank && e.to in rank && rank[e.to] < rank[u]
  }

  ghost predicate Acyclic(w: Units) {
    exists rank :: Ranks(w, rank)
  }

  // ----------------------------------------------------- what a walk keeps

  ghost predicate Awaited(s: Walk, i: int, u: Unit) {
    u in s.done || exists j :: 0 <= j < |s.stack| && i < j && s.stack[j].0 == u
  }

  /** In every state of the walk, whatever the graph. */
  ghost predicate Inv(w: Units, s: Walk) {
    && Once(s.out) && Sorted(w, s.out)
    && (forall u :: u in s.done <==> u in s.out)
    && (forall u :: u in s.done ==> u in w)
    && (forall i :: 0 <= i < |s.stack| ==> s.stack[i].0 in w)
    && Awaited(s, -1, ROOT)
    && (forall i, e :: 0 <= i < |s.stack| && s.stack[i].1 && e in EdgesOf(w, s.stack[i].0) ==> Awaited(s, i, e.to))
  }

  lemma StepKeepsInv(w: Units, s: Walk)
    requires Rooted(w) && Inv(w, s) && s.stack != []
    ensures Inv(w, Step(w, s))
  {
    var top := |s.stack| - 1;
    if s.stack[top].0 in s.done {
      PopKeepsAwaited(s, Step(w, s));
    } else if s.stack[top].1 {
      PopKeepsAwaited(s, Step(w, s));
      OutStaysSorted(w, s);
    } else {
      PushKeepsInv(w, s);
    }
  }

  /** Popping a unit that is done leaves every other awaited. */
  lemma PopKeepsAwaited(s: Walk, s': Walk)
    requires s.stack != [] && s'.stack == s.stack[..|s.stack| - 1]
    requires s.stack[|s.stack| - 1].0 in s'.done && s.done <= s'.done
    ensures forall i, u :: i < |s'.stack| && Awaited(s, i, u) ==> Awaited(s', i, u)
  {
    forall i, u | i < |s'.stack| && Awaited(s, i, u) ensures Awaited(s', i, u) {
      if u !in s'.done {
        var j :| 0 <= j < |s.stack| && i < j && s.stack[j].0 == u;
        assert s'.stack[j].0 == u;
      }
    }
  }

  lemma OutStaysSorted(w: Units, s: Walk)
    requires Inv(w, s) && s.stack != [] && s.stack[|s.stack| - 1].1
    ensures Sorted(w, s.out + [s.stack[|s.stack| - 1].0])
  {
    var top := |s.stack| - 1;
    var out := s.out + [s.stack[top].0];
    forall k, e | 0 <= k < |out| && e in EdgesOf(w, out[k]) ensures e.to in out[..k] {
      if k < |s.out| {
        assert out[..k] == s.out[..k];
      } else {
        assert out[..k] == s.out;
        assert Awaited(s, top, e.to);
      }
    }
  }

  /** The walk is about to push what its top unit's edges lead to. */
  ghost predicate Pushes(w: Units, s: Walk) {
    && Rooted(w) && Inv(w, s) && s.stack != []
    && var (u, expanded) := s.stack[|s.stack| - 1]; u !in s.done && !expanded
  }

  lemma PushKeepsStack(w: Units, s: Walk)
    requires Pushes(w, s)
    ensures var s', top := Step(w, s), |s.stack| - 1;
      && s'.done == s.done && s'.out == s.out && |s'.stack| >= |s.stack|
      && s'.stack[|s.stack|..] == Pushed(EdgesOf(w, s.stack[top].0), s.done)
      && (forall j :: 0 <= j <= top ==> s'.stack[j].0 == s.stack[j].0)
      && (forall j :: 0 <= j < top ==> s'.stack[j] == s.stack[j])
  {
  }

  lemma PushKeepsAwaits(w: Units, s: Walk, i: int, u: Unit)
    requires Pushes(w, s) && i < |s.stack| - 1 && Awaited(s, i, u)
    ensures Awaited(Step(w, s), i, u)
  {
    PushKeepsStack(w, s);
    if u !in s.done {
      var j :| 0 <= j < |s.stack| && i < j && s.stack[j].0 == u;
      assert Step(w, s).stack[j].0 == u;
    }
  }

  lemma PushAwaitsEdges(w: Units, s: Walk, e: Edge)
    requires Pushes(w, s) && e in EdgesOf(w, s.stack[|s.stack| - 1].0)
    ensures Awaited(Step(w, s), |s.stack| - 1, e.to)
  {
    PushKeepsStack(w, s);
    if e.to !in s.done {
      var s' := Step(w, s);
      var pushed := s'.stack[|s.stack|..];
      assert (e.to, false) in pushed;
      var k :| 0 <= k < |pushed| && pushed[k] == (e.to, false);
      assert s'.stack[|s.stack| + k].0 == e.to;
    }
  }

  lemma PushKeepsInv(w: Units, s: Walk)
    requires Pushes(w, s)
    ensures Inv(w, Step(w, s))
  {
    var s', top := Step(w, s), |s.stack| - 1;
    PushKeepsStack(w, s);
    PushKeepsAwaits(w, s, -1, ROOT);
    PushedAreUnits(w, s.stack[top].0, s.done);
    forall i | 0 <= i < |s'.stack| ensures s'.stack[i].0 in w && (s'.stack[i].1 ==> i <= top) {
      if i > top { assert s'.stack[i] == s'.stack[|s.stack|..][i - top - 1]; }
    }
    forall i, e | 0 <= i < |s'.stack| && s'.stack[i].1 && e in EdgesOf(w, s'.stack[i].0) ensures Awaited(s', i, e.to) {
      if i < top { PushKeepsAwaits(w, s, i, e.to); } else { PushAwaitsEdges(w, s, e); }
    }
  }

  lemma PushedAreUnits(w: Units, u: Unit, done: set<Unit>)
    requires Rooted(w)
    ensures forall k :: 0 <= k < |Pushed(EdgesOf(w, u), done)| ==>
      Pushed(EdgesOf(w, u), done)[k].0 in w && !Pushed(EdgesOf(w, u), done)[k].1
  {
    var pushed := Pushed(EdgesOf(w, u), done);
    forall k | 0 <= k < |pushed| ensures pushed[k].0 in w && !pushed[k].1 {
      assert pushed[k] in pushed;
    }
  }

  lemma StartsInv(w: Units)
    requires Rooted(w)
    ensures Inv(w, START)
  {
    assert START.stack[0].0 == ROOT;
  }

  // ------------------------------------------------------------ at the end

  /** Whatever the root reaches stands no later than the root. */
  lemma UpToTheRoot(w: Units, out: seq<Unit>, k: nat)
    requires Sorted(w, out) && k < |out| && out[k] == ROOT && forall u :: u in w ==> Reaches(w, ROOT, u)
    ensures forall u :: u in w ==> exists i :: 0 <= i <= k && out[i] == u
  {
    var upTo := out[..k + 1];
    var S := iset u: Unit | u in upTo;
    forall v, e | v in S && v in w && e in w[v].edges ensures e.to in S {
      var i :| 0 <= i <= k && upTo[i] == v;
      assert out[i] == v && e in EdgesOf(w, out[i]);
      assert e.to in out[..i];
      var j :| 0 <= j < i && out[..i][j] == e.to;
      assert upTo[j] == e.to;
    }
    assert upTo[k] == ROOT;
    assert ClosedUnder(w, S) && ROOT in S;
    forall u | u in w ensures exists i :: 0 <= i <= k && out[i] == u {
      assert u in upTo;
      var i :| 0 <= i <= k && upTo[i] == u;
      assert out[i] == u;
    }
  }

  lemma EndIsTopological(w: Units, s: Walk)
    requires Rooted(w) && Inv(w, s) && s.stack == []
    ensures Topological(w, s.out)
  {
    assert ROOT in s.out;
    var k :| 0 <= k < |s.out| && s.out[k] == ROOT;
    UpToTheRoot(w, s.out, k);
    var last := |s.out| - 1;
    assert s.out[last] in s.out;
    var i :| 0 <= i <= k && s.out[i] == s.out[last];
    assert i == last;
  }

  lemma {:induction false} StepsKeepInv(w: Units, s: Walk, n: nat)
    requires Rooted(w) && Inv(w, s)
    ensures Inv(w, Steps(w, s, n))
    decreases n
  {
    if n != 0 && s.stack != [] {
      StepKeepsInv(w, s);
      StepsKeepInv(w, Step(w, s), n - 1);
    }
  }

  /** A topological order ranks the units, so there is no cycle. */
  lemma TopologicalIsAcyclic(w: Units, out: seq<Unit>)
    requires Rooted(w) && Topological(w, out)
    ensures Acyclic(w)
  {
    var rank := map u | u in w :: Position(out, u);
    forall u, e | u in w && e in w[u].edges ensures rank[e.to] < rank[u] {
      assert u in out;
      var k := Position(out, u);
      assert e in EdgesOf(w, out[k]);
      assert e.to in out[..k];
      var j :| 0 <= j < k && out[j] == e.to;
      assert Position(out, e.to) <= j;
    }
    assert Ranks(w, rank);
  }

  ghost function Position(out: seq<Unit>, u: Unit): (k: nat)
    ensures k <= |out|
    ensures u in out ==> k < |out| && out[k] == u
    ensures forall j :: 0 <= j < k && j < |out| ==> out[j] != u
  {
    if out == [] || out[0] == u then 0 else 1 + Position(out[1..], u)
  }

  // ----------------------------------------------------------- termination

  /** The rounds a unit can cost: its own two, and those of what it pushes. */
  ghost function Cost(w: Units, rank: map<Unit, nat>, u: Unit): nat
    requires Ranks(w, rank)
    decreases if u in rank then rank[u] else 0, 0
  {
    if u in w then 2 + CostOf(w, rank, u, w[u].edges) else 2
  }

  ghost function CostOf(w: Units, rank: map<Unit, nat>, u: Unit, edges: seq<Edge>): nat
    requires Ranks(w, rank) && u in w && forall e :: e in edges ==> e in w[u].edges
    decreases if u in rank then rank[u] else 0, 0, |edges|
  {
    if edges == [] then 0
    else
      var last := edges[|edges| - 1];
      assert last in edges;
      CostOf(w, rank, u, edges[..|edges| - 1]) + Cost(w, rank, last.to)
  }

  ghost function StackCost(w: Units, rank: map<Unit, nat>, stack: seq<(Unit, bool)>): nat
    requires Ranks(w, rank)
  {
    if stack == [] then 0
    else
      var (u, expanded) := stack[|stack| - 1];
      StackCost(w, rank, stack[..|stack| - 1]) + if expanded then 1 else Cost(w, rank, u)
  }

  lemma {:induction false} StackCostAdds(w: Units, rank: map<Unit, nat>, stack: seq<(Unit, bool)>, more: seq<(Unit, bool)>)
    requires Ranks(w, rank)
    ensures StackCost(w, rank, stack + more) == StackCost(w, rank, stack) + StackCost(w, rank, more)
    decreases |more|
  {
    if more == [] {
      assert stack + more == stack;
    } else {
      var all := stack + more;
      assert all[..|all| - 1] == stack + more[..|more| - 1];
      StackCostAdds(w, rank, stack, more[..|more| - 1]);
    }
  }

  lemma {:induction false} PushedCost(w: Units, rank: map<Unit, nat>, u: Unit, edges: seq<Edge>, done: set<Unit>)
    requires Ranks(w, rank) && u in w && forall e :: e in edges ==> e in w[u].edges
    ensures StackCost(w, rank, Pushed(edges, done)) <= CostOf(w, rank, u, edges)
    decreases |edges|
  {
    if edges != [] {
      var last := edges[|edges| - 1];
      var rest := edges[..|edges| - 1];
      assert last in edges && forall e :: e in rest ==> e in edges;
      PushedCost(w, rank, u, rest, done);
      var more := if last.to in done then [] else [(last.to, false)];
      StackCostAdds(w, rank, Pushed(rest, done), more);
      if last.to !in done {
        assert more[..0] == [];
        assert StackCost(w, rank, more) == Cost(w, rank, last.to);
      }
    }
  }

  lemma StepCostsLess(w: Units, rank: map<Unit, nat>, s: Walk)
    requires Ranks(w, rank) && s.stack != []
    ensures StackCost(w, rank, Step(w, s).stack) < StackCost(w, rank, s.stack)
  {
    var (unit, expanded) := s.stack[|s.stack| - 1];
    var below := s.stack[..|s.stack| - 1];
    if unit !in s.done && !expanded {
      var pushed := Pushed(EdgesOf(w, unit), s.done);
      StackCostAdds(w, rank, below + [(unit, true)], pushed);
      StackCostAdds(w, rank, below, [(unit, true)]);
      assert [(unit, true)][..0] == [];
      assert StackCost(w, rank, [(unit, true)]) == 1;
      if unit in w {
        PushedCost(w, rank, unit, w[unit].edges, s.done);
      } else {
        assert pushed == [];
      }
    }
  }

  lemma {:induction false} RankedEnds(w: Units, rank: map<Unit, nat>, s: Walk)
    requires Ranks(w, rank)
    ensures Ends(w, s)
    decreases StackCost(w, rank, s.stack)
  {
    if s.stack == [] {
      assert Steps(w, s, 0).stack == [];
    } else {
      StepCostsLess(w, rank, s);
      RankedEnds(w, rank, Step(w, s));
      var n: nat :| Steps(w, Step(w, s), n).stack == [];
      assert Steps(w, s, n + 1) == Steps(w, Step(w, s), n);
    }
  }

  /** The walk from the root ends exactly when the units have no cycle. */
  lemma EndsIffAcyclic(w: Units)
    requires Rooted(w)
    ensures Ends(w, START) <==> Acyclic(w)
  {
    if Ends(w, START) {
      var n: nat :| Steps(w, START, n).stack == [];
      StartsInv(w);
      StepsKeepInv(w, START, n);
      EndIsTopological(w, Steps(w, START, n));
      TopologicalIsAcyclic(w, Steps(w, START, n).out);
    }
    if Acyclic(w) {
      var rank :| Ranks(w, rank);
      RankedEnds(w, rank, START);
    }
  }

  method Push(stack: seq<(Unit, bool)>, edges: seq<Edge>, done: set<Unit>) returns (pushed: seq<(Unit, bool)>)
    ensures pushed == stack + Pushed(edges, done)
  {
    pushed := stack;
    for i := 0 to |edges|
      invariant pushed == stack + Pushed(edges[..i], done)
    {
      assert edges[..i + 1][..i] == edges[..i];
      if edges[i].to !in done {
        pushed := pushed + [(edges[i].to, false)];
      }
    }
    assert edges[..|edges|] == edges;
  }

  /** The walk with its stack, run to its end; the rank shows that it ends. */
  method Order(w: Units) returns (out: seq<Unit>)
    requires Rooted(w) && Acyclic(w)
    ensures Topological(w, out)
  {
    ghost var rank :| Ranks(w, rank);
    var done: set<Unit> := {};
    out := [];
    var stack := [(ROOT, false)];
    StartsInv(w);
    while stack != []
      invariant Inv(w, Walk(stack, done, out))
      decreases StackCost(w, rank, stack)
    {
      ghost var before := Walk(stack, done, out);
      StepKeepsInv(w, before);
      StepCostsLess(w, rank, before);
      var (unit, expanded) := stack[|stack| - 1];
      stack := stack[..|stack| - 1];
      if unit in done {
        continue;
      }
      if expanded {
        done := done + {unit};
        out := out + [unit];
        continue;
      }
      stack := Push(stack + [(unit, true)], EdgesOf(w, unit), done);
      assert Walk(stack, done, out) == Step(w, before);
    }
    EndIsTopological(w, Walk(stack, done, out));
  }

  /** What the resolver leaves can be ordered, unless it has a cycle. */
  lemma ResolvedIsRooted(g: Locked, asked: seq<string>)
    requires g.Valid() && Resolve(g, asked).error.None?
    ensures Rooted(Resolve(g, asked).units)
  {
    EveryUnitIsReached(g, asked);
    ResolveLocal(g, asked);
  }
}
