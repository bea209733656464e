/** A run in which a finished library stands above one that is not finished
    (kompilator/src/compile.rs, `build`). */
module Pipelining {
  import opened Common
  import opened Manifests
  import opened Features
  import opened Ordering
  import opened Waiting
  import opened Records
  import opened Scheduling

  const UPPER := Unit(1, false)

  const LOWER := Unit(2, false)

  function Library(name: string, dependencies: seq<Dependency>): Manifest {
    Manifest(name, "1", Some(Manifests.Lib(name, false)), false, map[], dependencies)
  }

  function Line(name: string): Dependency { Dependency(name, name, None, false, false, [], Normal, None) }

  /** The root above `u`, and `u` above `l`. */
  const LOCKED := Locked(
    [Library("r", [Line("u")]), Library("u", [Line("l")]), Library("l", [])],
    [[Some(1)], [Some(2)], []])

  const TO_UPPER := Edge("u", Normal, UPPER)

  const TO_LOWER := Edge("l", Normal, LOWER)

  const UNITS: Units := map[
    ROOT := State({}, [TO_UPPER], []), UPPER := State({}, [TO_LOWER], []), LOWER := State({}, [], [])]

  const WAITS: map<Unit, Waits> := map[
    ROOT := Waits({}, {UPPER, LOWER}), UPPER := Waits({LOWER}, {}), LOWER := Waits({}, {})]

  const ORDER := [LOWER, UPPER, ROOT]

  const PLAN := Plan(LOCKED, UNITS, ORDER, WAITS, 2)

  /** What compiling either library hands over. */
  const BUILT := Built(Some(("u", "u.rlib")), Some("u.rmeta"), [], [], [], [], false)

  lemma LockedIsValid()
    ensures LOCKED.Valid() && ValidUnits(LOCKED, UNITS)
  {
  }

  lemma EdgesAre()
    ensures EdgesOf(UNITS, LOWER) == [] && EdgesOf(UNITS, UPPER) == [TO_LOWER] && EdgesOf(UNITS, ROOT) == [TO_UPPER]
  {
  }

  lemma OrderIsTopological()
    ensures Topological(UNITS, ORDER)
  {
    EdgesAre();
    forall k, e | 0 <= k < |ORDER| && e in EdgesOf(UNITS, ORDER[k]) ensures e.to in ORDER[..k] {
      if k == 1 { assert ORDER[..1][0] == LOWER; }
      if k == 2 { assert ORDER[..2][1] == UPPER; }
    }
    assert ORDER[0] == LOWER && ORDER[1] == UPPER && ORDER[2] == ROOT;
  }

  lemma WaitsAreRight(u: Unit)
    requires u in UNITS
    ensures RightWaits(LOCKED, UNITS, u, WAITS[u])
  {
    EdgesAre();
    forall v ensures v in WAITS[u].finished <==> MustFinish(LOCKED, UNITS, u, v) {}
    forall v ensures v in WAITS[u].interface <==> MustInterface(LOCKED, UNITS, u, v) {
      assert TO_LOWER in EdgesOf(UNITS, UPPER);
    }
  }

  lemma PlanIsValid()
    ensures PLAN.Valid()
  {
    LockedIsValid();
    OrderIsTopological();
    forall u | u in UNITS ensures RightWaits(LOCKED, UNITS, u, WAITS[u]) { WaitsAreRight(u); }
  }

  /** Any plan of two libraries and the root, one above the other. */
  ghost predicate IsChain(plan: Plan, upper: Unit, lower: Unit) {
    && plan.order == [lower, upper, ROOT] && upper != lower && upper != ROOT && lower != ROOT && plan.jobs >= 2
    && plan.waits.Keys == {lower, upper, ROOT}
    && plan.waits[lower] == Waits({}, {}) && plan.waits[upper] == Waits({lower}, {}) && lower in plan.waits[ROOT].finished
    && plan.Pipelined(lower)
  }

  lemma ChainStarts(plan: Plan, upper: Unit, lower: Unit)
    requires IsChain(plan, upper, lower)
    ensures Start(plan, IDLE) == Spawn(IDLE, lower)
  {
    var s := Spawn(IDLE, lower);
    assert StartFrom(plan, s, 3) == s;
    assert plan.order[2] == ROOT && !Ready(plan, s, ROOT);
    assert StartFrom(plan, s, 2) == s;
    assert plan.order[1] == upper && !Ready(plan, s, upper);
    assert StartFrom(plan, s, 1) == s;
    assert plan.order[0] == lower && Ready(plan, IDLE, lower);
  }

  lemma ChainGoesOn(plan: Plan, upper: Unit, lower: Unit, s: Status)
    requires IsChain(plan, upper, lower)
    requires s.started == {lower} && s.interfaced == {lower} && s.done == {} && s.running == 1 && s.failures == []
    ensures Start(plan, s) == Spawn(s, upper)
  {
    var s' := Spawn(s, upper);
    assert StartFrom(plan, s', 3) == s';
    assert plan.order[2] == ROOT && !Ready(plan, s', ROOT);
    assert StartFrom(plan, s', 2) == s';
    assert plan.order[1] == upper && Ready(plan, s, upper);
    assert StartFrom(plan, s, 1) == s';
    assert plan.order[0] == lower && lower in s.started;
  }

  lemma ChainEnds(plan: Plan, upper: Unit, lower: Unit, s: Status)
    requires IsChain(plan, upper, lower)
    requires s.started == {lower, upper} && s.done == {upper} && s.failures == []
    ensures Start(plan, s) == s
  {
    assert StartFrom(plan, s, 3) == s;
    assert plan.order[2] == ROOT && !Ready(plan, s, ROOT);
    assert StartFrom(plan, s, 2) == s;
    assert plan.order[1] == upper && upper in s.started;
    assert StartFrom(plan, s, 1) == s;
    assert plan.order[0] == lower && lower in s.started;
  }

  /** The lower library tells its interface, and the upper one ends first. */
  function Events(upper: Unit, lower: Unit, b: Built): seq<Event> { [Meta(lower, b), Done(upper, Ok(b))] }

  lemma ChainRuns(plan: Plan, upper: Unit, lower: Unit, b: Built)
    requires IsChain(plan, upper, lower) && plan.Describes(lower, b) && plan.Describes(upper, b)
    ensures forall u :: u in plan.order ==> u in plan.waits
    ensures LegalRun(plan, IDLE, Events(upper, lower, b))
    ensures var s := Play(plan, IDLE, Events(upper, lower, b)); s.done == {upper} && s.started == {lower, upper}
  {
    var events := Events(upper, lower, b);
    ChainStarts(plan, upper, lower);
    var s1 := Receive(Start(plan, IDLE), events[0]);
    ChainGoesOn(plan, upper, lower, s1);
    var s2 := Receive(Start(plan, s1), events[1]);
    ChainEnds(plan, upper, lower, s2);
    assert events[1..] == [Done(upper, Ok(b))] && events[1..][1..] == [];
    assert LegalRun(plan, s2, []) && Play(plan, s2, []) == s2;
    assert LegalRun(plan, s1, events[1..]) && Play(plan, s1, events[1..]) == s2;
  }

  /** The loop can wait with a library finished and one under it not: finished
      units are not closed under normal dependencies, as interfaces are, so a
      link must wait for everything under what it links. */
  lemma DoneNeedNotBeClosed()
    ensures exists s :: Reachable(PLAN, s) && !NormalClosed(PLAN.units, s.done)
  {
    PlanIsValid();
    ChainRuns(PLAN, UPPER, LOWER, BUILT);
    EdgesAre();
    var s := Play(PLAN, IDLE, Events(UPPER, LOWER, BUILT));
    assert Reachable(PLAN, s);
    assert UPPER in s.done && TO_LOWER in EdgesOf(PLAN.units, UPPER) && LOWER !in s.done;
  }
}
