/** The loop of `build`, over its own variables (kompilator/src/compile.rs). */
module Building {
  import opened Common
  import opened Features
  import opened Ordering
  import opened Waiting
  import opened Records
  import S = Scheduling

  datatype Failure = Failed(why: seq<string>) | Stuck(done: nat)

  class Loop {
    const plan: S.Plan
    var started: set<Unit>
    var interfaced: set<Unit>
    var done: set<Unit>
    var built: map<Unit, Built>
    var running: nat
    var failures: seq<string>
    var compiled: nat
    var reused: nat
    ghost var spawned: seq<Unit>
    ghost var given: map<Unit, map<Unit, Built>>
    ghost var ended: set<Unit>

    ghost function Now(): S.Status
      reads this
    {
      S.Status(spawned, given, started, ended, interfaced, done, built, running, failures, compiled, reused)
    }

    constructor (plan: S.Plan)
      ensures this.plan == plan && Now() == S.IDLE
    {
      this.plan := plan;
      started, interfaced, done, built := {}, {}, {}, map[];
      running, failures, compiled, reused := 0, [], 0, 0;
      spawned, given, ended := [], map[], {};
    }

    /** Start every unit that is ready, as many as there are jobs. */
    method StartReady()
      requires forall u :: u in plan.order ==> u in plan.waits
      modifies this
      ensures Now() == S.Start(plan, old(Now()))
    {
      if failures != [] { return; }
      var i := 0;
      while i < |plan.order|
        invariant i <= |plan.order|
        invariant S.StartFrom(plan, Now(), i) == S.StartFrom(plan, old(Now()), 0)
      {
        if running >= plan.jobs { return; }
        var unit := plan.order[i];
        i := i + 1;
        if unit in started { continue; }
        var wait := plan.waits[unit];
        if !(wait.finished <= done && wait.interface <= interfaced + done) { continue; }
        started := started + {unit};
        running := running + 1;
        spawned, given := spawned + [unit], given[unit := built];
      }
    }

    /** Take in what a unit tells. */
    method Receive(event: S.Event)
      requires running > 0
      modifies this
      ensures Now() == S.Receive(old(Now()), event)
    {
      match event {
        case Meta(unit, early) =>
          interfaced := interfaced + {unit};
          if unit !in built { built := built[unit := early]; }
        case Done(unit, result) =>
          running := running - 1;
          ended := ended + {unit};
          match result {
            case Ok(finished) =>
              if finished.reused { reused := reused + 1; } else { compiled := compiled + 1; }
              built := built[unit := finished];
              interfaced := interfaced + {unit};
              done := done + {unit};
            case Err(why) => failures := failures + [why];
          }
      }
    }
  }

  method AllWaits(g: Locked, units: Units, order: seq<Unit>) returns (waits: map<Unit, Waits>)
    requires g.Valid() && ValidUnits(g, units) && forall u :: u in order <==> u in units
    ensures waits.Keys == units.Keys && forall u :: u in units ==> RightWaits(g, units, u, waits[u])
  {
    waits := map[];
    for i := 0 to |order|
      invariant waits.Keys == set u | u in order[..i]
      invariant forall u :: u in waits ==> RightWaits(g, units, u, waits[u])
    {
      assert order[i] in order && order[..i + 1] == order[..i] + [order[i]];
      var wait := WaitsOf(g, units, order, order[i]);
      waits := waits[order[i] := wait];
    }
    assert order[..|order|] == order;
  }

  /** The order and the waits of every unit. */
  method Planned(g: Locked, units: Units, jobs: nat) returns (plan: S.Plan)
    requires g.Valid() && ValidUnits(g, units) && Rooted(units) && Acyclic(units) && jobs >= 1
    ensures plan.Valid() && plan.g == g && plan.units == units && plan.jobs == jobs
  {
    var order := Order(units);
    var waits := AllWaits(g, units, order);
    plan := S.Plan(g, units, order, waits, jobs);
  }

  /** The loop over all that the tasks send until none runs: the two counts, or
      the failures. */
  method Build(plan: S.Plan, events: seq<S.Event>) returns (result: Result<(nat, nat), Failure>)
    requires plan.Valid() && S.LegalRun(plan, S.IDLE, events) && S.Play(plan, S.IDLE, events).running == 0
    ensures result.Ok? <==> S.Play(plan, S.IDLE, events).failures == []
    ensures result.Ok? ==> result.value.0 + result.value.1 == |plan.order|
    ensures result.Err? ==> result.error == Failed(S.Play(plan, S.IDLE, events).failures)
  {
    var steps := new Loop(plan);
    var next := 0;
    ghost var last := S.Play(plan, S.IDLE, events);
    while true
      invariant steps.plan == plan && next <= |events|
      invariant S.LegalRun(plan, steps.Now(), events[next..])
      invariant S.Play(plan, steps.Now(), events[next..]) == last
      decreases |events| - next
    {
      steps.StartReady();
      if steps.running == 0 { break; }
      assert events[next..] != [];
      assert events[next..][0] == events[next] && events[next..][1..] == events[next + 1..];
      steps.Receive(events[next]);
      next := next + 1;
    }
    assert steps.Now() == last;
    if steps.failures != [] {
      return Err(Failed(steps.failures));
    }
    var finished := |steps.done|;
    result := if finished == |plan.order| then Ok((steps.compiled, steps.reused)) else Err(Stuck(finished));
    S.Outcome(plan, events);
  }
}
