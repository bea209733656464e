/** The event loop that compiles every unit (kompilator/src/compile.rs,
    `build`), and what holds in every state it can reach. */
module Scheduling {
  import opened Common
  import opened Manifests
  import opened Features
  import opened Ordering
  import opened Waiting
  import opened Records

  datatype Plan = Plan(g: Locked, units: Units, order: seq<Unit>, waits: map<Unit, Waits>, jobs: nat) {
    ghost predicate Valid() {
      && g.Valid() && ValidUnits(g, units) && Topological(units, order) && jobs >= 1
      && waits.Keys == units.Keys
      && forall u :: u in units ==> RightWaits(g, units, u, waits[u])
    }

    /** A library whose interface is written before it is finished. */
    ghost predicate Pipelined(u: Unit) {
      g.Has(u) && g.Of(u).lib.Some? && !g.Of(u).ProcMacro()
    }

    /** What compiling `u` may hand over. */
    ghost predicate Describes(u: Unit, b: Built) {
      && (b.lib.Some? <==> g.Has(u) && g.Of(u).lib.Some?)
      && (b.meta.Some? <==> Pipelined(u))
    }
  }

  datatype Event =
    | Meta(unit: Unit, early: Built)
    | Done(unit: Unit, result: Result<Built, string>)

  /** The loop's variables, with a log of what it spawned, what each task was
      given, and the tasks that ended. */
  datatype Status = Status(
    spawned: seq<Unit>,
    given: map<Unit, map<Unit, Built>>,
    started: set<Unit>,
    ended: set<Unit>,
    interfaced: set<Unit>,
    done: set<Unit>,
    built: map<Unit, Built>,
    running: nat,
    failures: seq<string>,
    compiled: nat,
    reused: nat)

  const IDLE := Status([], map[], {}, {}, {}, {}, map[], 0, [], 0, 0)

  predicate Ready(plan: Plan, s: Status, u: Unit)
    requires u in plan.waits
  {
    plan.waits[u].finished <= s.done && plan.waits[u].interface <= s.interfaced + s.done
  }

  function Spawn(s: Status, u: Unit): Status {
    s.(spawned := s.spawned + [u], given := s.given[u := s.built], started := s.started + {u}, running := s.running + 1)
  }

  /** Start `u`, unless it was started or is not ready. */
  function StartAt(plan: Plan, s: Status, u: Unit): Status
    requires u in plan.waits
  {
    if u in s.started || !Ready(plan, s, u) then s else Spawn(s, u)
  }

  /** Start what is ready from place `i` of the order on. */
  function StartFrom(plan: Plan, s: Status, i: nat): Status
    requires i <= |plan.order| && forall u :: u in plan.order ==> u in plan.waits
    decreases |plan.order| - i
  {
    if i == |plan.order| || s.running >= plan.jobs then s else StartFrom(plan, StartAt(plan, s, plan.order[i]), i + 1)
  }

  function Start(plan: Plan, s: Status): Status
    requires forall u :: u in plan.order ==> u in plan.waits
  {
    if s.failures == [] then StartFrom(plan, s, 0) else s
  }

  function Receive(s: Status, e: Event): Status
    requires s.running > 0
  {
    match e
    case Meta(u, early) =>
      s.(interfaced := s.interfaced + {u}, built := if u in s.built then s.built else s.built[u := early])
    case Done(u, Ok(b)) =>
      s.(running := s.running - 1, ended := s.ended + {u},
         reused := if b.reused then s.reused + 1 else s.reused,
         compiled := if b.reused then s.compiled else s.compiled + 1,
         built := s.built[u := b], interfaced := s.interfaced + {u}, done := s.done + {u})
    case Done(u, Err(why)) =>
      s.(running := s.running - 1, ended := s.ended + {u}, failures := s.failures + [why])
  }

  /** The events a task may send: interfaces of a pipelined library while it
      runs, then one end. */
  ghost predicate Legal(plan: Plan, s: Status, e: Event) {
    && e.unit in s.started && e.unit !in s.ended
    && match e
       case Meta(u, early) => plan.Pipelined(u) && plan.Describes(u, early)
       case Done(u, result) => result.Ok? ==> plan.Describes(u, result.value)
  }

  // -------------------------------------------------------- the invariant

  ghost predicate Counted(plan: Plan, s: Status) {
    && Once(s.spawned) && (forall u :: u in s.spawned <==> u in s.started)
    && s.started <= plan.units.Keys && s.ended <= s.started && s.done <= s.ended
    && s.running == |s.started| - |s.ended| && s.running <= plan.jobs
    && |s.failures| == |s.ended| - |s.done|
    && s.compiled + s.reused == |s.done|
  }

  ghost predicate Interfaced(plan: Plan, s: Status) {
    && s.interfaced <= s.started && s.done <= s.interfaced && s.built.Keys == s.interfaced
    && (forall v :: v in s.interfaced ==> plan.Describes(v, s.built[v]))
    && (forall v :: v in s.interfaced && v !in s.done ==> plan.Pipelined(v))
  }

  ghost predicate Waited(plan: Plan, s: Status)
    requires plan.waits.Keys == plan.units.Keys && s.started <= plan.units.Keys
  {
    forall u :: u in s.started ==> Ready(plan, s, u)
  }

  ghost predicate Given(plan: Plan, s: Status) {
    && s.given.Keys == s.started
    && forall u :: u in s.started ==> GivenTo(plan, s, u, s.given[u])
  }

  /** What `u` was given describes interfaced units, all its edges among them. */
  ghost predicate GivenTo(plan: Plan, s: Status, u: Unit, given: map<Unit, Built>) {
    && given.Keys <= s.interfaced
    && (forall v :: v in given ==> plan.Describes(v, given[v]))
    && (forall e :: e in EdgesOf(plan.units, u) ==> e.to in given)
  }

  ghost predicate Inv(plan: Plan, s: Status) {
    && plan.Valid() && Counted(plan, s) && Interfaced(plan, s) && Waited(plan, s) && Given(plan, s)
  }

  lemma IdleInv(plan: Plan)
    requires plan.Valid()
    ensures Inv(plan, IDLE)
  {
  }

  /** What a unit waits for covers each of its edges. */
  lemma EdgeIsWaitedFor(plan: Plan, u: Unit, e: Edge)
    requires plan.Valid() && u in plan.units && e in plan.units[u].edges
    ensures e.to in plan.waits[u].finished || (e.to in plan.waits[u].interface && e.kind == Normal)
    ensures e.kind == Build ==> e.to in plan.waits[u].finished
    ensures u == ROOT || plan.g.Of(u).ProcMacro() || plan.g.Of(e.to).ProcMacro() ==> e.to in plan.waits[u].finished
  {
    var w := plan.units;
    assert RightWaits(plan.g, w, u, plan.waits[u]);
    assert Needs(w, u, e.kind, e.to);
    assert Under(w, e.to, e.to);
    assert e.to in w;
    if u == ROOT {
      var k := |plan.order| - 1;
      assert e in EdgesOf(w, plan.order[k]);
      assert e.to in plan.order[..k];
      assert e.to != ROOT;
    }
  }

  lemma SpawnKeepsCounted(plan: Plan, s: Status, u: Unit)
    requires Counted(plan, s) && u in plan.units && u !in s.started && s.running < plan.jobs
    ensures Counted(plan, Spawn(s, u))
  {
    assert s.started !! {u};
  }

  lemma SpawnKeepsGiven(plan: Plan, s: Status, u: Unit)
    requires Interfaced(plan, s) && Given(plan, s)
    requires forall e :: e in EdgesOf(plan.units, u) ==> e.to in s.built
    ensures Given(plan, Spawn(s, u))
  {
    var s' := Spawn(s, u);
    assert GivenTo(plan, s', u, s.built);
    forall v | v in s.started && v != u ensures GivenTo(plan, s', v, s'.given[v]) {
      assert GivenTo(plan, s, v, s.given[v]);
    }
  }

  lemma SpawnKeepsInv(plan: Plan, s: Status, u: Unit)
    requires Inv(plan, s) && u in plan.units && u !in s.started && Ready(plan, s, u) && s.running < plan.jobs
    ensures Inv(plan, Spawn(s, u))
  {
    var s' := Spawn(s, u);
    SpawnKeepsCounted(plan, s, u);
    forall e | e in EdgesOf(plan.units, u) ensures e.to in s.built {
      EdgeIsWaitedFor(plan, u, e);
    }
    SpawnKeepsGiven(plan, s, u);
    forall v | v in s'.started ensures Ready(plan, s', v) {
      assert v in s.started ==> Ready(plan, s, v);
    }
  }

  lemma {:induction false} StartFromKeepsInv(plan: Plan, s: Status, i: nat)
    requires Inv(plan, s) && i <= |plan.order|
    ensures Inv(plan, StartFrom(plan, s, i))
    decreases |plan.order| - i
  {
    if i < |plan.order| && s.running < plan.jobs {
      assert plan.order[i] in plan.order;
      StartAtKeepsInv(plan, s, plan.order[i]);
      StartFromKeepsInv(plan, StartAt(plan, s, plan.order[i]), i + 1);
    }
  }

  lemma StartAtKeepsInv(plan: Plan, s: Status, u: Unit)
    requires Inv(plan, s) && u in plan.order && s.running < plan.jobs
    ensures Inv(plan, StartAt(plan, s, u))
  {
    if u !in s.started && Ready(plan, s, u) { SpawnKeepsInv(plan, s, u); }
  }

  lemma StartKeepsInv(plan: Plan, s: Status)
    requires Inv(plan, s)
    ensures Inv(plan, Start(plan, s))
  {
    StartFromKeepsInv(plan, s, 0);
  }

  lemma RunningIsPositive(plan: Plan, s: Status, u: Unit)
    requires Counted(plan, s) && u in s.started && u !in s.ended
    ensures s.running > 0
  {
    Strictly(s.ended, s.started, u);
  }

  lemma Strictly(a: set<Unit>, b: set<Unit>, u: Unit)
    requires a <= b && u in b && u !in a
    ensures |a| < |b|
  {
    assert a + {u} <= b;
    Subset(a + {u}, b);
  }

  lemma {:induction false} Subset(a: set<Unit>, b: set<Unit>)
    requires a <= b
    ensures |a| <= |b|
    ensures |a| == |b| ==> a == b
  {
    if a != {} {
      var u :| u in a;
      Subset(a - {u}, b - {u});
    }
  }

  lemma ReceiveKeepsCounted(plan: Plan, s: Status, e: Event)
    requires Counted(plan, s) && Legal(plan, s, e)
    ensures s.running > 0 && Counted(plan, Receive(s, e))
  {
    RunningIsPositive(plan, s, e.unit);
    EndedIs(s, e);
    assert s.ended !! {e.unit};
    assert s.done !! {e.unit};
  }

  lemma ReceiveKeepsInterfaced(plan: Plan, s: Status, e: Event)
    requires Counted(plan, s) && Interfaced(plan, s) && Legal(plan, s, e) && s.running > 0
    ensures Interfaced(plan, Receive(s, e))
  {
    match e
    case Meta(u, early) => MetaKeepsInterfaced(plan, s, u, early);
    case Done(u, Ok(b)) => DoneKeepsInterfaced(plan, s, u, b);
    case Done(_, Err(_)) =>
  }

  lemma MetaKeepsInterfaced(plan: Plan, s: Status, u: Unit, early: Built)
    requires Counted(plan, s) && Interfaced(plan, s) && Legal(plan, s, Meta(u, early)) && s.running > 0
    ensures Interfaced(plan, Receive(s, Meta(u, early)))
  {
    var s' := Receive(s, Meta(u, early));
    forall v | v in s'.interfaced ensures plan.Describes(v, s'.built[v]) && (v !in s'.done ==> plan.Pipelined(v)) {
      assert v in s.interfaced || v == u;
    }
  }

  lemma DoneKeepsInterfaced(plan: Plan, s: Status, u: Unit, b: Built)
    requires Counted(plan, s) && Interfaced(plan, s) && Legal(plan, s, Done(u, Ok(b))) && s.running > 0
    ensures Interfaced(plan, Receive(s, Done(u, Ok(b))))
  {
    var s' := Receive(s, Done(u, Ok(b)));
    MoreAreDescribed(plan, s, s', u, b);
  }

  lemma MoreAreDescribed(plan: Plan, s: Status, s': Status, u: Unit, b: Built)
    requires Interfaced(plan, s) && plan.Describes(u, b) && u in s.started
    requires s'.built == s.built[u := b] && s'.interfaced == s.interfaced + {u} && s'.done == s.done + {u}
    requires s'.started == s.started
    ensures Interfaced(plan, s')
  {
  }

  lemma ReceiveKeepsGiven(plan: Plan, s: Status, e: Event)
    requires Given(plan, s) && s.running > 0
    ensures Given(plan, Receive(s, e))
  {
    var s' := Receive(s, e);
    forall u | u in s'.started ensures GivenTo(plan, s', u, s'.given[u]) {
      assert GivenTo(plan, s, u, s.given[u]);
    }
  }

  lemma ReceiveKeepsInv(plan: Plan, s: Status, e: Event)
    requires Inv(plan, s) && Legal(plan, s, e)
    ensures s.running > 0 && Inv(plan, Receive(s, e))
  {
    ReceiveKeepsCounted(plan, s, e);
    ReceiveKeepsInterfaced(plan, s, e);
    ReceiveKeepsGiven(plan, s, e);
    var s' := Receive(s, e);
    forall u | u in s'.started ensures Ready(plan, s', u) {
      assert Ready(plan, s, u);
    }
  }

  // ---------------------------------------------------------------- runs

  ghost predicate LegalRun(plan: Plan, s: Status, events: seq<Event>)
    requires forall u :: u in plan.order ==> u in plan.waits
    decreases |events|
  {
    events == [] ||
    var s' := Start(plan, s);
    && s'.running > 0 && Legal(plan, s', events[0])
    && LegalRun(plan, Receive(s', events[0]), events[1..])
  }

  /** The state in which the loop waits after `events`. */
  function Play(plan: Plan, s: Status, events: seq<Event>): Status
    requires forall u :: u in plan.order ==> u in plan.waits
    requires LegalRun(plan, s, events)
    decreases |events|
  {
    if events == [] then Start(plan, s) else Play(plan, Receive(Start(plan, s), events[0]), events[1..])
  }

  lemma {:induction false} PlayKeepsInv(plan: Plan, s: Status, events: seq<Event>)
    requires Inv(plan, s) && LegalRun(plan, s, events)
    ensures Inv(plan, Play(plan, s, events))
    decreases |events|
  {
    StartKeepsInv(plan, s);
    if events != [] {
      ReceiveKeepsInv(plan, Start(plan, s), events[0]);
      PlayKeepsInv(plan, Receive(Start(plan, s), events[0]), events[1..]);
    }
  }

  /** A state the loop can wait in. */
  ghost predicate Reachable(plan: Plan, s: Status) {
    && plan.Valid()
    && exists events :: LegalRun(plan, IDLE, events) && Play(plan, IDLE, events) == s
  }

  lemma ReachableInv(plan: Plan, s: Status)
    requires Reachable(plan, s)
    ensures Inv(plan, s)
  {
    var events :| LegalRun(plan, IDLE, events) && Play(plan, IDLE, events) == s;
    IdleInv(plan);
    PlayKeepsInv(plan, IDLE, events);
  }

  // ------------------------------------------------------------- theorems

  /** Conservation: no unit starts twice, the tasks running are those started
      and not ended, never more than the jobs, and every ended task was
      counted compiled, reused or failed. */
  lemma Conservation(plan: Plan, s: Status)
    requires Reachable(plan, s)
    ensures Once(s.spawned) && |s.spawned| == |s.started| <= |plan.order|
    ensures s.running == |s.spawned| - |s.ended| && s.running <= plan.jobs
    ensures |s.ended| == s.compiled + s.reused + |s.failures|
  {
    ReachableInv(plan, s);
    OnceCounts(s.spawned, s.started);
    OnceCounts(plan.order, plan.units.Keys);
    Subset(s.started, plan.units.Keys);
  }

  lemma {:induction false} OnceCounts(xs: seq<Unit>, all: set<Unit>)
    requires Once(xs) && forall u :: u in xs <==> u in all
    ensures |xs| == |all|
    decreases |xs|
  {
    if xs == [] {
      assert all == {};
    } else {
      var last := xs[|xs| - 1];
      var rest := xs[..|xs| - 1];
      forall u ensures u in rest <==> u in all - {last} {
        if u in all - {last} {
          var i :| 0 <= i < |xs| && xs[i] == u;
          assert rest[i] == u;
        }
        if u in rest {
          var i :| 0 <= i < |rest| && rest[i] == u;
          assert xs[i] == u && xs[i] != last;
        }
      }
      OnceCounts(rest, all - {last});
    }
  }

  /** The tasks that end in `events`. */
  function Ended(events: seq<Event>): nat {
    if events == [] then 0 else (if events[0].Done? then 1 else 0) + Ended(events[1..])
  }

  lemma EndedIs(s: Status, e: Event)
    requires s.running > 0
    ensures Receive(s, e).ended == s.ended + if e.Done? then {e.unit} else {}
  {
  }

  lemma OneMoreEnded(plan: Plan, s: Status, e: Event)
    requires Inv(plan, s) && Legal(plan, s, e)
    ensures s.running > 0 && |Receive(s, e).ended| == |s.ended| + if e.Done? then 1 else 0
  {
    RunningIsPositive(plan, s, e.unit);
    EndedIs(s, e);
    assert s.ended !! {e.unit};
  }

  lemma {:induction false} EndedIsCounted(plan: Plan, s: Status, events: seq<Event>)
    requires Inv(plan, s) && LegalRun(plan, s, events)
    ensures |Play(plan, s, events).ended| == |s.ended| + Ended(events)
    decreases |events|
  {
    StartKeepsRest(plan, s, 0);
    if events != [] {
      var s' := Start(plan, s);
      StartKeepsInv(plan, s);
      OneMoreEnded(plan, s', events[0]);
      ReceiveKeepsInv(plan, s', events[0]);
      EndedIsCounted(plan, Receive(s', events[0]), events[1..]);
    }
  }

  /** No more tasks end than there are units. */
  lemma NoMoreEndThanUnits(plan: Plan, events: seq<Event>)
    requires plan.Valid() && LegalRun(plan, IDLE, events)
    ensures Ended(events) <= |plan.order|
  {
    var s := Play(plan, IDLE, events);
    IdleInv(plan);
    PlayKeepsInv(plan, IDLE, events);
    EndedIsCounted(plan, IDLE, events);
    Subset(s.ended, s.started);
    Subset(s.started, plan.units.Keys);
    OnceCounts(plan.order, plan.units.Keys);
  }

  /** While the loop waits, some task can still end. */
  lemma SomethingCanEnd(plan: Plan, s: Status)
    requires Reachable(plan, s) && s.running > 0
    ensures exists u :: u in s.started && Legal(plan, s, Done(u, Err("")))
  {
    ReachableInv(plan, s);
    var left := s.started - s.ended;
    assert s.started * s.ended == s.ended;
    assert |left| > 0;
    var u :| u in left;
    assert Legal(plan, s, Done(u, Err("")));
  }

  /** After a failure nothing more starts. */
  lemma {:induction false} NothingStartsAfterAFailure(plan: Plan, s: Status, events: seq<Event>)
    requires plan.Valid() && s.failures != [] && LegalRun(plan, s, events)
    ensures Play(plan, s, events).spawned == s.spawned
    ensures Play(plan, s, events).failures != []
    decreases |events|
  {
    if events != [] {
      NothingStartsAfterAFailure(plan, Receive(s, events[0]), events[1..]);
    }
  }

  /** Starting again at once starts nothing. */
  lemma {:induction false} StartIsComplete(plan: Plan, s: Status, i: nat, k: nat)
    requires plan.Valid() && i <= k < |plan.order| && plan.order[k] in plan.waits
    ensures var s' := StartFrom(plan, s, i);
      s'.running >= plan.jobs || plan.order[k] in s'.started || !Ready(plan, s', plan.order[k])
    decreases k - i
  {
    var u := plan.order[i];
    assert u in plan.order;
    if s.running < plan.jobs {
      var s1 := if u in s.started || !Ready(plan, s, u) then s else Spawn(s, u);
      assert StartFrom(plan, s, i) == StartFrom(plan, s1, i + 1);
      StartKeepsRest(plan, s1, i + 1);
      if i < k {
        StartIsComplete(plan, s1, i + 1, k);
      } else {
        assert u in s1.started || !Ready(plan, s1, u);
      }
    } else {
      assert StartFrom(plan, s, i) == s;
    }
  }

  lemma {:induction false} StartKeepsRest(plan: Plan, s: Status, i: nat)
    requires plan.Valid() && i <= |plan.order|
    ensures var s' := StartFrom(plan, s, i);
      && s.started <= s'.started && s'.done == s.done && s'.interfaced == s.interfaced && s'.ended == s.ended
      && s'.failures == s.failures && s'.running >= s.running
    decreases |plan.order| - i
  {
    if i < |plan.order| && s.running < plan.jobs {
      assert plan.order[i] in plan.order;
      StartKeepsRest(plan, StartAt(plan, s, plan.order[i]), i + 1);
    }
  }

  lemma {:induction false} PlaySplits(plan: Plan, s: Status, events: seq<Event>)
    requires plan.Valid() && LegalRun(plan, s, events)
    ensures exists s0 :: Play(plan, s, events) == Start(plan, s0)
    decreases |events|
  {
    if events == [] {
      assert Play(plan, s, events) == Start(plan, s);
    } else {
      PlaySplits(plan, Receive(Start(plan, s), events[0]), events[1..]);
    }
  }

  /** The first unit that is not done waits for nothing. */
  lemma FirstIsReady(plan: Plan, s: Status, k: nat)
    requires plan.Valid() && k < |plan.order| && forall v :: v in plan.order[..k] ==> v in s.done
    ensures plan.order[k] in plan.waits && Ready(plan, s, plan.order[k])
  {
    var next := plan.order[k];
    assert next in plan.order;
    var wait := plan.waits[next];
    assert RightWaits(plan.g, plan.units, next, wait);
    forall v | v in wait.finished || v in wait.interface ensures v in s.done {
      WaitsComeBefore(plan.g, plan.units, plan.order, k, v);
    }
  }

  lemma WaitingStartedAll(plan: Plan, s: Status, k: nat)
    requires Reachable(plan, s) && s.running < plan.jobs && s.failures == []
    requires k < |plan.order| && plan.order[k] in plan.waits && Ready(plan, s, plan.order[k])
    ensures plan.order[k] in s.started
  {
    var events :| LegalRun(plan, IDLE, events) && Play(plan, IDLE, events) == s;
    PlaySplits(plan, IDLE, events);
    var s0 :| Start(plan, s0) == s;
    StartKeepsRest(plan, s0, 0);
    StartIsComplete(plan, s0, 0, k);
  }

  /** What has started is done, when nothing runs and nothing failed. */
  lemma StartedIsDone(plan: Plan, s: Status)
    requires Counted(plan, s) && s.running == 0 && s.failures == []
    ensures s.started == s.done
  {
    Subset(s.ended, s.started);
    Subset(s.done, s.ended);
  }

  /** No deadlock: when nothing runs and nothing failed, every unit is done. */
  lemma NoDeadlock(plan: Plan, s: Status)
    requires Reachable(plan, s) && s.running == 0 && s.failures == []
    ensures s.done == plan.units.Keys
    ensures s.compiled + s.reused == |plan.order|
  {
    ReachableInv(plan, s);
    StartedIsDone(plan, s);
    if exists i :: 0 <= i < |plan.order| && plan.order[i] !in s.done {
      var k := FirstNotDone(plan.order, s.done);
      FirstIsReady(plan, s, k);
      WaitingStartedAll(plan, s, k);
      assert false;
    }
    AllOfOrder(plan, s.done);
  }

  /** How a run that came to its end ended. */
  lemma Outcome(plan: Plan, events: seq<Event>)
    requires plan.Valid() && LegalRun(plan, IDLE, events) && Play(plan, IDLE, events).running == 0
    ensures var s := Play(plan, IDLE, events);
      s.failures == [] ==> |s.done| == |plan.order| && s.compiled + s.reused == |plan.order|
  {
    var s := Play(plan, IDLE, events);
    assert Reachable(plan, s);
    if s.failures == [] {
      NoDeadlock(plan, s);
      OnceCounts(plan.order, plan.units.Keys);
    }
  }

  lemma AllOfOrder(plan: Plan, done: set<Unit>)
    requires plan.Valid() && done <= plan.units.Keys
    requires forall i :: 0 <= i < |plan.order| ==> plan.order[i] in done
    ensures done == plan.units.Keys && |done| == |plan.order|
  {
    forall u | u in plan.units ensures u in done {
      assert u in plan.order;
    }
    OnceCounts(plan.order, plan.units.Keys);
  }

  ghost function FirstNotDone(order: seq<Unit>, done: set<Unit>): (k: nat)
    requires exists i :: 0 <= i < |order| && order[i] !in done
    ensures k < |order| && order[k] !in done && forall v :: v in order[..k] ==> v in done
  {
    if order[0] !in done then 0
    else
      assert exists i :: 0 <= i < |order[1..]| && order[1..][i] !in done by {
        var i :| 0 <= i < |order| && order[i] !in done;
        assert order[1..][i - 1] == order[i];
      }
      var k := FirstNotDone(order[1..], done) + 1;
      assert order[..k] == [order[0]] + order[1..][..k - 1];
      k
  }

  /** Interfaces are closed under normal dependencies. */
  lemma InterfacesAreClosed(plan: Plan, s: Status)
    requires Reachable(plan, s)
    ensures NormalClosed(plan.units, s.interfaced)
  {
    ReachableInv(plan, s);
    forall u, e | u in s.interfaced && e in EdgesOf(plan.units, u) && e.kind == Normal ensures e.to in s.interfaced {
      EdgeIsWaitedFor(plan, u, e);
      assert Ready(plan, s, u);
    }
  }

  /** Compiling `u` links `b`: its build script, itself as a procedural macro,
      or the root's binaries. */
  ghost predicate Links(plan: Plan, u: Unit, b: Unit) {
    || Needs(plan.units, u, Build, b)
    || (plan.g.Has(u) && plan.g.Of(u).ProcMacro() && Needs(plan.units, u, Normal, b))
    || (u == ROOT && Needs(plan.units, u, Normal, b))
  }

  /** What lies under a dependency of the root is not the root. */
  lemma UnderTheRoot(plan: Plan, kind: Kind, b: Unit, v: Unit)
    requires plan.Valid() && Needs(plan.units, ROOT, kind, b) && Under(plan.units, b, v)
    ensures v in plan.units && v != ROOT
  {
    var T := plan.units.Keys - {ROOT};
    forall t, e | t in T && e in EdgesOf(plan.units, t) ensures e.to in T {
      NothingNeedsTheRoot(plan, t, e);
    }
    assert NormalClosed(plan.units, T);
    var e :| e in EdgesOf(plan.units, ROOT) && e.kind == kind && e.to == b;
    NothingNeedsTheRoot(plan, ROOT, e);
  }

  lemma LinkedMustFinish(plan: Plan, u: Unit, b: Unit, v: Unit)
    requires plan.Valid() && u in plan.units && Links(plan, u, b) && Under(plan.units, b, v)
    ensures MustFinish(plan.g, plan.units, u, v)
  {
    if u == ROOT {
      UnderTheRoot(plan, if Needs(plan.units, u, Normal, b) then Normal else Build, b, v);
    }
  }

  /** A link reads finished libraries only: when a unit that links `b` has
      started, `b` and every library under it are done. */
  lemma LinkedLibrariesAreDone(plan: Plan, s: Status, u: Unit, b: Unit, v: Unit)
    requires Reachable(plan, s) && u in s.started && Links(plan, u, b) && Under(plan.units, b, v)
    ensures v in s.done
  {
    ReachableInv(plan, s);
    assert Ready(plan, s, u);
    LinkedMustFinish(plan, u, b, v);
    assert RightWaits(plan.g, plan.units, u, plan.waits[u]);
  }

  lemma NothingNeedsTheRoot(plan: Plan, u: Unit, e: Edge)
    requires plan.Valid() && e in EdgesOf(plan.units, u)
    ensures e.to in plan.units && e.to != ROOT
  {
    assert u in plan.order;
    var i :| 0 <= i < |plan.order| && plan.order[i] == u;
    assert e in EdgesOf(plan.units, plan.order[i]);
    assert e.to in plan.order[..i];
    var j :| 0 <= j < i && plan.order[j] == e.to;
  }

  // -------------------------------------------------------------- externs

  /** A crate `rustc` is told of: by its interface or by its finished file. */
  datatype Extern = Extern(edge: Edge, crateName: string, path: string, interface: bool)

  /** One extern for each edge of `kind` whose unit is in `given` with a library. */
  function LinkEdges(edges: seq<Edge>, kind: Kind, built: map<Unit, Built>, interfaces: bool): seq<Extern> {
    if edges == [] then []
    else
      var edge := edges[0];
      var rest := LinkEdges(edges[1..], kind, built, interfaces);
      if edge.kind != kind || edge.to !in built || built[edge.to].lib.None? then rest
      else
        var below := built[edge.to];
        var (crateName, file) := below.lib.value;
        var byInterface := below.meta.Some? && interfaces;
        [Extern(edge, crateName, if byInterface then below.meta.value else file, byInterface)] + rest
  }

  /** The calls compiling `u` makes of it: for its build script, its library,
      and its binaries. */
  ghost predicate Calls(plan: Plan, u: Unit, kind: Kind, interfaces: bool)
    requires plan.g.Has(u)
  {
    || (kind == Build && !interfaces)
    || (kind == Normal && plan.g.Of(u).lib.Some? && interfaces == !plan.g.Of(u).ProcMacro())
    || (kind == Normal && u == ROOT && !interfaces)
  }

  /** No waited edge is skipped: each edge to a library gives an extern. */
  lemma {:induction false} EveryEdgeIsLinked(edges: seq<Edge>, kind: Kind, given: map<Unit, Built>, interfaces: bool, e: Edge)
    requires e in edges && e.kind == kind && e.to in given && given[e.to].lib.Some?
    ensures exists x :: x in LinkEdges(edges, kind, given, interfaces) && x.edge == e
    decreases |edges|
  {
    var all := LinkEdges(edges, kind, given, interfaces);
    var rest := LinkEdges(edges[1..], kind, given, interfaces);
    if e == edges[0] {
      assert all[0].edge == e;
    } else {
      assert e in edges[1..];
      EveryEdgeIsLinked(edges[1..], kind, given, interfaces, e);
      var x :| x in rest && x.edge == e;
      assert x in all;
    }
  }

  lemma {:induction false} ExternIsOfAnEdge(edges: seq<Edge>, kind: Kind, given: map<Unit, Built>, interfaces: bool, x: Extern)
    requires x in LinkEdges(edges, kind, given, interfaces)
    ensures x.edge in edges && x.edge.kind == kind && x.edge.to in given && given[x.edge.to].lib.Some?
    ensures x.interface <==> given[x.edge.to].meta.Some? && interfaces
    decreases |edges|
  {
    if x in LinkEdges(edges[1..], kind, given, interfaces) {
      ExternIsOfAnEdge(edges[1..], kind, given, interfaces, x);
    }
  }

  /** Whatever compiling a started unit asks `rustc` to read is there: every
      edge has an entry, each edge to a library an extern, each interface is
      written, and each finished file is finished. */
  lemma ExternsAreThere(plan: Plan, s: Status, u: Unit, kind: Kind, interfaces: bool)
    requires Reachable(plan, s) && u in s.started && plan.g.Has(u) && Calls(plan, u, kind, interfaces)
    ensures u in s.given && u in plan.units
    ensures var externs := LinkEdges(plan.units[u].edges, kind, s.given[u], interfaces);
      && (forall e :: e in plan.units[u].edges ==> e.to in s.given[u])
      && (forall e :: e in plan.units[u].edges && e.kind == kind && plan.g.Has(e.to) && plan.g.Of(e.to).lib.Some? ==>
            exists x :: x in externs && x.edge == e)
      && (forall x :: x in externs ==> if x.interface then x.edge.to in s.interfaced else x.edge.to in s.done)
  {
    ReachableInv(plan, s);
    var given := s.given[u];
    assert GivenTo(plan, s, u, given) && Ready(plan, s, u);
    var edges := plan.units[u].edges;
    forall e | e in edges && e.kind == kind && plan.g.Has(e.to) && plan.g.Of(e.to).lib.Some?
      ensures exists x :: x in LinkEdges(edges, kind, given, interfaces) && x.edge == e
    {
      assert plan.Describes(e.to, given[e.to]);
      EveryEdgeIsLinked(edges, kind, given, interfaces, e);
    }
    forall x | x in LinkEdges(edges, kind, given, interfaces)
      ensures if x.interface then x.edge.to in s.interfaced else x.edge.to in s.done
    {
      ExternIsOfAnEdge(edges, kind, given, interfaces, x);
      EdgeIsWaitedFor(plan, u, x.edge);
      assert plan.Describes(x.edge.to, given[x.edge.to]);
    }
  }
}
