/** Problem ids over whole runs: hosts and services draw them from one counter (base/checks.c). */
module ProblemIds {
  import opened CheckStates
  import ServiceChecks
  import HostChecks

  /** A host or service: whether it is fine, and its ids. */
  datatype Tracked = Tracked(fine: bool, ids: Ids)

  datatype World = World(objects: seq<Tracked>, nextEventId: nat, nextProblemId: nat)

  /** A result for one object: the new state, and whether a change is noted that does not show in
      `fine`, say from warning to critical. */
  datatype Step = Step(index: nat, isFine: bool, otherChange: bool)

  predicate Changes(o: Tracked, step: Step) {
    step.otherChange || o.fine != step.isFine
  }

  function Apply(w: World, step: Step): World {
    if step.index >= |w.objects| then w
    else
      var o := w.objects[step.index];
      if Changes(o, step) then
        var ids := IdsAfter(o.ids, w.nextEventId, w.nextProblemId, o.fine, step.isFine);
        World(w.objects[step.index := Tracked(step.isFine, ids)],
              w.nextEventId + 1, w.nextProblemId + if o.fine then 1 else 0)
      else w
  }

  function Run(w: World, steps: seq<Step>): World {
    if steps == [] then w else Apply(Run(w, steps[..|steps| - 1]), steps[|steps| - 1])
  }

  /** The handlers of base/checks.c take such steps. */
  lemma ServiceStep(s: ServiceChecks.Status, state: ServiceState, route: HostState, ids: Ids, nextEventId: nat,
                    nextProblemId: nat, max: nat)
    ensures var w := World([Tracked(s.state == Ok, ids)], nextEventId, nextProblemId);
      var r := ServiceChecks.Next(s, state, route, max);
      var after := if state != s.state
        then IdsAfter(ids, nextEventId, nextProblemId, s.state == Ok, state == Ok) else ids;
      Apply(w, Step(0, state == Ok, state != s.state)) == World([Tracked(r.state == Ok, after)],
            nextEventId + (if state != s.state then 1 else 0),
            nextProblemId + (if state != s.state && s.state == Ok then 1 else 0))
  {
  }

  lemma HostStep(s: HostChecks.Status, newState: HostState, active: bool, verdict: HostChecks.Outage,
                 settings: HostChecks.Settings, ids: Ids, nextEventId: nat, nextProblemId: nat, max: nat)
    ensures var w := World([Tracked(s.state == Up, ids)], nextEventId, nextProblemId);
      var r := HostChecks.Next(s, newState, active, verdict, settings, max);
      var changed := HostChecks.Changes(s, r.state, r.stateType);
      var after := if changed then IdsAfter(ids, nextEventId, nextProblemId, s.state == Up, r.state == Up) else ids;
      Apply(w, Step(0, r.state == Up, changed)) == World([Tracked(r.state == Up, after)],
            nextEventId + (if changed then 1 else 0), nextProblemId + (if changed && s.state == Up then 1 else 0))
  {
  }

  /** A host that stays up uses up no id. */
  lemma StayingUpDrawsNothing(s: HostChecks.Status, active: bool, verdict: HostChecks.Outage,
                              settings: HostChecks.Settings, max: nat)
    requires HostChecks.Consistent(s, max) && s.state == Up
    ensures var r := HostChecks.Next(s, Up, active, verdict, settings, max);
      !HostChecks.Changes(s, r.state, r.stateType)
  {
  }

  // ---------- what every step keeps ----------

  /** The objects as configured: nothing has happened yet. Some may start in a problem state. */
  predicate Configured(w: World) {
    forall i :: 0 <= i < |w.objects| ==> w.objects[i].ids == Ids(0, 0, 0, 0)
  }

  predicate AllFine(w: World) {
    forall i :: 0 <= i < |w.objects| ==> w.objects[i].fine
  }

  /** The objects that are still in the problem they were configured with. */
  ghost function Original(w: World, steps: seq<Step>): set<nat> {
    set i: nat | i < |w.objects| && !w.objects[i].fine
      && forall k :: 0 <= k < |steps| && steps[k].index == i ==> !steps[k].isFine
  }

  /** Fine objects have no id, original problems have none either, and all other problems hold
      distinct ids between the first one handed out and the next one. */
  ghost predicate Consistent(w: World, first: nat, original: set<nat>) {
    && first <= w.nextProblemId
    && (forall i :: 0 <= i < |w.objects| ==> IdInRange(w.objects[i], first, w.nextProblemId, i in original))
    && (forall i, j :: 0 <= i < j < |w.objects| && HoldsDrawnId(w, i, original) && HoldsDrawnId(w, j, original) ==>
          w.objects[i].ids.currentProblem != w.objects[j].ids.currentProblem)
  }

  predicate IdInRange(o: Tracked, first: nat, next: nat, original: bool) {
    if o.fine then o.ids.currentProblem == 0 && !original
    else if original then o.ids.currentProblem == 0
    else first <= o.ids.currentProblem < next
  }

  ghost predicate HoldsDrawnId(w: World, i: nat, original: set<nat>)
    requires i < |w.objects|
  {
    !w.objects[i].fine && i !in original
  }

  lemma ApplyConsistent(w: World, step: Step, first: nat, original: set<nat>)
    requires Consistent(w, first, original)
    ensures Consistent(Apply(w, step), first, if step.isFine then original - {step.index} else original)
    ensures w.nextProblemId <= Apply(w, step).nextProblemId && |Apply(w, step).objects| == |w.objects|
  {
  }

  lemma OriginalStep(w: World, steps: seq<Step>)
    requires steps != []
    ensures var n := |steps| - 1;
      Original(w, steps) == if steps[n].isFine
        then Original(w, steps[..n]) - {steps[n].index} else Original(w, steps[..n])
  {
    var n := |steps| - 1;
    assert forall k :: 0 <= k < n ==> steps[..n][k] == steps[k];
  }

  lemma {:induction false} RunConsistent(w: World, steps: seq<Step>)
    requires Configured(w)
    ensures Consistent(Run(w, steps), w.nextProblemId, Original(w, steps)) && |Run(w, steps).objects| == |w.objects|
    decreases |steps|
  {
    hide Consistent, Original;
    if steps == [] {
      StartConsistent(w);
    } else {
      var n := |steps| - 1;
      RunConsistent(w, steps[..n]);
      OriginalStep(w, steps);
      ApplyConsistent(Run(w, steps[..n]), steps[n], w.nextProblemId, Original(w, steps[..n]));
    }
  }

  lemma StartConsistent(w: World)
    requires Configured(w)
    ensures Consistent(w, w.nextProblemId, Original(w, []))
  {
  }

  // ---------- an id means a problem ----------

  /** An id means a problem and a problem has an id. */
  predicate IdsTellProblems(w: World) {
    forall i :: 0 <= i < |w.objects| ==> (w.objects[i].ids.currentProblem != 0 <==> !w.objects[i].fine)
  }

  /** That holds in every run exactly when the counter does not start at 0, which it does in a
      program that has retained nothing, and no object is configured to start in a problem state.
      Otherwise a problem can have the id that means none. */
  lemma IdsTellProblemsExactly(w: World)
    requires Configured(w) && w.objects != []
    ensures (forall steps :: IdsTellProblems(Run(w, steps))) <==> w.nextProblemId >= 1 && AllFine(w)
  {
    if w.nextProblemId >= 1 && AllFine(w) {
      forall steps ensures IdsTellProblems(Run(w, steps)) {
        RunConsistent(w, steps);
      }
    } else if !AllFine(w) {
      ConfiguredProblemHasNoId(w);
    } else {
      var step := Step(0, false, true);
      RunOne(w, step);
      assert !Apply(w, step).objects[0].fine && Apply(w, step).objects[0].ids.currentProblem == 0;
      assert !IdsTellProblems(Run(w, [step]));
    }
  }

  /** A problem that an object is configured with has no id, whatever the counter. */
  lemma ConfiguredProblemHasNoId(w: World)
    requires Configured(w) && !AllFine(w)
    ensures !IdsTellProblems(Run(w, []))
  {
  }

  lemma RunOne(w: World, step: Step)
    ensures Run(w, [step]) == Apply(w, step)
  {
    assert [step][..0] == [];
  }

  // ---------- ids differ ----------

  /** Problems at the same time have different ids. */
  predicate LiveIdsDiffer(w: World) {
    forall i, j :: 0 <= i < j < |w.objects| && !w.objects[i].fine && !w.objects[j].fine ==>
      w.objects[i].ids.currentProblem != w.objects[j].ids.currentProblem
  }

  predicate AtMostOneProblem(w: World) {
    forall i, j :: 0 <= i < j < |w.objects| ==> w.objects[i].fine || w.objects[j].fine
  }

  /** That holds in every run exactly when at most one object is configured to start in a problem
      state, and if one is, the id 0 that it holds is not handed out to another. */
  lemma LiveIdsDifferExactly(w: World)
    requires Configured(w)
    ensures (forall steps :: LiveIdsDiffer(Run(w, steps))) <==>
      AtMostOneProblem(w) && (AllFine(w) || w.nextProblemId >= 1 || |w.objects| == 1)
  {
    if !AtMostOneProblem(w) {
      assert !LiveIdsDiffer(Run(w, []));
    } else if AllFine(w) || w.nextProblemId >= 1 || |w.objects| == 1 {
      forall steps ensures LiveIdsDiffer(Run(w, steps)) {
        RunConsistent(w, steps);
      }
    } else {
      IdZeroSharedLater(w);
    }
  }

  /** The first problem that comes up gets the id of the problem that was there from the start. */
  lemma IdZeroSharedLater(w: World)
    requires Configured(w) && AtMostOneProblem(w) && !AllFine(w) && w.nextProblemId == 0 && |w.objects| > 1
    ensures exists steps :: !LiveIdsDiffer(Run(w, steps))
  {
    var i :| 0 <= i < |w.objects| && !w.objects[i].fine;
    var j := if i == 0 then 1 else 0;
    assert w.objects[j].fine;
    var step := Step(j, false, true);
    RunOne(w, step);
    var r := Apply(w, step);
    assert !r.objects[i].fine && !r.objects[j].fine
      && r.objects[i].ids.currentProblem == r.objects[j].ids.currentProblem;
    assert !LiveIdsDiffer(Run(w, [step]));
  }

  /** A problem keeps its id until the object is fine again, also when it changes on the way. */
  lemma {:induction false} IdKeptThroughProblem(w: World, steps: seq<Step>, i: nat)
    requires i < |w.objects| && !w.objects[i].fine
    requires forall k :: 0 <= k < |steps| && steps[k].index == i ==> !steps[k].isFine
    ensures var r := Run(w, steps);
      && |r.objects| == |w.objects| && !r.objects[i].fine
      && r.objects[i].ids.currentProblem == w.objects[i].ids.currentProblem
    decreases |steps|
  {
    if steps != [] {
      IdKeptThroughProblem(w, steps[..|steps| - 1], i);
    }
  }

  /** Whether the `k`-th step starts a problem. */
  predicate StartsProblem(w: World, steps: seq<Step>, k: nat)
    requires k < |steps|
  {
    var r := Run(w, steps[..k]);
    steps[k].index < |r.objects| && r.objects[steps[k].index].fine && !steps[k].isFine
  }

  /** The id that a started problem gets. */
  function StartedId(w: World, steps: seq<Step>, k: nat): nat
    requires k < |steps| && StartsProblem(w, steps, k)
  {
    Apply(Run(w, steps[..k]), steps[k]).objects[steps[k].index].ids.currentProblem
  }

  lemma {:induction false} CounterGrows(w: World, steps: seq<Step>, k: nat, m: nat)
    requires k <= m <= |steps|
    ensures Run(w, steps[..k]).nextProblemId <= Run(w, steps[..m]).nextProblemId
    decreases m
  {
    if k < m {
      CounterGrows(w, steps, k, m - 1);
      assert steps[..m][..m - 1] == steps[..m - 1];
    }
  }

  /** Later problems get higher ids. */
  lemma IdsIncrease(w: World, steps: seq<Step>, k: nat, m: nat)
    requires k < m < |steps| && StartsProblem(w, steps, k) && StartsProblem(w, steps, m)
    ensures StartedId(w, steps, k) < StartedId(w, steps, m)
  {
    assert steps[..k + 1][..k] == steps[..k];
    assert Run(w, steps[..k + 1]) == Apply(Run(w, steps[..k]), steps[k]);
    CounterGrows(w, steps, k + 1, m);
  }

  // ---------- services and hosts together ----------

  datatype TrackedService = TrackedService(status: ServiceChecks.Status, ids: Ids, max: nat)

  datatype TrackedHost = TrackedHost(status: HostChecks.Status, ids: Ids, max: nat)

  /** All services and hosts of the program, and the counters they share. */
  datatype System = System(services: seq<TrackedService>, hosts: seq<TrackedHost>, nextEventId: nat, nextProblemId: nat)

  datatype Event =
    | ServiceResult(service: nat, state: ServiceState, route: HostState)
    | HostEvent(host: nat, event: HostChecks.Event)

  /** The next event id and the next problem id when a change, if there is one, has been noted. */
  function NextEvent(next: nat, changed: bool): nat {
    if changed then next + 1 else next
  }

  function NextProblem(next: nat, changed: bool, wasFine: bool): nat {
    if changed && wasFine then next + 1 else next
  }

  function ResultOfService(y: System, i: nat, state: ServiceState, route: HostState): System
    requires i < |y.services|
  {
    var o := y.services[i];
    var changed, wasFine := state != o.status.state, o.status.state == Ok;
    var ids := if changed then IdsAfter(o.ids, y.nextEventId, y.nextProblemId, wasFine, state == Ok) else o.ids;
    y.(services := y.services[i := TrackedService(ServiceChecks.Next(o.status, state, route, o.max), ids, o.max)],
       nextEventId := NextEvent(y.nextEventId, changed),
       nextProblemId := NextProblem(y.nextProblemId, changed, wasFine))
  }

  function ChangesHost(o: TrackedHost, e: HostChecks.Event, settings: HostChecks.Settings): bool {
    var r := HostChecks.Apply(o.status, e, settings, o.max);
    e.Result? && HostChecks.Changes(o.status, r.state, r.stateType)
  }

  function EventOfHost(y: System, i: nat, e: HostChecks.Event, settings: HostChecks.Settings): System
    requires i < |y.hosts|
  {
    var o := y.hosts[i];
    var r := HostChecks.Apply(o.status, e, settings, o.max);
    var changed, wasFine := ChangesHost(o, e, settings), o.status.state == Up;
    var ids := if changed then IdsAfter(o.ids, y.nextEventId, y.nextProblemId, wasFine, r.state == Up) else o.ids;
    y.(hosts := y.hosts[i := TrackedHost(r, ids, o.max)],
       nextEventId := NextEvent(y.nextEventId, changed),
       nextProblemId := NextProblem(y.nextProblemId, changed, wasFine))
  }

  function Happen(y: System, e: Event, settings: HostChecks.Settings): System {
    match e
    case ServiceResult(i, state, route) => if i < |y.services| then ResultOfService(y, i, state, route) else y
    case HostEvent(i, event) => if i < |y.hosts| then EventOfHost(y, i, event, settings) else y
  }

  function RunOfSystem(y: System, events: seq<Event>, settings: HostChecks.Settings): System {
    if events == [] then y
    else Happen(RunOfSystem(y, events[..|events| - 1], settings), events[|events| - 1], settings)
  }

  /** The system as the model of the ids sees it: services first, then hosts. */
  function Objects(y: System): (r: seq<Tracked>)
    ensures |r| == |y.services| + |y.hosts|
    ensures forall i :: 0 <= i < |y.services| ==> r[i] == Tracked(y.services[i].status.state == Ok, y.services[i].ids)
    ensures forall i :: 0 <= i < |y.hosts| ==>
      r[|y.services| + i] == Tracked(y.hosts[i].status.state == Up, y.hosts[i].ids)
  {
    seq(|y.services|, i requires 0 <= i < |y.services| =>
      Tracked(y.services[i].status.state == Ok, y.services[i].ids)) +
    seq(|y.hosts|, i requires 0 <= i < |y.hosts| => Tracked(y.hosts[i].status.state == Up, y.hosts[i].ids))
  }

  function WorldOf(y: System): World {
    World(Objects(y), y.nextEventId, y.nextProblemId)
  }

  /** The step of the model that an event is; one that touches no id is a step of no object. */
  function StepOf(y: System, e: Event, settings: HostChecks.Settings): Step {
    match e
    case ServiceResult(i, state, _) =>
      if i < |y.services| then Step(i, state == Ok, state != y.services[i].status.state) else NoStep(y)
    case HostEvent(i, event) =>
      if i < |y.hosts| && event.Result? then
        var o := y.hosts[i];
        var r := HostChecks.Apply(o.status, event, settings, o.max);
        Step(|y.services| + i, r.state == Up, ChangesHost(o, event, settings))
      else NoStep(y)
  }

  function NoStep(y: System): Step {
    Step(|y.services| + |y.hosts|, true, false)
  }

  lemma ServiceShown(y: System, i: nat, state: ServiceState, route: HostState)
    requires i < |y.services|
    ensures WorldOf(ResultOfService(y, i, state, route)) ==
      Apply(WorldOf(y), Step(i, state == Ok, state != y.services[i].status.state))
  {
    var y' := ResultOfService(y, i, state, route);
    var w' := Apply(WorldOf(y), Step(i, state == Ok, state != y.services[i].status.state));
    assert y'.services[i].status.state == state;
    assert Objects(y') == w'.objects;
  }

  lemma HostShown(y: System, i: nat, e: HostChecks.Event, settings: HostChecks.Settings)
    requires i < |y.hosts|
    ensures WorldOf(EventOfHost(y, i, e, settings)) == Apply(WorldOf(y), StepOf(y, HostEvent(i, e), settings))
  {
    hide HostChecks.Next, HostChecks.Adjusted;
    var y' := EventOfHost(y, i, e, settings);
    var w' := Apply(WorldOf(y), StepOf(y, HostEvent(i, e), settings));
    assert Objects(y') == w'.objects;
  }

  /** The steps of the model that a run of the system is. */
  function StepsOf(y: System, events: seq<Event>, settings: HostChecks.Settings): (r: seq<Step>)
    ensures |r| == |events|
  {
    if events == [] then []
    else
      var n := |events| - 1;
      StepsOf(y, events[..n], settings) + [StepOf(RunOfSystem(y, events[..n], settings), events[n], settings)]
  }

  /** Every run of services and hosts that share the counters is a run of the model. */
  lemma {:induction false} SystemRunShown(y: System, events: seq<Event>, settings: HostChecks.Settings)
    ensures WorldOf(RunOfSystem(y, events, settings)) == Run(WorldOf(y), StepsOf(y, events, settings))
    decreases |events|
  {
    if events != [] {
      var n := |events| - 1;
      SystemRunShown(y, events[..n], settings);
      assert StepsOf(y, events, settings)[..n] == StepsOf(y, events[..n], settings);
      var z := RunOfSystem(y, events[..n], settings);
      match events[n]
      case ServiceResult(i, state, route) => if i < |z.services| { ServiceShown(z, i, state, route); }
      case HostEvent(i, e) => if i < |z.hosts| { HostShown(z, i, e, settings); }
    }
  }

  /** A service or host as it is configured. */
  predicate ConfiguredSystem(y: System) {
    && (forall i :: 0 <= i < |y.services| ==> y.services[i].ids == Ids(0, 0, 0, 0))
    && (forall i :: 0 <= i < |y.hosts| ==> y.hosts[i].ids == Ids(0, 0, 0, 0))
  }

  /** So in every run of a program in which nothing is configured with a problem and whose counter does
      not start at 0, services and hosts have an id exactly while they have a problem, and no two
      problems, of services or hosts, have the same one. */
  lemma SystemIdsTellProblems(y: System, events: seq<Event>, settings: HostChecks.Settings)
    requires ConfiguredSystem(y) && AllFine(WorldOf(y)) && y.nextProblemId >= 1
    ensures var z := RunOfSystem(y, events, settings);
      && (forall i :: 0 <= i < |z.services| ==>
            (z.services[i].ids.currentProblem != 0 <==> z.services[i].status.state != Ok))
      && (forall i :: 0 <= i < |z.hosts| ==> (z.hosts[i].ids.currentProblem != 0 <==> z.hosts[i].status.state != Up))
      && LiveIdsDiffer(WorldOf(z))
  {
    hide RunOfSystem, StepsOf, Run, Consistent, Original, Configured, AllFine, IdsTellProblems, LiveIdsDiffer, Objects;
    var steps := StepsOf(y, events, settings);
    SystemRunShown(y, events, settings);
    ConfiguredShown(y);
    RunTells(WorldOf(y), steps);
    SystemTells(RunOfSystem(y, events, settings));
  }

  lemma ConfiguredShown(y: System)
    requires ConfiguredSystem(y)
    ensures Configured(WorldOf(y))
  {
    hide Objects;
    var objects := Objects(y);
    forall k | 0 <= k < |objects| ensures objects[k].ids == Ids(0, 0, 0, 0) {
      if k >= |y.services| {
        var i := k - |y.services|;
        assert objects[|y.services| + i].ids == y.hosts[i].ids;
      }
    }
  }

  lemma RunTells(w: World, steps: seq<Step>)
    requires Configured(w) && AllFine(w) && w.nextProblemId >= 1
    ensures IdsTellProblems(Run(w, steps)) && LiveIdsDiffer(Run(w, steps))
  {
    RunConsistent(w, steps);
  }

  lemma SystemTells(z: System)
    requires IdsTellProblems(WorldOf(z))
    ensures forall i :: 0 <= i < |z.services| ==>
      (z.services[i].ids.currentProblem != 0 <==> z.services[i].status.state != Ok)
    ensures forall i :: 0 <= i < |z.hosts| ==>
      (z.hosts[i].ids.currentProblem != 0 <==> z.hosts[i].status.state != Up)
  {
    hide Objects;
    var objects := Objects(z);
    assert forall k :: 0 <= k < |objects| ==> (objects[k].ids.currentProblem != 0 <==> !objects[k].fine);
    forall i | 0 <= i < |z.hosts| ensures z.hosts[i].ids.currentProblem != 0 <==> z.hosts[i].status.state != Up {
      var k := |z.services| + i;
      assert objects[k] == Tracked(z.hosts[i].status.state == Up, z.hosts[i].ids);
    }
  }
}
