/** Which of several schedule requests for one object survives (base/checks.c). */
module ScheduleOrder {
  import opened Common
  import opened EventQueue
  import opened CheckScheduling

  datatype CheckRequest = CheckRequest(time: int, options: CheckOptions) {
    function Key(): Request { Request(options.forceExecution, time) }
  }

  /** Forced requests go first, then earlier ones. */
  predicate Before(a: Request, b: Request) {
    (a.forced && !b.forced) || (a.forced == b.forced && a.time < b.time)
  }

  /** The three-way decision of the scheduler is this order. */
  lemma ReplacesIsBefore(a: Request, b: Request)
    ensures Replaces(a, b) <==> Before(a, b)
  {
  }

  /** The position of the request left after all have been made in turn. */
  function Survivor(requests: seq<CheckRequest>): (k: nat)
    requires requests != []
    ensures k < |requests|
  {
    if |requests| == 1 then 0
    else
      var k := Survivor(requests[..|requests| - 1]);
      if Replaces(requests[|requests| - 1].Key(), requests[k].Key()) then |requests| - 1 else k
  }

  /** The survivor is the first of the minimal requests. */
  lemma {:induction false} SurvivorIsFirstMinimum(requests: seq<CheckRequest>)
    requires requests != []
    ensures forall j :: 0 <= j < |requests| ==> !Before(requests[j].Key(), requests[Survivor(requests)].Key())
    ensures forall j :: 0 <= j < Survivor(requests) ==> Before(requests[Survivor(requests)].Key(), requests[j].Key())
    decreases |requests|
  {
    if |requests| > 1 {
      var front := requests[..|requests| - 1];
      SurvivorIsFirstMinimum(front);
      assert forall j :: 0 <= j < |front| ==> front[j] == requests[j];
    }
  }

  /** It is forced if any request is, and due at the earliest time of the requests that are forced like it. */
  lemma SurvivorIs(requests: seq<CheckRequest>)
    requires requests != []
    ensures var r := requests[Survivor(requests)];
      && (r.options.forceExecution <==> exists j :: 0 <= j < |requests| && requests[j].options.forceExecution)
      && (forall j :: 0 <= j < |requests| && requests[j].options.forceExecution == r.options.forceExecution ==>
            r.time <= requests[j].time)
      && (forall j :: 0 <= j < Survivor(requests) && requests[j].options.forceExecution == r.options.forceExecution ==>
            r.time < requests[j].time)
  {
    SurvivorIsFirstMinimum(requests);
    var k := Survivor(requests);
    forall j | 0 <= j < |requests|
      ensures requests[j].options.forceExecution ==> requests[k].options.forceExecution
      ensures requests[j].options.forceExecution == requests[k].options.forceExecution ==>
        requests[k].time <= requests[j].time
    {
      assert !Before(requests[j].Key(), requests[k].Key());
    }
    forall j | 0 <= j < k && requests[j].options.forceExecution == requests[k].options.forceExecution
      ensures requests[k].time < requests[j].time
    {
      assert Before(requests[k].Key(), requests[j].Key());
    }
  }

  /** Whether it is forced and when it runs do not depend on the order of the requests. */
  lemma OrderIndependent(a: seq<CheckRequest>, b: seq<CheckRequest>)
    requires a != [] && multiset(a) == multiset(b)
    ensures b != [] && a[Survivor(a)].Key() == b[Survivor(b)].Key()
  {
    assert |a| == |multiset(a)| == |multiset(b)| == |b|;
    SurvivorIsFirstMinimum(a);
    SurvivorIsFirstMinimum(b);
    assert a[Survivor(a)] in multiset(b) && b[Survivor(b)] in multiset(a);
    var i :| 0 <= i < |b| && b[i] == a[Survivor(a)];
    var j :| 0 <= j < |a| && a[j] == b[Survivor(b)];
  }

  lemma SurvivorStep(requests: seq<CheckRequest>, r: CheckRequest)
    ensures Survivor(requests + [r]) ==
      if requests == [] || Replaces(r.Key(), requests[Survivor(requests)].Key()) then |requests| else Survivor(requests)
  {
    assert (requests + [r])[..|requests|] == requests;
  }

  /** The request that a queued check stands for, if there is one. */
  function Queued(target: CheckTarget): seq<CheckRequest>
    reads target, if target.nextCheckEvent == null then {} else {target.nextCheckEvent}
  {
    if target.nextCheckEvent == null then []
    else [CheckRequest(target.nextCheckEvent.runTime, target.nextCheckEvent.eventOptions)]
  }

  /** With active checks disabled only forced requests are taken. */
  function Accepted(requests: seq<CheckRequest>, checksEnabled: bool): seq<CheckRequest> {
    if requests == [] then []
    else
      var r := requests[|requests| - 1];
      Accepted(requests[..|requests| - 1], checksEnabled) +
        if checksEnabled || r.options.forceExecution then [r] else []
  }

  lemma AcceptedStep(requests: seq<CheckRequest>, i: nat, checksEnabled: bool)
    requires i < |requests|
    ensures Accepted(requests[..i + 1], checksEnabled) == Accepted(requests[..i], checksEnabled) +
      if checksEnabled || requests[i].options.forceExecution then [requests[i]] else []
  {
    assert requests[..i + 1][..i] == requests[..i];
  }

  /** The check queued for `target` is the survivor of these requests. */
  ghost predicate IsLeft(target: CheckTarget, all: seq<CheckRequest>)
    reads target, if target.nextCheckEvent == null then {} else {target.nextCheckEvent}
  {
    if all == [] then target.nextCheckEvent == null else Queued(target) == [all[Survivor(all)]]
  }

  /** There is a queued check, and the object knows when it is due. */
  ghost predicate IsQueuedInStep(target: CheckTarget)
    reads target, if target.nextCheckEvent == null then {} else {target.nextCheckEvent}
  {
    target.nextCheckEvent != null && InStep(target)
  }

  method ScheduleOne(target: CheckTarget, request: CheckRequest, list: EventList, ghost targets: set<CheckTarget>,
                     ghost all: seq<CheckRequest>)
    requires Valid(list, targets) && target in targets && IsLeft(target, all)
    modifies list, list.events`next, list.events`prev, target`nextCheckEvent, target`nextCheck, target`checkOptions
    ensures Valid(list, targets) && OnlyNew(old(list.events), list.events)
    ensures target.checksEnabled || request.options.forceExecution ==>
      IsLeft(target, all + [request]) && IsQueuedInStep(target)
    ensures !target.checksEnabled && !request.options.forceExecution ==>
      IsLeft(target, all) && IsQueuedInStep(target) == old(IsQueuedInStep(target))
  {
    hide Indexed, Owned, InOrder, Elements, Survivor, Enqueued, Linked;
    SurvivorStep(all, request);
    ScheduleCheck(target, request.time, request.options, list, targets);
  }

  /** Making requests for an object leaves exactly the survivor queued: of the check that was queued
      before and the requests that were accepted. */
  method ScheduleAll(target: CheckTarget, requests: seq<CheckRequest>, list: EventList, ghost targets: set<CheckTarget>)
    requires Valid(list, targets) && target in targets
    modifies list, list.events`next, list.events`prev, target`nextCheckEvent, target`nextCheck, target`checkOptions
    ensures Valid(list, targets)
    ensures var all := old(Queued(target)) + Accepted(requests, target.checksEnabled);
      IsLeft(target, all)
    ensures Accepted(requests, target.checksEnabled) != [] ==> IsQueuedInStep(target)
  {
    hide Valid, Survivor, Accepted, IsQueuedInStep, IsLeft, Queued;
    ghost var queued := Queued(target);
    ghost var all := queued;
    QueuedIsLeft(target);
    AcceptedNone(target.checksEnabled);
    assert requests[..0] == [];
    for i := 0 to |requests|
      invariant Valid(list, targets)
      invariant OnlyNew(old(list.events), list.events)
      invariant all == queued + Accepted(requests[..i], target.checksEnabled)
      invariant IsLeft(target, all)
      invariant Accepted(requests[..i], target.checksEnabled) != [] ==> IsQueuedInStep(target)
    {
      AcceptedStep(requests, i, target.checksEnabled);
      ScheduleOne(target, requests[i], list, targets, all);
      if target.checksEnabled || requests[i].options.forceExecution {
        all := all + [requests[i]];
      }
    }
    assert requests[..|requests|] == requests;
  }

  lemma QueuedIsLeft(target: CheckTarget)
    ensures IsLeft(target, Queued(target))
  {
  }

  lemma AcceptedNone(checksEnabled: bool)
    ensures Accepted([], checksEnabled) == []
  {
  }
}
