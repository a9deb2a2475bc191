/** Whole runs of the scheduler (base/events.c, base/checks.c): from the empty list on, whatever is
    done in whatever order, the list stays in order and every back-pointer right. */
module SchedulerRuns {
  import opened Common
  import opened EventQueue
  import opened CheckScheduling
  import opened AutoReschedule
  import opened ClockChange

  /** What can be done to the low-priority list. Hosts and services are given by their numbers. In a
      turn that finds something else than a check to be due, the handler of that event does
      things to the list as well, while the event is out of it. */
  datatype Operation =
    | TakeTurn(turn: Turn, handler: seq<Operation>, timingFuncValue: int, timeAfter: int)
    | RequestCheck(target: nat, checkTime: int, options: CheckOptions)
    | FirstCheck(target: nat, options: CheckOptions)
    | NewEvent(code: nat, runTime: int, recurring: bool, eventInterval: nat, hasTimingFunc: bool,
               compensateForTimeChange: bool)
    | Respread(now: nat, window: nat)
    | ChangeClock(lastTime: int, currentTime: int, timing: TimedEvent -> int, renotify: (CheckTarget, int) -> int)
    | PlanCheck(target: nat, nextCheck: int, recurs: bool)
    | Enable(target: nat, nextCheck: int, recurs: bool)
    | Disable(target: nat)
    | Configure(target: nat, checksEnabled: bool, shouldBeScheduled: bool, checkOptions: CheckOptions,
                executionTime: real, newNextCheck: Option<int>)

  /** The objects whose next check time is written without a check being queued for that time. */
  function Writers(op: Operation): set<nat>
    decreases op, 0
  {
    match op
    case TakeTurn(_, handler, _, _) => AllWriters(handler)
    case PlanCheck(i, _, _) => {i}
    case Enable(i, _, _) => {i}
    case Configure(i, _, _, _, _, nextCheck) => if nextCheck.Some? then {i} else {}
    case _ => {}
  }

  function AllWriters(ops: seq<Operation>): set<nat>
    decreases ops, 1
  {
    if ops == [] then {} else AllWriters(ops[..|ops| - 1]) + Writers(ops[|ops| - 1])
  }

  /** The objects that are configured at will. */
  function Configured(op: Operation): set<nat>
    decreases op, 0
  {
    match op
    case TakeTurn(_, handler, _, _) => AllConfigured(handler)
    case Configure(i, _, _, _, _, _) => {i}
    case _ => {}
  }

  function AllConfigured(ops: seq<Operation>): set<nat>
    decreases ops, 1
  {
    if ops == [] then {} else AllConfigured(ops[..|ops| - 1]) + Configured(ops[|ops| - 1])
  }

  /** But for direct writes to the next check time, no object gets out of step with its queued check;
      and but for objects configured at will, none that is to be scheduled does. */
  twostate predicate LawsKept(targetList: seq<CheckTarget>, writers: set<nat>, configured: set<nat>)
    reads targetList
    reads set i | 0 <= i < |targetList| && targetList[i].nextCheckEvent != null :: targetList[i].nextCheckEvent
  {
    forall i {:trigger targetList[i]} :: 0 <= i < |targetList| ==>
      && (i !in writers && old(InStep(targetList[i])) ==> InStep(targetList[i]))
      && (i !in configured && old(Planned(targetList[i])) ==> Planned(targetList[i]))
  }

  ghost function SetOf(targetList: seq<CheckTarget>): set<CheckTarget> {
    set target | target in targetList
  }

  /** Every event can be seen by the re-spreading. */
  lemma SlotsExist(s: seq<TimedEvent>, targets: set<CheckTarget>) returns (slots: seq<Slot>)
    requires Owned(Elements(s), targets)
    ensures Sees(s, slots, targets)
  {
    forall i | 0 <= i < |s| && !s[i].eventType.OtherEvent? ensures s[i].eventData != null && s[i].eventData in targets {
      assert s[i] in Elements(s);
    }
    slots := [];
    while |slots| < |s|
      invariant |slots| <= |s|
      invariant forall i :: 0 <= i < |slots| ==> SlotOf(s[i]) == slots[i]
    {
      slots := slots + [SlotOf(s[|slots|])];
    }
  }

  twostate lemma AllOld(before: seq<TimedEvent>, new after: seq<TimedEvent>)
    requires Elements(before) == Elements(after)
    ensures OnlyNew(before, after)
  {
    OnlyNewByElements(before, after);
  }

  /** Sets the scheduling fields of an object at will. That leaves the list and the back-pointers right. */
  method ConfigureTarget(op: Operation, list: EventList, targetList: seq<CheckTarget>)
    requires op.Configure? && Distinct<CheckTarget>(targetList) && Valid(list, SetOf(targetList))
    modifies targetList`checksEnabled, targetList`shouldBeScheduled, targetList`checkOptions, targetList`executionTime
    modifies targetList`nextCheck
    ensures Valid(list, SetOf(targetList))
    ensures LawsKept(targetList, Writers(op), Configured(op))
  {
    hide Indexed, Owned, InOrder, Linked;
    ghost var idx := Pointers(SetOf(targetList));
    if op.target < |targetList| {
      var target := targetList[op.target];
      target.checksEnabled, target.shouldBeScheduled := op.checksEnabled, op.shouldBeScheduled;
      target.checkOptions, target.executionTime := op.checkOptions, op.executionTime;
      if op.newNextCheck.Some? {
        target.nextCheck := op.newNextCheck.value;
      }
    }
    assert Pointers(SetOf(targetList)) == idx;
  }

  /** The requests and plans for one object. */
  method PerformOnTarget(op: Operation, target: CheckTarget, list: EventList, ghost targets: set<CheckTarget>)
    requires op.RequestCheck? || op.FirstCheck? || op.PlanCheck? || op.Enable? || op.Disable?
    requires Valid(list, targets) && target in targets
    modifies list, list.events`next, list.events`prev, target`nextCheckEvent, target`nextCheck, target`checkOptions
    modifies target`shouldBeScheduled, target`checksEnabled
    ensures Valid(list, targets) && OnlyNew(old(list.events), list.events)
    ensures old(InStep(target)) && !op.PlanCheck? && !op.Enable? ==> InStep(target)
    ensures old(Planned(target)) ==> Planned(target)
  {
    hide Valid, Linked, Elements, Enqueued;
    match op {
      case RequestCheck(_, checkTime, options) =>
        ScheduleCheck(target, checkTime, options, list, targets);
      case FirstCheck(_, options) =>
        GiveFirstCheck(target, options, list, targets);
      case PlanCheck(_, nextCheck, recurs) =>
        PlanNextCheck(target, nextCheck, recurs, list, targets);
      case Enable(_, nextCheck, recurs) =>
        EnableChecks(target, nextCheck, recurs, list, targets);
      case Disable(_) =>
        DisableChecks(target, list, targets);
    }
  }

  /** They keep all other objects in step. */
  method PerformForTarget(op: Operation, list: EventList, targetList: seq<CheckTarget>)
    requires op.RequestCheck? || op.FirstCheck? || op.PlanCheck? || op.Enable? || op.Disable?
    requires Distinct<CheckTarget>(targetList) && op.target < |targetList| && Valid(list, SetOf(targetList))
    modifies list, list.events, targetList
    ensures Valid(list, SetOf(targetList)) && OnlyNew(old(list.events), list.events)
    ensures LawsKept(targetList, Writers(op), Configured(op))
  {
    hide Valid, Linked;
    PerformOnTarget(op, targetList[op.target], list, SetOf(targetList));
    forall i | 0 <= i < |targetList|
      ensures i !in Writers(op) && old(InStep(targetList[i])) ==> InStep(targetList[i])
      ensures old(Planned(targetList[i])) ==> Planned(targetList[i])
    {
      assert i != op.target ==> targetList[i] != targetList[op.target];
    }
  }

  /** An object is given a first check only when it has none. */
  method GiveFirstCheck(target: CheckTarget, options: CheckOptions, list: EventList, ghost targets: set<CheckTarget>)
    requires Valid(list, targets) && target in targets
    modifies list, list.events`next, list.events`prev, target`nextCheckEvent
    ensures Valid(list, targets) && OnlyNew(old(list.events), list.events)
    ensures old(InStep(target)) ==> InStep(target)
    ensures target.nextCheckEvent != null
  {
    hide Indexed, Owned, InOrder, Linked, Elements, Enqueued;
    if target.nextCheckEvent == null {
      ghost var idx := Pointers(targets);
      ghost var event :=
        ScheduleNewEvent(CheckEventType(target), target.nextCheck, false, 0, false, true, target, options, list,
                         targets);
      assert Pointers(targets)[target] == event;
    }
  }

  method RespreadChecks(list: EventList, now: nat, window: nat, ghost targets: set<CheckTarget>)
    requires Valid(list, targets)
    modifies list, list.events, targets`nextCheck
    ensures Valid(list, targets) && StepsKept(targets)
    // the list is in order, so there is nothing to do
    ensures list.events == old(list.events)
  {
    hide Indexed, Owned, InOrder, Linked;
    ghost var slots := SlotsExist(list.events, targets);
    ghost var s, idx, m := list.events, Pointers(targets), NextChecks(targets);
    PointersListed(s, idx);
    RunTimesSeen(s, slots, targets, now, window);
    AdjustCheckScheduling(list, now, window, slots, targets);
    forall t | t in targets && old(InStep(t)) ensures InStep(t) {
      assert idx[t] == t.nextCheckEvent && NextChecks(targets)[t] == m[t];
    }
  }

  lemma PointersListed(s: seq<TimedEvent>, idx: map<CheckTarget, TimedEvent?>)
    requires Indexed(Elements(s), idx)
    ensures forall t :: t in idx && idx[t] != null ==> idx[t] in s
  {
    forall t | t in idx && idx[t] != null ensures idx[t] in s {
      assert idx[t] in Elements(s);
    }
  }

  lemma RunTimesSeen(s: seq<TimedEvent>, slots: seq<Slot>, targets: set<CheckTarget>, now: int, window: nat)
    requires Sees(s, slots, targets)
    ensures |slots| == |s| && forall j {:trigger s[j].runTime} :: 0 <= j < |s| ==> s[j].runTime == slots[j].runTime
  {
    forall j | 0 <= j < |s| ensures s[j].runTime == slots[j].runTime {
      assert SlotOf(s[j]) == slots[j];
    }
  }

  predicate BelowLimit(turn: Turn) {
    turn.maxParallelServiceChecks == 0 || turn.runningServiceChecks < turn.maxParallelServiceChecks
  }

  /** All turns, those taken by handlers as well, find checks enabled and the limit not reached. */
  predicate Unhindered(op: Operation)
    decreases op, 0
  {
    op.TakeTurn? ==>
      op.turn.executeHostChecks && op.turn.executeServiceChecks && BelowLimit(op.turn) && AllUnhindered(op.handler)
  }

  predicate AllUnhindered(ops: seq<Operation>)
    decreases ops, 1
  {
    ops == [] || (AllUnhindered(ops[..|ops| - 1]) && Unhindered(ops[|ops| - 1]))
  }

  /** The list takes a turn: LowPriorityTurn for these objects. */
  method TurnOfList(turn: Turn, list: EventList, targetList: seq<CheckTarget>)
      returns (handed: TimedEvent?, ghost putOffs: nat)
    requires Valid(list, SetOf(targetList))
    modifies list, list.events, targetList
    ensures Valid(list, SetOf(targetList)) && OnlyNew(old(list.events), list.events)
    ensures handed != null ==> handed.eventType.OtherEvent? && handed in old(list.events) && handed !in list.events
    ensures LawsKept(targetList, {}, {})
    ensures turn.executeHostChecks && turn.executeServiceChecks && BelowLimit(turn) ==> putOffs == 0
  {
    hide Valid, Linked, Elements;
    ghost var putOff;
    handed, putOff := LowPriorityTurn(turn, list, SetOf(targetList));
    putOffs := if putOff then 1 else 0;
  }

  method TakeBackHanded(event: TimedEvent, op: Operation, list: EventList, ghost targetList: seq<CheckTarget>)
    requires op.TakeTurn? && Valid(list, SetOf(targetList)) && event.eventType.OtherEvent? && event !in list.events
    modifies list, event`next, event`prev, event`runTime, list.events`next, list.events`prev
    ensures Valid(list, SetOf(targetList))
    ensures forall i :: 0 <= i < |list.events| ==> list.events[i] == event || list.events[i] in old(list.events)
    ensures LawsKept(targetList, {}, {})
  {
    hide Valid, Linked, Elements;
    TakeBack(event, op.timingFuncValue, op.timeAfter, list, SetOf(targetList));
  }

  method AddOtherEvent(op: Operation, list: EventList, ghost targetList: seq<CheckTarget>)
    requires op.NewEvent? && Valid(list, SetOf(targetList))
    modifies list, list.events`next, list.events`prev
    ensures Valid(list, SetOf(targetList)) && OnlyNew(old(list.events), list.events)
    ensures LawsKept(targetList, {}, {})
  {
    hide Valid, Linked, Elements, Enqueued;
    ghost var event :=
      ScheduleNewEvent(OtherEvent(op.code), op.runTime, op.recurring, op.eventInterval, op.hasTimingFunc,
                       op.compensateForTimeChange, null, CHECK_OPTION_NONE, list, SetOf(targetList));
  }

  /** The two operations that go over the whole list. */
  method PerformOnList(op: Operation, list: EventList, targetList: seq<CheckTarget>)
    requires op.Respread? || op.ChangeClock?
    requires Distinct<CheckTarget>(targetList) && Valid(list, SetOf(targetList))
    modifies list, list.events, targetList
    ensures Valid(list, SetOf(targetList)) && OnlyNew(old(list.events), list.events)
    ensures LawsKept(targetList, {}, {})
  {
    hide Valid, Linked, Elements;
    ghost var s := list.events;
    match op {
      case Respread(now, window) =>
        RespreadChecks(list, now, window, SetOf(targetList));
      case ChangeClock(lastTime, currentTime, timing, renotify) =>
        CompensateChecks(list, targetList, lastTime, currentTime, timing, renotify, SetOf(targetList));
        AllOld(s, list.events);
    }
  }

  /** A turn: an event that is handed out is put back, if it recurs, when its handler is done. */
  method PerformTurn(op: Operation, list: EventList, targetList: seq<CheckTarget>)
      returns (ghost putOffs: nat)
    requires op.TakeTurn? && Distinct<CheckTarget>(targetList) && Valid(list, SetOf(targetList))
    modifies list, list.events, targetList
    ensures Valid(list, SetOf(targetList)) && OnlyNew(old(list.events), list.events)
    ensures LawsKept(targetList, Writers(op), Configured(op))
    ensures Unhindered(op) ==> putOffs == 0
    decreases op, 0
  {
    hide Valid, Elements, Linked, InStep, Planned;
    var handed;
    handed, putOffs := TurnOfList(op.turn, list, targetList);
    if handed != null {
      ghost var more := PerformAll(op.handler, list, targetList);
      putOffs := putOffs + more;
      TakeBackHanded(handed, op, list, targetList);
    }
  }

  /** One operation after the other. */
  method PerformAll(operations: seq<Operation>, list: EventList, targetList: seq<CheckTarget>)
      returns (ghost putOffs: nat)
    requires Distinct<CheckTarget>(targetList) && Valid(list, SetOf(targetList))
    modifies list, list.events, targetList
    ensures Valid(list, SetOf(targetList)) && OnlyNew(old(list.events), list.events)
    ensures LawsKept(targetList, AllWriters(operations), AllConfigured(operations))
    ensures AllUnhindered(operations) ==> putOffs == 0
    decreases operations, 0
  {
    hide Valid, InStep, Planned, AllWriters, AllConfigured, Writers, Configured, AllUnhindered, Unhindered;
    putOffs := 0;
    assert operations[..0] == [];
    for i := 0 to |operations|
      invariant Valid(list, SetOf(targetList)) && OnlyNew(old(list.events), list.events)
      invariant LawsKept(targetList, AllWriters(operations[..i]), AllConfigured(operations[..i]))
      invariant AllUnhindered(operations[..i]) ==> putOffs == 0
    {
      OneMoreOperation(operations, i);
      ghost var more := Perform(operations[i], list, targetList);
      putOffs := putOffs + more;
    }
    assert operations[..|operations|] == operations;
  }

  lemma OneMoreOperation(ops: seq<Operation>, i: nat)
    requires i < |ops|
    ensures AllWriters(ops[..i + 1]) == AllWriters(ops[..i]) + Writers(ops[i])
    ensures AllConfigured(ops[..i + 1]) == AllConfigured(ops[..i]) + Configured(ops[i])
    ensures AllUnhindered(ops[..i + 1]) <==> AllUnhindered(ops[..i]) && Unhindered(ops[i])
  {
    assert ops[..i + 1][..i] == ops[..i];
  }

  /** One operation. Operations on objects that there are not are ignored. */
  method Perform(op: Operation, list: EventList, targetList: seq<CheckTarget>)
      returns (ghost putOffs: nat)
    requires Distinct<CheckTarget>(targetList) && Valid(list, SetOf(targetList))
    modifies list, list.events, targetList
    ensures Valid(list, SetOf(targetList)) && OnlyNew(old(list.events), list.events)
    ensures LawsKept(targetList, Writers(op), Configured(op))
    ensures Unhindered(op) ==> putOffs == 0
    decreases op, 1
  {
    hide Valid, Linked, InStep, Planned;
    putOffs := 0;
    match op {
      case TakeTurn(_, _, _, _) => putOffs := PerformTurn(op, list, targetList);
      case NewEvent(_, _, _, _, _, _) => AddOtherEvent(op, list, targetList);
      case Respread(_, _) => PerformOnList(op, list, targetList);
      case ChangeClock(_, _, _, _) => PerformOnList(op, list, targetList);
      case Configure(_, _, _, _, _, _) => ConfigureTarget(op, list, targetList);
      case _ =>
        if op.target < |targetList| {
          PerformForTarget(op, list, targetList);
        }
    }
  }

  /** A whole run. At its end, and so at every moment before it, the back-pointer of every host and
      service is what a scan of the whole list would find. Every object whose next check time has
      not been written directly is in step with its queued check, and so is every object that is
      to be scheduled, unless it has been configured at will. `putOffs` counts the due checks that were
      put off: as long as checks are enabled and the limit is not reached there are none. */
  method RunScheduler(targetList: seq<CheckTarget>, operations: seq<Operation>)
      returns (list: EventList, ghost putOffs: nat)
    requires Distinct<CheckTarget>(targetList)
    requires forall i :: 0 <= i < |targetList| ==> targetList[i].nextCheckEvent == null
    modifies targetList
    ensures fresh(list) && Valid(list, SetOf(targetList))
    ensures forall i {:trigger targetList[i]} :: 0 <= i < |targetList| ==>
      Scan(list.events, targetList[i]) ==
        if targetList[i].nextCheckEvent == null then [] else [targetList[i].nextCheckEvent]
    ensures forall i {:trigger targetList[i]} :: 0 <= i < |targetList| ==>
      && (i !in AllWriters(operations) ==> InStep(targetList[i]))
      && (i !in AllConfigured(operations) ==> Planned(targetList[i]))
    ensures AllUnhindered(operations) ==> putOffs == 0
  {
    list := new EventList();
    ghost var targets := SetOf(targetList);
    NothingIndexed(targets, Pointers(targets));
    putOffs := PerformAll(operations, list, targetList);
    forall i | 0 <= i < |targetList|
      ensures Scan(list.events, targetList[i]) ==
        if targetList[i].nextCheckEvent == null then [] else [targetList[i].nextCheckEvent]
    {
      IndexAgreesWithScan(list.events, targets, targetList[i]);
    }
  }

  lemma NothingIndexed(targets: set<CheckTarget>, idx: map<CheckTarget, TimedEvent?>)
    requires forall target :: target in idx ==> idx[target] == null
    ensures Indexed({}, idx) && Owned({}, targets) && InOrder([])
  {
  }
}
