/** Scheduling of host and service checks on the low-priority event list (base/checks.c,
    base/events.c).

    Every host and service points back at its queued check. The back-pointer replaces a scan of
    the whole list, so it has to agree with that scan after every operation.
  */
module CheckScheduling {
  import opened Common
  import opened Timeline
  import opened EventQueue

  // ---------- the index ----------

  predicate IsCheckOf(e: TimedEvent, target: CheckTarget) {
    && e.eventData == target
    && e.eventType == match target.kind { case HostTarget => HostCheckEvent case ServiceTarget => ServiceCheckEvent }
  }

  /** The back-pointers, as a value. */
  ghost function Pointers(targets: set<CheckTarget>): (idx: map<CheckTarget, TimedEvent?>)
    reads targets`nextCheckEvent
    ensures idx.Keys == targets
  {
    map target | target in targets :: target.nextCheckEvent
  }

  /** The back-pointers agree with the queued events `all`. */
  ghost predicate Indexed(all: set<TimedEvent>, idx: map<CheckTarget, TimedEvent?>) {
    forall target {:trigger idx[target]} :: target in idx ==>
      && (idx[target] != null ==> idx[target] in all && IsCheckOf(idx[target], target))
      && forall e :: e in all && IsCheckOf(e, target) ==> e == idx[target]
  }

  /** A check takes the place of the one queued for its target, if any. */
  lemma IndexReplaced(all: set<TimedEvent>, idx: map<CheckTarget, TimedEvent?>, target: CheckTarget, event: TimedEvent)
    requires Indexed(all, idx) && target in idx && IsCheckOf(event, target)
    ensures Indexed(all - {idx[target]} + {event}, idx[target := event])
  {
    var all', idx' := all - {idx[target]} + {event}, idx[target := event];
    forall t | t in idx' ensures
      && (idx'[t] != null ==> idx'[t] in all' && IsCheckOf(idx'[t], t))
      && forall e :: e in all' && IsCheckOf(e, t) ==> e == idx'[t]
    {
      assert t != target ==> idx'[t] == idx[t];
      assert idx[target] != null ==> IsCheckOf(idx[target], target);
    }
  }

  /** A queued check is taken out to be run. */
  lemma IndexPopped(all: set<TimedEvent>, idx: map<CheckTarget, TimedEvent?>, target: CheckTarget, event: TimedEvent)
    requires Indexed(all, idx) && target in idx && event in all && IsCheckOf(event, target)
    ensures idx[target] == event && Indexed(all - {event}, idx[target := null])
  {
    var idx' := idx[target := null];
    assert idx[target] == event;
    forall t | t in idx' ensures
      && (idx'[t] != null ==> idx'[t] in all - {event} && IsCheckOf(idx'[t], t))
      && forall e :: e in all - {event} && IsCheckOf(e, t) ==> e == idx'[t]
    {
      assert t != target ==> idx'[t] == idx[t];
    }
  }

  /** Other events may come and go. */
  lemma IndexUntouched(all: set<TimedEvent>, idx: map<CheckTarget, TimedEvent?>, event: TimedEvent)
    requires Indexed(all, idx) && forall target :: target in idx ==> !IsCheckOf(event, target)
    ensures Indexed(all - {event}, idx) && Indexed(all + {event}, idx)
  {
    forall t | t in idx ensures
      && (idx[t] != null ==> idx[t] in all - {event} && IsCheckOf(idx[t], t))
      && (forall e :: e in all - {event} && IsCheckOf(e, t) ==> e == idx[t])
      && (forall e :: e in all + {event} && IsCheckOf(e, t) ==> e == idx[t])
    {
    }
  }

  /** The full scan: all queued checks of a target, in list order. */
  ghost function Scan(s: seq<TimedEvent>, target: CheckTarget): seq<TimedEvent> {
    if s == [] then []
    else Scan(s[..|s| - 1], target) + if IsCheckOf(s[|s| - 1], target) then [s[|s| - 1]] else []
  }

  /** The back-pointer is what the full scan would find: null when it finds nothing, and otherwise
      the only thing it finds. */
  lemma {:induction false} IndexAgreesWithScan(s: seq<TimedEvent>, targets: set<CheckTarget>, target: CheckTarget)
    requires Distinct<TimedEvent>(s) && Indexed(Elements(s), Pointers(targets)) && target in targets
    ensures Scan(s, target) == if target.nextCheckEvent == null then [] else [target.nextCheckEvent]
  {
    var n := Pointers(targets)[target];
    forall i | 0 <= i < |s| && IsCheckOf(s[i], target) ensures s[i] == n {
      assert s[i] in Elements(s);
    }
    ScanFinds(s, target, n);
  }

  lemma {:induction false} ScanFinds(s: seq<TimedEvent>, target: CheckTarget, n: TimedEvent?)
    requires Distinct<TimedEvent>(s) && forall i :: 0 <= i < |s| && IsCheckOf(s[i], target) ==> s[i] == n
    requires n != null ==> IsCheckOf(n, target)
    ensures Scan(s, target) == if n != null && n in s then [n] else []
    decreases |s|
  {
    if s != [] {
      var front, last := s[..|s| - 1], s[|s| - 1];
      ScanFinds(front, target, n);
      assert s == front + [last];
    }
  }

  ghost predicate InOrder(s: seq<TimedEvent>)
    reads s`runTime
  {
    forall i, j :: 0 <= i < j < |s| ==> s[i].runTime <= s[j].runTime
  }

  ghost function TimesOf(all: set<TimedEvent>): (t: map<TimedEvent, int>)
    reads all`runTime
    ensures t.Keys == all
  {
    map e | e in all :: e.runTime
  }

  /** Every queued check is a one-time check of one of the configured hosts and services. */
  ghost predicate Owned(all: set<TimedEvent>, targets: set<CheckTarget>) {
    forall e :: e in all && !e.eventType.OtherEvent? ==>
      && e.eventData != null && e.eventData in targets && IsCheckOf(e, e.eventData)
      && !e.recurring && e.compensateForTimeChange && !e.hasTimingFunc
  }

  /** The invariant of the scheduler. */
  ghost predicate Valid(list: EventList, targets: set<CheckTarget>)
    reads list, list.events, targets`nextCheckEvent
  {
    && list.Valid()
    && InOrder(list.events)
    && Owned(Elements(list.events), targets)
    && Indexed(Elements(list.events), Pointers(targets))
  }

  /** The object of a queued check knows when it is due. */
  predicate InStep(target: CheckTarget)
    reads target, if target.nextCheckEvent == null then {} else {target.nextCheckEvent}
  {
    target.nextCheckEvent != null ==> target.nextCheck == target.nextCheckEvent.runTime
  }

  /** No object has got out of step. */
  twostate predicate StepsKept(targets: set<CheckTarget>)
    reads targets, set t | t in targets && t.nextCheckEvent != null :: t.nextCheckEvent
  {
    forall t {:trigger InStep(t)} :: t in targets && old(InStep(t)) ==> InStep(t)
  }

  lemma InOrderIsSorted(s: seq<TimedEvent>, t: map<TimedEvent, int>)
    requires Clocked(s, t)
    ensures TimesKnown<TimedEvent>(s, t)
    ensures InOrder(s) <==> Sorted<TimedEvent>(s, t)
  {
    forall i | 0 <= i < |s| ensures s[i] in t && t[s[i]] == s[i].runTime {
      var due := s[i].runTime;
    }
  }

  lemma InsertedElements(s: seq<TimedEvent>, r: seq<TimedEvent>, e: TimedEvent)
    requires multiset(r) == multiset(s) + multiset{e}
    ensures Elements(r) == Elements(s) + {e}
  {
    forall x ensures x in r <==> x in s || x == e {
      assert x in r <==> x in multiset(r);
      assert x in s <==> x in multiset(s);
    }
  }

  lemma RemovedElements(s: seq<TimedEvent>, k: nat)
    requires Distinct<TimedEvent>(s) && k < |s|
    ensures Elements(RemoveAt<TimedEvent>(s, k)) == Elements(s) - {s[k]}
    ensures InOrder(s) ==> InOrder(RemoveAt<TimedEvent>(s, k))
  {
    var r := RemoveAt<TimedEvent>(s, k);
    assert forall i :: 0 <= i < |r| ==> r[i] == if i < k then s[i] else s[i + 1];
    forall x | x in s && x != s[k] ensures x in r {
      var i :| 0 <= i < |s| && s[i] == x;
      assert x == r[if i < k then i else i - 1];
    }
  }

  // ---------- one request ----------

  /** What a queued check and a request have in common. */
  datatype Request = Request(forced: bool, time: int)

  /** Whether a request is worth replacing a queued check for. */
  predicate Replaces(request: Request, queued: Request) {
    if queued.forced then request.forced && request.time < queued.time
    else request.forced || request.time < queued.time
  }

  function QueuedRequest(e: TimedEvent): Request
    reads e`runTime
  {
    Request(e.eventOptions.forceExecution, e.runTime)
  }

  /** The queue after adding an event. */
  ghost function Enqueued(s: seq<TimedEvent>, event: TimedEvent): seq<TimedEvent>
    reads s`runTime, event`runTime
  {
    InsertByTime<TimedEvent>(s, event, TimesOf(Elements(s) + {event}))
  }

  method Enqueue(event: TimedEvent, list: EventList)
    requires list.Valid() && InOrder(list.events) && event !in list.events
    modifies list, event`next, event`prev, list.events`next, list.events`prev
    ensures list.Valid() && InOrder(list.events)
    ensures Elements(list.events) == Elements(old(list.events)) + {event}
    ensures list.events == Enqueued(old(list.events), event)
  {
    hide Sorted, InsertByTime;
    ghost var s := list.events;
    ghost var t := TimesOf(Elements(s) + {event});
    InOrderIsSorted(s, t);
    AddEvent(event, list, t);
    InsertedElements(s, list.events, event);
    InOrderIsSorted(list.events, t);
    assert t == TimesOf(Elements(s) + {event});
  }

  /** When a recurring event is due again. */
  function NextRunTime(event: TimedEvent, timingFuncValue: int, currentTime: int): int
    reads event`runTime
  {
    if !event.recurring then event.runTime
    else if event.hasTimingFunc then timingFuncValue
    else if event.runTime + event.eventInterval < currentTime then currentTime
    else event.runTime + event.eventInterval
  }

  /** Puts an event back into the queue; recurring events get a new run time first. */
  method RescheduleEvent(event: TimedEvent, list: EventList, timingFuncValue: int, currentTime: int)
    requires list.Valid() && InOrder(list.events) && event !in list.events
    modifies list, event`next, event`prev, event`runTime, list.events`next, list.events`prev
    ensures list.Valid() && InOrder(list.events)
    ensures Elements(list.events) == Elements(old(list.events)) + {event}
    ensures event.runTime == old(NextRunTime(event, timingFuncValue, currentTime))
    ensures list.events == Enqueued(old(list.events), event)
    ensures !event.recurring ==> event.runTime == old(event.runTime)
    ensures event.recurring && event.hasTimingFunc ==> event.runTime == timingFuncValue
    // the next turn of its interval, but not in the past
    ensures event.recurring && !event.hasTimingFunc ==>
      var due := old(event.runTime) + event.eventInterval;
      event.runTime >= due && event.runTime >= currentTime && (event.runTime == due || event.runTime == currentTime)
  {
    if event.recurring {
      if event.hasTimingFunc {
        event.runTime := timingFuncValue;
      } else {
        event.runTime := event.runTime + event.eventInterval;
        if event.runTime < currentTime {
          event.runTime := currentTime;
        }
      }
    }
    Enqueue(event, list);
  }

  // ---------- scheduling a check ----------

  function CheckEventType(target: CheckTarget): EventType {
    match target.kind { case HostTarget => HostCheckEvent case ServiceTarget => ServiceCheckEvent }
  }

  /** Nothing that existed before has got into the list. */
  twostate predicate OnlyNew(before: seq<TimedEvent>, new after: seq<TimedEvent>) {
    forall i :: 0 <= i < |after| ==> after[i] in before || fresh(after[i])
  }

  twostate lemma OnlyNewByElements(before: seq<TimedEvent>, new after: seq<TimedEvent>)
    requires forall e :: e in Elements(after) ==> e in Elements(before) || fresh(e)
    ensures OnlyNew(before, after)
  {
    forall i | 0 <= i < |after| ensures after[i] in before || fresh(after[i]) {
      assert after[i] in Elements(after);
    }
  }

  /** Kills off the event queued for a target, if any. */
  method DropQueued(tempEvent: TimedEvent?, list: EventList)
    requires list.Valid() && InOrder(list.events) && (tempEvent != null ==> tempEvent in list.events)
    modifies list, list.events`next, list.events`prev
    ensures list.Valid() && InOrder(list.events)
    ensures Elements(list.events) == Elements(old(list.events)) - {tempEvent}
    ensures tempEvent == null ==> list.events == old(list.events)
    ensures forall i :: 0 <= i < |list.events| ==> list.events[i] in old(list.events)
    ensures tempEvent != null ==> exists k: nat ::
      k < |old(list.events)| && old(list.events)[k] == tempEvent
        && list.events == RemoveAt<TimedEvent>(old(list.events), k)
  {
    hide InOrder, Elements, Linked;
    if tempEvent != null {
      ghost var s := list.events;
      ghost var k: nat :| k < |s| && s[k] == tempEvent;
      RemovedElements(s, k);
      RemoveEvent(tempEvent, list, k);
    }
  }

  /** Puts a new check event for a target into the queue. */
  method QueueNewCheck(target: CheckTarget, checkTime: int, options: CheckOptions, list: EventList)
        returns (newEvent: TimedEvent)
    requires list.Valid() && InOrder(list.events)
    modifies list, list.events`next, list.events`prev, target`nextCheckEvent, target`nextCheck, target`checkOptions
    ensures list.Valid() && InOrder(list.events)
    ensures fresh(newEvent) && IsCheckOf(newEvent, target)
    ensures newEvent.eventOptions == options && newEvent.runTime == checkTime
    ensures !newEvent.recurring && newEvent.compensateForTimeChange && !newEvent.hasTimingFunc
    ensures target.nextCheckEvent == newEvent && target.nextCheck == checkTime && target.checkOptions == options
    ensures Elements(list.events) == Elements(old(list.events)) + {newEvent}
    ensures list.events == Enqueued(old(list.events), newEvent)
    ensures newEvent.eventData == target
    ensures newEvent.eventType == if target.kind == HostTarget then HostCheckEvent else ServiceCheckEvent
  {
    hide InOrder, Enqueued, Elements, Linked;
    newEvent := new TimedEvent(CheckEventType(target), target, options, checkTime, false, 0, false, true);
    target.nextCheckEvent := newEvent;
    target.nextCheck := checkTime;
    target.checkOptions := options;
    RescheduleEvent(newEvent, list, 0, 0);
  }

  lemma OwnedReplaced(all: set<TimedEvent>, targets: set<CheckTarget>, tempEvent: TimedEvent?, newEvent: TimedEvent)
    requires Owned(all, targets) && newEvent.eventData != null && newEvent.eventData in targets
      && IsCheckOf(newEvent, newEvent.eventData)
    requires !newEvent.recurring && newEvent.compensateForTimeChange && !newEvent.hasTimingFunc
    ensures Owned(all - {tempEvent} + {newEvent}, targets)
  {
  }

  lemma QueuedIsListed(s: seq<TimedEvent>, idx: map<CheckTarget, TimedEvent?>, target: CheckTarget)
    requires Indexed(Elements(s), idx) && target in idx
    ensures idx[target] != null ==> idx[target] in s && IsCheckOf(idx[target], target)
  {
  }

  /** A new check event takes the place of the queued one. */
  method ReplaceQueued(target: CheckTarget, checkTime: int, options: CheckOptions, list: EventList,
                       ghost targets: set<CheckTarget>)
    requires Valid(list, targets) && target in targets
    modifies list, list.events`next, list.events`prev, target`nextCheckEvent, target`nextCheck, target`checkOptions
    ensures Valid(list, targets)
    ensures target.nextCheck == checkTime && target.checkOptions == options
    ensures target.nextCheckEvent != null && fresh(target.nextCheckEvent)
    ensures target.nextCheckEvent.eventOptions == options && target.nextCheckEvent.runTime == checkTime
    ensures Elements(list.events) == Elements(old(list.events)) - {old(target.nextCheckEvent)} + {target.nextCheckEvent}
    ensures OnlyNew(old(list.events), list.events)
  {
    hide Indexed, InOrder, Elements, Enqueued, RemoveAt, Owned;
    ghost var s, idx := list.events, Pointers(targets);
    var tempEvent := target.nextCheckEvent;
    assert idx[target] == tempEvent && (tempEvent != null ==> tempEvent in list.events) by {
      QueuedIsListed(list.events, idx, target);
    }
    DropQueued(tempEvent, list);
    var newEvent := QueueNewCheck(target, checkTime, options, list);
    IndexReplaced(Elements(s), idx, target, newEvent);
    OwnedReplaced(Elements(s), targets, tempEvent, newEvent);
    assert Pointers(targets) == idx[target := newEvent];
    OnlyNewByElements(s, list.events);
  }

  /** Schedules an immediate or delayed check: `schedule_service_check` and `schedule_host_check`. */
  method ScheduleCheck(target: CheckTarget, checkTime: int, options: CheckOptions, list: EventList,
                       ghost targets: set<CheckTarget>)
    requires Valid(list, targets) && target in targets
    modifies list, list.events`next, list.events`prev, target`nextCheckEvent, target`nextCheck, target`checkOptions
    ensures Valid(list, targets)
    ensures OnlyNew(old(list.events), list.events)
    ensures !target.checksEnabled && !options.forceExecution ==>
      && list.events == old(list.events) && target.nextCheckEvent == old(target.nextCheckEvent)
      && target.nextCheck == old(target.nextCheck) && target.checkOptions == old(target.checkOptions)
    ensures target.checksEnabled || options.forceExecution ==>
      var request := Request(options.forceExecution, checkTime);
      var queued := old(target.nextCheckEvent);
      && target.nextCheckEvent != null && target.nextCheck == target.nextCheckEvent.runTime
      && if queued != null && !Replaces(request, old(QueuedRequest(queued))) then
           target.nextCheckEvent == queued && list.events == old(list.events)
             && target.checkOptions == old(target.checkOptions)
         else
           && fresh(target.nextCheckEvent) && QueuedRequest(target.nextCheckEvent) == request
           && target.nextCheckEvent.eventOptions == target.checkOptions == options
           && Elements(list.events) == Elements(old(list.events)) - {queued} + {target.nextCheckEvent}
  {
    if !target.checksEnabled && !options.forceExecution {
      return;
    }
    var useOriginalEvent := false;
    var tempEvent := target.nextCheckEvent;
    assert Pointers(targets)[target] == tempEvent;
    if tempEvent != null {
      useOriginalEvent := true;
      if tempEvent.eventOptions.forceExecution {
        if options.forceExecution && checkTime < tempEvent.runTime {
          useOriginalEvent := false;
        }
      } else {
        if options.forceExecution {
          useOriginalEvent := false;
        } else if checkTime < tempEvent.runTime {
          useOriginalEvent := false;
        }
      }
    }
    if !useOriginalEvent {
      ReplaceQueued(target, checkTime, options, list, targets);
    } else if tempEvent != null {
      target.nextCheck := tempEvent.runTime;
    }
  }

  // ---------- planning ahead ----------

  /** What is planned is known: an object that is to be scheduled is in step with its queued check. */
  predicate Planned(target: CheckTarget)
    reads target, if target.nextCheckEvent == null then {} else {target.nextCheckEvent}
  {
    target.shouldBeScheduled ==> InStep(target)
  }

  /** Plans the next check of an object when a result has come in: not without an interval, and not
      with active checks disabled. */
  method PlanNextCheck(target: CheckTarget, nextCheck: int, recurs: bool, list: EventList,
                       ghost targets: set<CheckTarget>)
    requires Valid(list, targets) && target in targets
    modifies list, list.events`next, list.events`prev, target`nextCheckEvent, target`nextCheck, target`checkOptions
    modifies target`shouldBeScheduled
    ensures Valid(list, targets) && OnlyNew(old(list.events), list.events)
    ensures target.shouldBeScheduled == (recurs && target.checksEnabled) && Planned(target)
    // an earlier check that is queued stays, and so does a forced one; otherwise a new one is queued
    ensures target.shouldBeScheduled ==>
      var queued := old(target.nextCheckEvent);
      && target.nextCheckEvent != null && target.nextCheck == target.nextCheckEvent.runTime
      && if queued != null && (queued.eventOptions.forceExecution || old(queued.runTime) <= nextCheck) then
           target.nextCheckEvent == queued && list.events == old(list.events)
         else
           && fresh(target.nextCheckEvent) && target.nextCheck == nextCheck
           && target.nextCheckEvent.eventOptions == CHECK_OPTION_NONE
           && Elements(list.events) == Elements(old(list.events)) - {queued} + {target.nextCheckEvent}
    ensures !target.shouldBeScheduled ==>
      list.events == old(list.events) && target.nextCheckEvent == old(target.nextCheckEvent)
        && target.nextCheck == nextCheck
  {
    hide Indexed, Owned, InOrder, Linked;
    ghost var idx := Pointers(targets);
    target.shouldBeScheduled := true;
    target.nextCheck := nextCheck;
    if !recurs {
      target.shouldBeScheduled := false;
    }
    if !target.checksEnabled {
      target.shouldBeScheduled := false;
    }
    assert Pointers(targets) == idx;
    if target.shouldBeScheduled {
      ScheduleCheck(target, target.nextCheck, CHECK_OPTION_NONE, list, targets);
    }
  }

  /** `enable_service_checks`, `enable_host_checks`. */
  method EnableChecks(target: CheckTarget, nextCheck: int, recurs: bool, list: EventList,
                      ghost targets: set<CheckTarget>)
    requires Valid(list, targets) && target in targets
    modifies list, list.events`next, list.events`prev, target`nextCheckEvent, target`nextCheck, target`checkOptions
    modifies target`shouldBeScheduled, target`checksEnabled
    ensures Valid(list, targets) && OnlyNew(old(list.events), list.events)
    ensures target.checksEnabled
    ensures old(target.checksEnabled) ==> unchanged(list) && unchanged(target)
    ensures !old(target.checksEnabled) ==>
      && target.shouldBeScheduled == recurs && Planned(target)
      && (!recurs ==> list.events == old(list.events) && target.nextCheck == nextCheck
                      && target.nextCheckEvent == old(target.nextCheckEvent))
    ensures !old(target.checksEnabled) && recurs ==>
      var queued := old(target.nextCheckEvent);
      && target.nextCheckEvent != null && target.nextCheck == target.nextCheckEvent.runTime
      && if queued != null && (queued.eventOptions.forceExecution || old(queued.runTime) <= nextCheck) then
           target.nextCheckEvent == queued && list.events == old(list.events)
         else
           && fresh(target.nextCheckEvent) && target.nextCheck == nextCheck
           && target.nextCheckEvent.eventOptions == CHECK_OPTION_NONE
           && Elements(list.events) == Elements(old(list.events)) - {queued} + {target.nextCheckEvent}
  {
    hide Indexed, Owned, InOrder, Linked;
    if target.checksEnabled {
      return;
    }
    ghost var idx := Pointers(targets);
    target.checksEnabled := true;
    target.shouldBeScheduled := true;
    if !recurs {
      target.shouldBeScheduled := false;
    }
    target.nextCheck := nextCheck;
    assert Pointers(targets) == idx;
    if target.shouldBeScheduled {
      ScheduleCheck(target, target.nextCheck, CHECK_OPTION_NONE, list, targets);
    }
  }

  /** `disable_service_checks`, `disable_host_checks`; a queued check stays queued. */
  method DisableChecks(target: CheckTarget, list: EventList, ghost targets: set<CheckTarget>)
    requires Valid(list, targets)
    modifies target`checksEnabled, target`shouldBeScheduled
    ensures Valid(list, targets) && !target.checksEnabled
    ensures target.shouldBeScheduled == (old(target.shouldBeScheduled) && !old(target.checksEnabled))
  {
    hide Indexed, Owned, InOrder, Linked;
    ghost var idx := Pointers(targets);
    if !target.checksEnabled {
      return;
    }
    target.checksEnabled := false;
    target.shouldBeScheduled := false;
    assert Pointers(targets) == idx;
  }

  // ---------- the other operations on the list ----------

  /** The back-pointers after an event is created: a check is pointed to by its object. */
  ghost function PointedTo(idx: map<CheckTarget, TimedEvent?>, event: TimedEvent): map<CheckTarget, TimedEvent?> {
    if event.eventType.OtherEvent? || event.eventData == null then idx else idx[event.eventData := event]
  }

  lemma EventCreated(all: set<TimedEvent>, idx: map<CheckTarget, TimedEvent?>, targets: set<CheckTarget>,
                     event: TimedEvent)
    requires Indexed(all, idx) && Owned(all, targets) && idx.Keys == targets && event !in all
    requires !event.eventType.OtherEvent? ==>
      && event.eventData != null && event.eventData in targets && IsCheckOf(event, event.eventData)
      && idx[event.eventData] == null
      && !event.recurring && event.compensateForTimeChange && !event.hasTimingFunc
    ensures Indexed(all + {event}, PointedTo(idx, event)) && Owned(all + {event}, targets)
  {
    if event.eventType.OtherEvent? {
      IndexUntouched(all, idx, event);
    } else {
      IndexReplaced(all, idx, event.eventData, event);
      assert all - {idx[event.eventData]} == all;
    }
  }

  /** Creates an event on the low-priority list; check events are only created this way for
      objects that have none queued. */
  method ScheduleNewEvent(eventType: EventType, runTime: int, recurring: bool, eventInterval: nat, hasTimingFunc: bool,
                          compensateForTimeChange: bool, eventData: CheckTarget?, eventOptions: CheckOptions,
                          list: EventList, ghost targets: set<CheckTarget>)
      returns (ghost event: TimedEvent)
    requires Valid(list, targets)
    requires !eventType.OtherEvent? ==>
      && eventData != null && eventData in targets && eventType == CheckEventType(eventData)
      && eventData.nextCheckEvent == null && !recurring && compensateForTimeChange && !hasTimingFunc
    modifies list, list.events`next, list.events`prev
    modifies (if eventType.OtherEvent? || eventData == null then {} else {eventData})`nextCheckEvent
    ensures Valid(list, targets)
    ensures fresh(event) && list.events == Enqueued(old(list.events), event)
    ensures OnlyNew(old(list.events), list.events)
    ensures event.eventType == eventType && event.eventData == eventData && event.runTime == runTime
      && event.eventOptions == eventOptions
    ensures Pointers(targets) == PointedTo(old(Pointers(targets)), event)
  {
    hide Indexed, InOrder, Elements, Enqueued, Owned;
    ghost var s, idx := list.events, Pointers(targets);
    var newEvent := new TimedEvent(eventType, eventData, eventOptions, runTime, recurring, eventInterval, hasTimingFunc,
                                   compensateForTimeChange);
    event := newEvent;
    if eventType == ServiceCheckEvent {
      eventData.nextCheckEvent := newEvent;
    }
    if eventType == HostCheckEvent {
      eventData.nextCheckEvent := newEvent;
    }
    assert Pointers(targets) == PointedTo(idx, newEvent);
    Enqueue(newEvent, list);
    assert newEvent !in Elements(s) by { NotElement(s, newEvent); }
    EventCreated(Elements(s), idx, targets, newEvent);
    assert Pointers(targets) == PointedTo(idx, newEvent);
    assert Owned(Elements(list.events), targets);
    assert Indexed(Elements(list.events), Pointers(targets));
    OnlyNewByElements(s, list.events);
  }

  lemma NotElement(s: seq<TimedEvent>, event: TimedEvent)
    requires event !in s
    ensures event !in Elements(s)
  {
  }

  /** What became of a check that was started: launched, or not viable until a preferred time. */
  datatype Outcome = Launched | NotLaunched(preferredTime: int, timeIsValid: bool)

  /** The check period of an object, as seen through the time-period functions. */
  datatype Period = Period(nextValid: int -> int, contains: int -> bool)

  const WEEK := 604800  // seconds

  /** The time a check that could not be launched is put off to. */
  function PutOffTo(kind: TargetKind, outcome: Outcome, currentTime: int, recheckDelay: int, period: Period): int
    requires outcome.NotLaunched?
  {
    var preferred := if currentTime >= outcome.preferredTime then currentTime + recheckDelay else outcome.preferredTime;
    var valid := period.nextValid(preferred);
    var hopeless := match kind { case ServiceTarget => !period.contains(valid) case HostTarget => valid == preferred };
    if !outcome.timeIsValid && hopeless then valid + WEEK else valid
  }

  /** Put off from the preferred time, or from now if that is past; a week later if that is hopeless. */
  lemma PutOffIs(kind: TargetKind, outcome: Outcome, currentTime: int, recheckDelay: int, period: Period)
    requires outcome.NotLaunched?
    ensures
      var wanted := if currentTime < outcome.preferredTime then outcome.preferredTime else currentTime + recheckDelay;
      var valid := period.nextValid(wanted);
      var hopeless := !outcome.timeIsValid
        && if kind == ServiceTarget then !period.contains(valid) else valid == wanted;
      PutOffTo(kind, outcome, currentTime, recheckDelay, period) == if hopeless then valid + 7 * 24 * 60 * 60 else valid
  {
  }

  /** A check that could not be launched is never put off into the past, as long as the next valid
      time of a period is not before the time asked for; and not to the present either, so that
      the loop goes on, when the delay is positive. */
  lemma PutOffAhead(kind: TargetKind, outcome: Outcome, currentTime: int, recheckDelay: nat, period: Period)
    requires outcome.NotLaunched? && forall t :: period.nextValid(t) >= t
    ensures PutOffTo(kind, outcome, currentTime, recheckDelay, period) >= currentTime
    ensures recheckDelay > 0 ==> PutOffTo(kind, outcome, currentTime, recheckDelay, period) > currentTime
  {
    var preferred := if currentTime >= outcome.preferredTime then currentTime + recheckDelay else outcome.preferredTime;
    assert period.nextValid(preferred) >= preferred;
  }

  /** The state between popping a check and clearing its back-pointer. */
  ghost predicate ValidButFor(list: EventList, targets: set<CheckTarget>, target: CheckTarget)
    requires target in targets
    reads list, list.events, targets`nextCheckEvent
  {
    && list.Valid()
    && InOrder(list.events)
    && Owned(Elements(list.events), targets)
    && Indexed(Elements(list.events), Pointers(targets)[target := null])
  }

  /** Runs a check whose event has just left the queue: `run_scheduled_service_check` and
      `run_scheduled_host_check_3x`. */
  method RunScheduledCheck(target: CheckTarget, checkOptions: CheckOptions, outcome: Outcome, currentTime: int,
                           recheckDelay: int, period: Period, list: EventList, ghost targets: set<CheckTarget>)
    requires target in targets && ValidButFor(list, targets, target)
    modifies list, list.events`next, list.events`prev
    modifies target`nextCheckEvent, target`nextCheck, target`checkOptions
    ensures Valid(list, targets)
    ensures outcome.Launched? || !target.shouldBeScheduled ==>
      target.nextCheckEvent == null && list.events == old(list.events)
    ensures OnlyNew(old(list.events), list.events)
    ensures outcome.NotLaunched? && target.shouldBeScheduled ==>
      if target.checksEnabled || checkOptions.forceExecution then
        && target.nextCheckEvent != null && fresh(target.nextCheckEvent)
        && target.nextCheckEvent.eventOptions == checkOptions
        && target.nextCheck == target.nextCheckEvent.runTime
        && target.nextCheck == PutOffTo(target.kind, outcome, currentTime, recheckDelay, period)
        && Elements(list.events) == Elements(old(list.events)) + {target.nextCheckEvent}
      else target.nextCheckEvent == null && list.events == old(list.events)
    ensures outcome.NotLaunched? && target.shouldBeScheduled ==>
      var wanted := if currentTime < outcome.preferredTime then outcome.preferredTime else currentTime + recheckDelay;
      var valid := period.nextValid(wanted);
      var hopeless := !outcome.timeIsValid &&
        if target.kind == ServiceTarget then !period.contains(valid) else valid == wanted;
      target.checksEnabled || checkOptions.forceExecution ==>
        target.nextCheck == if hopeless then valid + 7 * 24 * 60 * 60 else valid
  {
    hide PutOffTo, Owned, InOrder, Elements, Replaces;
    ghost var idx := Pointers(targets);
    target.nextCheckEvent := null;
    assert Pointers(targets) == idx[target := null];
    if outcome.Launched? {
      target.checkOptions := CHECK_OPTION_NONE;
      return;
    }
    if target.shouldBeScheduled {
      PutOffIs(target.kind, outcome, currentTime, recheckDelay, period);
      target.nextCheck := PutOffTo(target.kind, outcome, currentTime, recheckDelay, period);
      ScheduleCheck(target, target.nextCheck, checkOptions, list, targets);
    }
  }

  lemma HeadPopped(s: seq<TimedEvent>, targets: set<CheckTarget>, idx: map<CheckTarget, TimedEvent?>)
    requires Distinct<TimedEvent>(s) && s != [] && InOrder(s) && Owned(Elements(s), targets)
      && Indexed(Elements(s), idx) && idx.Keys == targets
    ensures InOrder(s[1..]) && Owned(Elements(s[1..]), targets)
    ensures Elements(s[1..]) == Elements(s) - {s[0]}
    ensures s[0].eventType.OtherEvent? ==> Indexed(Elements(s[1..]), idx)
    ensures !s[0].eventType.OtherEvent? ==>
      && s[0].eventData != null && s[0].eventData in targets && IsCheckOf(s[0], s[0].eventData) && !s[0].recurring
      && idx[s[0].eventData] == s[0] && Indexed(Elements(s[1..]), idx[s[0].eventData := null])
  {
    RemovedElements(s, 0);
    assert RemoveAt<TimedEvent>(s, 0) == s[1..];
    assert s[0] in Elements(s);
    if s[0].eventType.OtherEvent? {
      IndexUntouched(Elements(s), idx, s[0]);
    } else {
      IndexPopped(Elements(s), idx, s[0].eventData, s[0]);
    }
  }

  /** What has become of the first check of a queue when it has been run. */
  twostate predicate HeadRan(head: TimedEvent, before: seq<TimedEvent>, list: EventList, turn: Turn)
    requires before != [] && head.eventData != null
    reads list, list.events, head.eventData
    reads if head.eventData.nextCheckEvent == null then {} else {head.eventData.nextCheckEvent}
  {
    var target: CheckTarget := head.eventData;
    if turn.outcome.NotLaunched? && target.shouldBeScheduled
       && (target.checksEnabled || head.eventOptions.forceExecution) then
      && target.nextCheckEvent != null && fresh(target.nextCheckEvent)
      && target.nextCheckEvent.eventOptions == head.eventOptions
      && target.nextCheck == target.nextCheckEvent.runTime
      && target.nextCheck == PutOffTo(target.kind, turn.outcome, turn.currentTime, turn.recheckDelay, turn.period)
      && Elements(list.events) == Elements(before[1..]) + {target.nextCheckEvent}
    else target.nextCheckEvent == null && list.events == before[1..]
  }

  /** Takes the first check out of the queue and runs it. */
  method RunHead(turn: Turn, list: EventList, ghost targets: set<CheckTarget>)
    requires Valid(list, targets) && list.head != null && !list.head.eventType.OtherEvent?
      && list.head.eventData != null
    modifies list, list.events`next, list.events`prev, targets`nextCheckEvent, targets`nextCheck, targets`checkOptions
    ensures Valid(list, targets)
    ensures OnlyNew(old(list.events), list.events) && StepsKept(targets)
    ensures HeadRan(old(list.head), old(list.events), list, turn) && old(list.head) !in list.events
  {
    hide Indexed, Owned, InOrder, Enqueued;
    ghost var s, idx := list.events, Pointers(targets);
    HeadPopped(s, targets, idx);
    var tempEvent := PopHead(list);
    assert Pointers(targets) == idx;
    RunScheduledCheck(tempEvent.eventData, tempEvent.eventOptions, turn.outcome, turn.currentTime, turn.recheckDelay,
                      turn.period, list, targets);
    assert forall e :: e in s[1..] ==> e in s;
  }

  /** Takes the first event out of the queue for its handler to run; not for checks. */
  method HandOverHead(list: EventList, ghost targets: set<CheckTarget>) returns (event: TimedEvent)
    requires Valid(list, targets) && list.head != null && list.head.eventType.OtherEvent?
    modifies list, list.events`prev
    ensures Valid(list, targets) && Pointers(targets) == old(Pointers(targets))
    ensures event == old(list.head) && list.events == old(list.events)[1..] && event !in list.events
  {
    hide Indexed, Owned, InOrder;
    ghost var s, idx := list.events, Pointers(targets);
    HeadPopped(s, targets, idx);
    event := PopHead(list);
    assert Pointers(targets) == idx;
  }

  /** Puts an event back after its handler has run, if it recurs. */
  method TakeBack(event: TimedEvent, timingFuncValue: int, currentTime: int, list: EventList,
                  ghost targets: set<CheckTarget>)
    requires Valid(list, targets) && event.eventType.OtherEvent? && event !in list.events
    modifies list, event`next, event`prev, event`runTime, list.events`next, list.events`prev
    ensures Valid(list, targets) && Pointers(targets) == old(Pointers(targets))
    ensures event.recurring ==>
      && event.runTime == old(NextRunTime(event, timingFuncValue, currentTime))
      && list.events == Enqueued(old(list.events), event)
      && Elements(list.events) == Elements(old(list.events)) + {event}
    ensures !event.recurring ==> list.events == old(list.events)
    ensures forall i :: 0 <= i < |list.events| ==> list.events[i] == event || list.events[i] in old(list.events)
    ensures StepsKept(targets)
    ensures event.recurring && event.hasTimingFunc ==> event.runTime == timingFuncValue
    ensures event.recurring && !event.hasTimingFunc ==>
      var due := old(event.runTime) + event.eventInterval;
      event.runTime >= due && event.runTime >= currentTime && (event.runTime == due || event.runTime == currentTime)
  {
    hide Indexed, Owned, InOrder, Enqueued, Elements;
    ghost var s, idx := list.events, Pointers(targets);
    OtherAdded(Elements(s), targets, idx, event);
    NobodyPointsAt(Elements(s), idx, event);
    if event.recurring {
      RescheduleEvent(event, list, timingFuncValue, currentTime);
      assert Pointers(targets) == idx;
      OneMore(s, list.events, event);
      forall t | t in targets && old(InStep(t)) ensures InStep(t) {
        assert idx[t] == t.nextCheckEvent;
      }
    }
  }

  lemma NobodyPointsAt(all: set<TimedEvent>, idx: map<CheckTarget, TimedEvent?>, event: TimedEvent)
    requires Indexed(all, idx) && event.eventType.OtherEvent?
    ensures forall t :: t in idx ==> idx[t] != event
  {
    forall t | t in idx ensures idx[t] != event {
      assert idx[t] != null ==> IsCheckOf(idx[t], t);
    }
  }

  lemma OneMore(s: seq<TimedEvent>, r: seq<TimedEvent>, event: TimedEvent)
    requires Elements(r) == Elements(s) + {event}
    ensures forall i :: 0 <= i < |r| ==> r[i] == event || r[i] in s
  {
    forall i | 0 <= i < |r| ensures r[i] == event || r[i] in s {
      assert r[i] in Elements(r);
    }
  }

  lemma OtherAdded(all: set<TimedEvent>, targets: set<CheckTarget>, idx: map<CheckTarget, TimedEvent?>,
                   event: TimedEvent)
    requires Owned(all, targets) && Indexed(all, idx) && event.eventType.OtherEvent?
    ensures Owned(all + {event}, targets) && Indexed(all + {event}, idx)
  {
    IndexUntouched(all, idx, event);
  }

  /** Takes the first event out with `remove_event`. */
  method TakeHead(list: EventList) returns (event: TimedEvent)
    requires list.Valid() && InOrder(list.events) && list.head != null
    modifies list, list.events`next, list.events`prev
    ensures list.Valid() && InOrder(list.events)
    ensures event == old(list.head) && event !in list.events && list.events == old(list.events)[1..]
    ensures forall i :: 0 <= i < |list.events| ==> list.events[i] in old(list.events)
  {
    hide InOrder;
    event := list.head;
    TailInOrder(list.events);
    RemoveEvent(event, list, 0);
  }

  lemma TailInOrder(s: seq<TimedEvent>)
    requires s != [] && Distinct<TimedEvent>(s) && InOrder(s)
    ensures InOrder(s[1..]) && s[0] !in s[1..] && RemoveAt<TimedEvent>(s, 0) == s[1..]
  {
  }

  /** Puts the first check off: it leaves the queue and comes back with the next check time of its
      object, which moves by `delay`. */
  method PostponeHead(delay: int, list: EventList, ghost targets: set<CheckTarget>)
    requires Valid(list, targets) && list.head != null && !list.head.eventType.OtherEvent?
    modifies list, list.events`next, list.events`prev, list.head`runTime, targets`nextCheck
    ensures Valid(list, targets)
    ensures var head := old(list.head);
      && list.events == Enqueued(old(list.events)[1..], head)
      && Elements(list.events) == Elements(old(list.events))
      && head.eventData.nextCheck == head.runTime == old(head.eventData.nextCheck) + delay
    ensures Pointers(targets) == old(Pointers(targets)) && StepsKept(targets)
    ensures forall i :: 0 <= i < |list.events| ==> list.events[i] in old(list.events)
  {
    hide Indexed, Owned, InOrder, Enqueued, Elements, Linked;
    ghost var s, idx := list.events, Pointers(targets);
    HeadPopped(s, targets, idx);
    HeadIsItsOwn(s, idx);
    var tempEvent := TakeHead(list);
    PutOff(tempEvent, tempEvent.eventData, delay, list);
    HeadBack(s);
    SameMembers(list.events, s);
    assert Pointers(targets) == idx;
    forall t | t in targets && old(InStep(t)) ensures InStep(t) {
      assert idx[t] == t.nextCheckEvent;
    }
  }

  /** An event that is out of the queue comes back with the new time of its object. */
  method PutOff(event: TimedEvent, target: CheckTarget, delay: int, list: EventList)
    requires list.Valid() && InOrder(list.events) && event !in list.events && !event.recurring
    modifies list, event`next, event`prev, event`runTime, list.events`next, list.events`prev, target`nextCheck
    ensures list.Valid() && InOrder(list.events)
    ensures list.events == Enqueued(old(list.events), event)
    ensures Elements(list.events) == Elements(old(list.events)) + {event}
    ensures target.nextCheck == event.runTime == old(target.nextCheck) + delay
  {
    hide InOrder, Enqueued, Elements, Linked;
    target.nextCheck := target.nextCheck + delay;
    event.runTime := target.nextCheck;
    assert InOrder(list.events);
    RescheduleEvent(event, list, 0, 0);
  }

  /** No object but its own points at the first check. */
  lemma HeadIsItsOwn(s: seq<TimedEvent>, idx: map<CheckTarget, TimedEvent?>)
    requires s != [] && Indexed(Elements(s), idx)
    ensures forall t :: t in idx && idx[t] == s[0] ==> s[0].eventData == t
  {
    forall t | t in idx && idx[t] == s[0] ensures s[0].eventData == t {
      assert IsCheckOf(idx[t], t);
    }
  }

  lemma HeadBack(s: seq<TimedEvent>)
    requires s != []
    ensures Elements(s[1..]) + {s[0]} == Elements(s)
  {
  }

  lemma SameMembers(s: seq<TimedEvent>, r: seq<TimedEvent>)
    requires Elements(s) == Elements(r)
    ensures forall i :: 0 <= i < |s| ==> s[i] in r
  {
    forall i | 0 <= i < |s| ensures s[i] in r {
      assert s[i] in Elements(s);
    }
  }

  // ---------- the event loop ----------

  /** What one turn of the loop sees of the outside. */
  datatype Turn = Turn(currentTime: int, maxParallelServiceChecks: nat, runningServiceChecks: nat,
                       executeServiceChecks: bool, executeHostChecks: bool,
                       nudgeSeconds: nat, regularDelay: int, outcome: Outcome, recheckDelay: int, period: Period)

  /** One turn of the loop over the low-priority list. A check that is due is put off or run; any
      other event that is due leaves the list and is handed out to its handler. */
  method LowPriorityTurn(turn: Turn, list: EventList, ghost targets: set<CheckTarget>)
      returns (handed: TimedEvent?, ghost putOff: bool)
    requires Valid(list, targets)
    modifies list, list.events`next, list.events`prev, list.events`runTime
    modifies targets`nextCheckEvent, targets`nextCheck, targets`checkOptions
    ensures Valid(list, targets)
    ensures OnlyNew(old(list.events), list.events) && StepsKept(targets)
    ensures handed != null ==> handed.eventType.OtherEvent? && handed in old(list.events) && handed !in list.events
    ensures old(list.head) == null || turn.currentTime < old(list.head.runTime) ==>
      handed == null && !putOff && list.events == old(list.events) && unchanged(list) && unchanged(targets)
    ensures old(list.head) != null && turn.currentTime >= old(list.head.runTime) ==>
      var head, before := old(list.head), old(list.events);
      match head.eventType
      case OtherEvent(_) =>
        && handed == head && !putOff && handed !in list.events && list.events == before[1..]
        && Pointers(targets) == old(Pointers(targets))
      case HostCheckEvent =>
        && handed == null && head.eventData != null
        && (putOff <==> !turn.executeHostChecks && !old(list.head.eventData.checkOptions.forceExecution))
      case ServiceCheckEvent =>
        && handed == null && head.eventData != null
        && (putOff <==>
              && (!turn.executeServiceChecks
                  || (turn.maxParallelServiceChecks != 0 && turn.runningServiceChecks >= turn.maxParallelServiceChecks))
              && !old(list.head.eventData.checkOptions.forceExecution))
    // a check that is put off stays queued for its new time
    ensures putOff ==>
      var head := old(list.head);
      var nudged := head.eventType == ServiceCheckEvent && turn.nudgeSeconds != 0 && turn.maxParallelServiceChecks != 0
        && turn.runningServiceChecks >= turn.maxParallelServiceChecks;
      && head != null && head.eventData != null
      && head.runTime == old(list.head.eventData.nextCheck) + (if nudged then turn.nudgeSeconds else turn.regularDelay)
      && head.eventData.nextCheck == head.runTime
      && Elements(list.events) == Elements(old(list.events)) && Pointers(targets) == old(Pointers(targets))
    // a check that is not put off is run
    ensures old(list.head) != null && turn.currentTime >= old(list.head.runTime) && !putOff ==>
      var head := old(list.head);
      head.eventType.OtherEvent? ||
        (head.eventData != null && HeadRan(head, old(list.events), list, turn) && head !in list.events)
  {
    hide Indexed, Owned, InOrder;
    handed, putOff := null, false;
    if list.head != null && turn.currentTime >= list.head.runTime {
      HeadPopped(list.events, targets, Pointers(targets));
      var runEvent := true;
      var nudgeSeconds := 0;
      if list.head.eventType == ServiceCheckEvent {
        if turn.maxParallelServiceChecks != 0 && turn.runningServiceChecks >= turn.maxParallelServiceChecks {
          nudgeSeconds := turn.nudgeSeconds;
          runEvent := false;
        }
        if !turn.executeServiceChecks {
          runEvent := false;
        }
        if list.head.eventData.checkOptions.forceExecution {
          runEvent := true;
        }
      } else if list.head.eventType == HostCheckEvent {
        if !turn.executeHostChecks {
          runEvent := false;
        }
        if list.head.eventData.checkOptions.forceExecution {
          runEvent := true;
        }
      }
      if !runEvent {
        putOff := true;
        PostponeHead(if nudgeSeconds != 0 then nudgeSeconds else turn.regularDelay, list, targets);
      } else if list.head.eventType.OtherEvent? {
        handed := HandOverHead(list, targets);
      } else {
        RunHead(turn, list, targets);
      }
    }
  }

  // ---------- sorting the list again ----------

  /** The scheduler invariant without the order of the list. */
  ghost predicate ValidButForOrder(list: EventList, targets: set<CheckTarget>)
    reads list, list.events, targets`nextCheckEvent
  {
    && list.Valid()
    && Owned(Elements(list.events), targets)
    && Indexed(Elements(list.events), Pointers(targets))
  }

  lemma TimesOfClocked(s: seq<TimedEvent>, all: set<TimedEvent>)
    requires Elements(s) == all
    ensures Clocked(s, TimesOf(all))
  {
  }

  lemma SameElements(s: seq<TimedEvent>, r: seq<TimedEvent>)
    requires multiset(s) == multiset(r)
    ensures Elements(s) == Elements(r)
  {
    forall e ensures e in s <==> e in r {
      assert e in s <==> e in multiset(s);
      assert e in r <==> e in multiset(r);
    }
  }

  /** Sorts the list after run times have been overwritten. */
  method ResortChecks(list: EventList, ghost targets: set<CheckTarget>)
    requires ValidButForOrder(list, targets)
    modifies list, list.events`next, list.events`prev
    ensures ValidButForOrder(list, targets) && InOrder(list.events)
    ensures TimesKnown<TimedEvent>(old(list.events), TimesOf(Elements(old(list.events))))
    ensures list.events == SortByTime<TimedEvent>(old(list.events), TimesOf(Elements(old(list.events))))
    ensures Elements(list.events) == Elements(old(list.events)) && Pointers(targets) == old(Pointers(targets))
  {
    hide Indexed, Owned, Elements, InOrder, Sorted, SortByTime;
    ghost var s := list.events;
    ghost var t := TimesOf(Elements(s));
    TimesOfClocked(s, Elements(s));
    InOrderIsSorted(s, t);
    ResortEventList(list, t);
    SameElements(s, list.events);
    TimesOfClocked(list.events, Elements(s));
    InOrderIsSorted(list.events, t);
  }
}
