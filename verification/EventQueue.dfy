/** The timed-event lists (base/events.c): doubly linked lists with head and tail pointers, kept
    in order of run time. */
module EventQueue {
  import opened Common
  import opened Timeline

  datatype TargetKind = HostTarget | ServiceTarget

  datatype CheckOptions = CheckOptions(forceExecution: bool, freshnessCheck: bool, orphanCheck: bool)

  const CHECK_OPTION_NONE := CheckOptions(false, false, false)

  datatype EventType = ServiceCheckEvent | HostCheckEvent | OtherEvent(code: nat)

  /** The scheduling fields of a host or a service, and its timestamps. */
  class CheckTarget {
    const kind: TargetKind
    var checksEnabled: bool
    var shouldBeScheduled: bool
    var checkOptions: CheckOptions
    var nextCheck: int
    var executionTime: real
    var nextCheckEvent: TimedEvent?
    var lastNotification: int
    var nextNotification: int
    var lastCheck: int
    var lastStateChange: int
    var lastHardStateChange: int
    var lastStateHistoryUpdate: int  // of hosts only

    constructor (kind: TargetKind)
      ensures this.kind == kind && nextCheckEvent == null && nextCheck == 0
    {
      this.kind := kind;
      lastNotification, nextNotification, lastCheck := 0, 0, 0;
      lastStateChange, lastHardStateChange, lastStateHistoryUpdate := 0, 0, 0;
      checksEnabled, shouldBeScheduled, checkOptions := true, true, CHECK_OPTION_NONE;
      nextCheck, executionTime, nextCheckEvent := 0, 0.0, null;
    }
  }

  class TimedEvent {
    const eventType: EventType
    const eventData: CheckTarget?
    const eventOptions: CheckOptions
    const recurring: bool
    const eventInterval: nat
    const hasTimingFunc: bool
    const compensateForTimeChange: bool
    var runTime: int
    var next: TimedEvent?
    var prev: TimedEvent?

    constructor (eventType: EventType, eventData: CheckTarget?, eventOptions: CheckOptions, runTime: int,
                 recurring: bool, eventInterval: nat, hasTimingFunc: bool, compensateForTimeChange: bool)
      ensures this.eventType == eventType && this.eventData == eventData && this.eventOptions == eventOptions
      ensures this.runTime == runTime && this.recurring == recurring && this.eventInterval == eventInterval
      ensures this.hasTimingFunc == hasTimingFunc && this.compensateForTimeChange == compensateForTimeChange
    {
      this.eventType, this.eventData, this.eventOptions, this.runTime := eventType, eventData, eventOptions, runTime;
      this.recurring, this.eventInterval, this.hasTimingFunc := recurring, eventInterval, hasTimingFunc;
      this.compensateForTimeChange := compensateForTimeChange;
      next, prev := null, null;
    }
  }

  /** `t` says when each of these events is due. */
  ghost predicate Clocked(s: seq<TimedEvent>, t: map<TimedEvent, int>)
    reads s`runTime
  {
    forall i {:trigger s[i].runTime} {:trigger t[s[i]]} :: 0 <= i < |s| ==> s[i] in t && t[s[i]] == s[i].runTime
  }

  /** A list, abstractly the sequence `events`. When it runs empty the tail pointer is left
      behind, so the tail is only right while there is a head. */
  class EventList {
    var head: TimedEvent?
    var tail: TimedEvent?
    ghost var events: seq<TimedEvent>

    ghost predicate Valid()
      reads this, events`next, events`prev
    {
      && Distinct<TimedEvent>(events)
      && head == (if events == [] then null else events[0])
      && (head != null ==> tail == events[|events| - 1])
      && Linked(events)
    }

    constructor ()
      ensures Valid() && events == []
    {
      head, tail, events := null, null, [];
    }
  }

  /** Both link fields of every event agree with the order of `s`. */
  ghost predicate Linked(s: seq<TimedEvent>)
    reads s`next, s`prev
  {
    && (forall i {:trigger s[i].next} :: 0 <= i < |s| ==> s[i].next == (if i + 1 < |s| then s[i + 1] else null))
    && (forall i {:trigger s[i].prev} :: 0 <= i < |s| ==> s[i].prev == (if i > 0 then s[i - 1] else null))
  }

  /** The place found from the run times is where `InsertByTime` inserts. */
  lemma InsertPlace(s: seq<TimedEvent>, event: TimedEvent, k: nat, t: map<TimedEvent, int>)
    requires Clocked(s, t) && event in t && t[event] == event.runTime
    requires TimesKnown<TimedEvent>(s, t) && Sorted<TimedEvent>(s, t)
    requires k <= |s| && (k > 0 ==> s[k - 1].runTime <= event.runTime) && (k < |s| ==> event.runTime < s[k].runTime)
    ensures InsertAt<TimedEvent>(s, k, event) == InsertByTime<TimedEvent>(s, event, t)
    ensures TimesKnown<TimedEvent>(InsertAt<TimedEvent>(s, k, event), t)
      && Sorted<TimedEvent>(InsertAt<TimedEvent>(s, k, event), t)
  {
    InsertByTimePosition<TimedEvent>(s, k, event, t);
    InsertedSorted<TimedEvent>(s, event, t);
  }

  /** Links an event in front of the head. */
  method LinkFirst(event: TimedEvent, list: EventList)
    requires list.Valid() && event !in list.events && list.head != null
    modifies list, event`next, event`prev, list.head`prev
    ensures list.events == [event] + old(list.events) && list.Valid()
  {
    event.prev := null;
    list.head.prev := event;
    event.next := list.head;
    list.head := event;
    list.events := [event] + list.events;
  }

  /** Links an event behind the `k`-th one. */
  method LinkBehind(event: TimedEvent, tempEvent: TimedEvent, list: EventList, ghost k: nat)
    requires list.Valid() && event !in list.events && 0 < k <= |list.events| && tempEvent == list.events[k - 1]
    modifies list, event`next, event`prev, list.events`next, list.events`prev
    ensures list.events == InsertAt<TimedEvent>(old(list.events), k, event) && list.Valid()
  {
    ghost var s := list.events;
    event.next := tempEvent.next;
    event.prev := tempEvent;
    tempEvent.next := event;
    if event.next == null {
      list.tail := event;
    } else {
      event.next.prev := event;
    }
    list.events := InsertAt<TimedEvent>(s, k, event);
  }

  /** Looks for the place of an event from the end of the list, as new events are likely to be due last. */
  method FindPlace(event: TimedEvent, list: EventList) returns (tempEvent: TimedEvent, ghost k: nat)
    requires list.Valid() && list.head != null && list.head.runTime <= event.runTime
    ensures 0 < k <= |list.events| && tempEvent == list.events[k - 1] && tempEvent.runTime <= event.runTime
    ensures k < |list.events| ==> event.runTime < list.events[k].runTime
  {
    tempEvent := list.tail;
    k := |list.events|;
    while event.runTime < tempEvent.runTime
      invariant 0 < k <= |list.events| && tempEvent == list.events[k - 1]
      invariant k < |list.events| ==> event.runTime < list.events[k].runTime
      decreases k
    {
      // never null: an event due before the head does not get here
      tempEvent := tempEvent.prev;
      k := k - 1;
    }
  }

  /** Puts an event into the list behind everything due no later. */
  method AddEvent(event: TimedEvent, list: EventList, ghost t: map<TimedEvent, int>)
    requires list.Valid() && event !in list.events
    requires Clocked(list.events + [event], t) && event in t && TimesKnown<TimedEvent>(list.events, t)
      && Sorted<TimedEvent>(list.events, t)
    modifies list, event`next, event`prev, list.events`next, list.events`prev
    ensures list.Valid() && list.events == InsertByTime<TimedEvent>(old(list.events), event, t)
    ensures TimesKnown<TimedEvent>(list.events, t) && Sorted<TimedEvent>(list.events, t)
    ensures multiset(list.events) == multiset(old(list.events)) + multiset{event}
  {
    hide InsertByTime, Sorted, Linked;
    ghost var s := list.events;
    ClockedBoth(s, event, t);
    ghost var k := PlaceEvent(event, list);
    InsertPlace(s, event, k, t);
    InsertedSorted<TimedEvent>(s, event, t);
  }

  lemma ClockedBoth(s: seq<TimedEvent>, event: TimedEvent, t: map<TimedEvent, int>)
    requires Clocked(s + [event], t)
    ensures Clocked(s, t) && event in t && t[event] == event.runTime
  {
    var u := s + [event];
    forall i | 0 <= i < |s| ensures s[i] in t && t[s[i]] == s[i].runTime {
      assert u[i] == s[i];
      assert u[i].runTime == s[i].runTime;
    }
    assert u[|s|] == event;
    assert u[|s|].runTime == event.runTime;
  }

  /** Links an event into the list behind everything in a row from the end that is due later. */
  method PlaceEvent(event: TimedEvent, list: EventList) returns (ghost k: nat)
    requires list.Valid() && event !in list.events
    modifies list, event`next, event`prev, list.events`next, list.events`prev
    ensures k <= |old(list.events)| && list.Valid() && list.events == InsertAt<TimedEvent>(old(list.events), k, event)
    ensures k > 0 ==> old(list.events)[k - 1].runTime <= event.runTime
    ensures k < |old(list.events)| ==> event.runTime < old(list.events)[k].runTime
  {
    k := 0;
    ghost var s := list.events;
    assert InsertAt<TimedEvent>(s, 0, event) == [event] + s;
    event.next := null;
    event.prev := null;
    var firstEvent := list.head;
    if list.head == null {
      list.head := event;
      list.tail := event;
      list.events := [event];
    } else if event.runTime < firstEvent.runTime {
      LinkFirst(event, list);
    } else {
      var tempEvent;
      tempEvent, k := FindPlace(event, list);
      LinkBehind(event, tempEvent, list, k);
    }
  }

  /** Takes an event out of the list; its own link fields are left as they were. */
  method RemoveEvent(event: TimedEvent?, list: EventList, ghost k: nat)
    requires list.Valid()
    requires event != null && list.head != null ==> k < |list.events| && list.events[k] == event
    modifies list, list.events`next, list.events`prev
    ensures list.Valid()
    ensures event != null && old(list.head) != null ==>
      && list.events == RemoveAt<TimedEvent>(old(list.events), k)
      && event.next == old(event.next) && event.prev == old(event.prev)
    ensures event == null || old(list.head) == null ==> list.events == old(list.events)
  {
    if event == null {
      return;
    }
    if list.head == null {
      return;
    }
    Unlink(event, list, k);
  }

  /** The neighbours of an event are linked to each other instead. */
  method Unlink(event: TimedEvent, list: EventList, ghost k: nat)
    requires list.Valid() && k < |list.events| && list.events[k] == event
    modifies list, list.events`next, list.events`prev
    ensures list.Valid() && list.events == RemoveAt<TimedEvent>(old(list.events), k)
    ensures event.next == old(event.next) && event.prev == old(event.prev)
  {
    ghost var s := list.events;
    ghost var r := RemoveAt<TimedEvent>(s, k);
    assert Distinct<TimedEvent>(r) by { RemoveAtDistinct<TimedEvent>(s, k); }
    var prevEvent, nextEvent := event.prev, event.next;
    if prevEvent != null {
      prevEvent.next := nextEvent;
    }
    if nextEvent != null {
      nextEvent.prev := prevEvent;
    }
    if prevEvent == null {
      list.head := nextEvent;
    }
    if nextEvent == null {
      list.tail := prevEvent;
    }
    list.events := r;
    assert Linked(r) by {
      forall i | 0 <= i < |r| ensures r[i].next == (if i + 1 < |r| then r[i + 1] else null) {
        assert r[i] == if i < k then s[i] else s[i + 1];
      }
      forall i | 0 <= i < |r| ensures r[i].prev == (if i > 0 then r[i - 1] else null) {
        assert r[i] == if i < k then s[i] else s[i + 1];
      }
    }
  }

  /** Takes the first event out, as the event loop does; the tail pointer is not touched. */
  method PopHead(list: EventList) returns (event: TimedEvent)
    requires list.Valid() && list.head != null
    modifies list, list.events`prev
    ensures event == old(list.events)[0] && list.events == old(list.events)[1..]
    ensures list.Valid() && list.tail == old(list.tail)
  {
    event := list.head;
    list.head := list.head.next;
    if list.head != null {
      list.head.prev := null;
    }
    list.events := list.events[1..];
  }

  /** Moves the next event of the old list `s` over to the new one. */
  method MoveEvent(event: TimedEvent, list: EventList, ghost s: seq<TimedEvent>, ghost i: nat,
                   ghost t: map<TimedEvent, int>)
    requires list.Valid() && i < |s| && s[i] == event && event !in list.events
    requires Clocked(s, t) && TimesKnown<TimedEvent>(s, t) && list.events == SortByTime<TimedEvent>(s[..i], t)
    requires multiset(list.events) == multiset(s[..i]) && forall k :: 0 <= k < |list.events| ==> list.events[k] in s
    modifies list, event`next, event`prev, list.events`next, list.events`prev
    ensures list.Valid() && list.events == SortByTime<TimedEvent>(s[..i + 1], t)
    ensures multiset(list.events) == multiset(s[..i + 1])
  {
    hide InsertByTime, SortByTime, Sorted, Linked;
    event.next := null;
    event.prev := null;
    ResortStep(s, i, t, list.events);
    AddEvent(event, list, t);
  }

  /** Sorts the list again by moving every event to a new list. */
  method ResortEventList(list: EventList, ghost t: map<TimedEvent, int>)
    requires list.Valid() && Clocked(list.events, t) && TimesKnown<TimedEvent>(list.events, t)
    modifies list, list.events`next, list.events`prev
    ensures list.Valid() && list.events == SortByTime<TimedEvent>(old(list.events), t)
    ensures TimesKnown<TimedEvent>(list.events, t) && Sorted<TimedEvent>(list.events, t)
    ensures multiset(list.events) == multiset(old(list.events))
  {
    hide InsertByTime, SortByTime, Sorted, Linked;
    ghost var s := list.events;
    var tempEvent := list.head;
    ResortStart(s, t);
    list.head := null;
    list.events := [];
    ghost var i := 0;
    while tempEvent != null
      invariant 0 <= i <= |s| && tempEvent == (if i < |s| then s[i] else null)
      invariant forall j {:trigger s[j].next} :: i <= j < |s| ==> s[j].next == (if j + 1 < |s| then s[j + 1] else null)
      invariant list.Valid()
      invariant multiset(list.events) == multiset(s[..i])
      invariant list.events == SortByTime<TimedEvent>(s[..i], t)
      decreases |s| - i
    {
      var nextEvent := tempEvent.next;
      MovedBefore<TimedEvent>(s, i, list.events);
      MoveEvent(tempEvent, list, s, i, t);
      i := i + 1;
      tempEvent := nextEvent;
    }
    assert s[..i] == s;
    SortIsStable<TimedEvent>(s, t, 0);
  }

  lemma ResortStart(s: seq<TimedEvent>, t: map<TimedEvent, int>)
    requires TimesKnown<TimedEvent>(s, t)
    ensures SortByTime<TimedEvent>(s[..0], t) == [] && s[..0] == []
    ensures Linked([])
    ensures Linked(s) ==> forall j {:trigger s[j].next} :: 0 <= j < |s| ==>
      s[j].next == (if j + 1 < |s| then s[j + 1] else null)
  {
  }

  /** Before a turn: the moved events are among the old ones, and the next has not been moved yet. */
  lemma MovedBefore<T>(s: seq<T>, i: nat, moved: seq<T>)
    requires Distinct(s) && i <= |s| && multiset(moved) == multiset(s[..i])
    ensures forall k :: 0 <= k < |moved| ==> moved[k] in s
    ensures forall j :: i <= j < |s| ==> s[j] !in moved
  {
    forall k | 0 <= k < |moved| ensures moved[k] in s[..i] {
      assert moved[k] in multiset(moved);
    }
    forall j | i <= j < |s| ensures s[j] !in moved {
      assert s[j] !in s[..i];
    }
  }

  /** Before a turn: the moved events are in order; after it they are so with one more. */
  lemma ResortStep(s: seq<TimedEvent>, i: nat, t: map<TimedEvent, int>, moved: seq<TimedEvent>)
    requires i < |s| && Clocked(s, t) && TimesKnown<TimedEvent>(s, t) && moved == SortByTime<TimedEvent>(s[..i], t)
    requires forall k :: 0 <= k < |moved| ==> moved[k] in s
    ensures Clocked(moved + [s[i]], t) && TimesKnown<TimedEvent>(moved, t) && Sorted<TimedEvent>(moved, t)
    ensures s[i] in t && SortByTime<TimedEvent>(s[..i + 1], t) == InsertByTime<TimedEvent>(moved, s[i], t)
    ensures multiset(s[..i + 1]) == multiset(s[..i]) + multiset{s[i]}
  {
    hide Sorted, InsertByTime;
    var s' := s[..i + 1];
    assert s'[..|s'| - 1] == s[..i] && s'[|s'| - 1] == s[i];
    assert s' == s[..i] + [s[i]];
    SortIsStable<TimedEvent>(s[..i], t, 0);
    forall k | 0 <= k < |moved| ensures moved[k] in t && t[moved[k]] == moved[k].runTime {
      var m :| 0 <= m < |s| && s[m] == moved[k];
      assert t[s[m]] == s[m].runTime;
    }
    assert t[s[i]] == s[i].runTime;
  }
}
