/** Compensation for a changed system clock (base/events.c). */
module ClockChange {
  import opened Common
  import opened Timeline
  import opened EventQueue
  import opened CheckScheduling

  function AsUnsigned(ts: int): int {
    ts % WORD
  }

  function Difference(lastTime: int, currentTime: int): nat {
    if lastTime > currentTime then lastTime - currentTime else currentTime - lastTime
  }

  /** `adjust_timestamp_for_time_change`. */
  function Adjusted(lastTime: int, currentTime: int, ts: int): int {
    var difference := Difference(lastTime, currentTime);
    if ts == 0 then 0
    else if lastTime > currentTime then
      if difference > AsUnsigned(ts) then 0 else ts - difference
    else ts + difference
  }

  /** The timestamps there are: the epoch and after. */
  predicate Timestamp(ts: int) {
    0 <= ts < WORD
  }

  lemma AdjustedMonotone(lastTime: int, currentTime: int, x: int, y: int)
    requires Timestamp(x) && Timestamp(y) && x <= y
    ensures 0 <= Adjusted(lastTime, currentTime, x) <= Adjusted(lastTime, currentTime, y)
    ensures Adjusted(lastTime, currentTime, 0) == 0
  {
  }

  /** A timestamp keeps its age. One that would come to lie before the epoch, or never was set, is 0. */
  lemma AgeKept(lastTime: int, currentTime: int, ts: int)
    requires Timestamp(ts)
    ensures ts != 0 && ts + currentTime >= lastTime ==>
      currentTime - Adjusted(lastTime, currentTime, ts) == lastTime - ts
    ensures ts == 0 || ts + currentTime < lastTime ==> Adjusted(lastTime, currentTime, ts) == 0
  {
  }

  /** A jump forwards is undone by the same jump backwards. */
  lemma ForwardThenBack(early: int, late: int, ts: int)
    requires early < late && Timestamp(ts) && Timestamp(ts + (late - early))
    ensures Adjusted(late, early, Adjusted(early, late, ts)) == ts
  {
  }

  /** A jump backwards is undone by the same jump forwards unless it took the timestamp to the epoch. */
  lemma BackThenForward(early: int, late: int, ts: int)
    requires early < late && Timestamp(ts)
    ensures Adjusted(early, late, Adjusted(late, early, ts)) == ts <==> ts == 0 || ts > late - early
  {
  }

  // ---------- the event list ----------

  /** When an event is due after the change; `timing` stands for the custom timing functions. */
  function Compensated(e: TimedEvent, runTime: int, lastTime: int, currentTime: int, timing: TimedEvent -> int): int {
    if !e.compensateForTimeChange then runTime
    else if e.hasTimingFunc then timing(e)
    else Adjusted(lastTime, currentTime, runTime)
  }

  ghost function NewTimes(s: seq<TimedEvent>, t: map<TimedEvent, int>, lastTime: int, currentTime: int,
                          timing: TimedEvent -> int): map<TimedEvent, int> {
    map e | e in t :: if e in s then Compensated(e, t[e], lastTime, currentTime, timing) else t[e]
  }

  /** A sorted list of ordinary events stays sorted, so sorting it again changes nothing. */
  lemma OrdinaryEventsStaySorted(s: seq<TimedEvent>, t: map<TimedEvent, int>, lastTime: int, currentTime: int,
                                 timing: TimedEvent -> int)
    requires TimesKnown<TimedEvent>(s, t) && Sorted<TimedEvent>(s, t)
    requires forall e :: e in s ==> e.compensateForTimeChange && !e.hasTimingFunc && Timestamp(t[e])
    ensures var t' := NewTimes(s, t, lastTime, currentTime, timing);
      && TimesKnown<TimedEvent>(s, t') && Sorted<TimedEvent>(s, t')
      && SortByTime<TimedEvent>(s, t') == s
  {
    var t' := NewTimes(s, t, lastTime, currentTime, timing);
    forall i, j | 0 <= i < j < |s| ensures t'[s[i]] <= t'[s[j]] {
      AdjustedMonotone(lastTime, currentTime, t[s[i]], t[s[j]]);
    }
    SortSorted<TimedEvent>(s, t');
  }

  lemma NewTimesAt(s: seq<TimedEvent>, t: map<TimedEvent, int>, lastTime: int, currentTime: int,
                   timing: TimedEvent -> int)
    requires TimesKnown<TimedEvent>(s, t)
    ensures var t' := NewTimes(s, t, lastTime, currentTime, timing);
      && TimesKnown<TimedEvent>(s, t') && t'.Keys == t.Keys
      && forall i {:trigger t'[s[i]]} :: 0 <= i < |s| ==>
        t'[s[i]] == Compensated(s[i], t[s[i]], lastTime, currentTime, timing)
  {
  }

  /** Overwrites the run times of a list. */
  method ShiftRunTimes(list: EventList, lastTime: int, currentTime: int, timing: TimedEvent -> int,
                       ghost t: map<TimedEvent, int>)
    requires list.Valid() && Clocked(list.events, t)
    modifies list.events`runTime
    ensures Clocked(list.events, NewTimes(list.events, t, lastTime, currentTime, timing))
    ensures list.Valid()
    ensures forall e :: e in list.events && !e.compensateForTimeChange ==> e.runTime == old(e.runTime)
    ensures forall e :: e in list.events && e.compensateForTimeChange && e.hasTimingFunc ==> e.runTime == timing(e)
    ensures forall e :: e in list.events && e.compensateForTimeChange && !e.hasTimingFunc ==>
      e.runTime == Adjusted(lastTime, currentTime, old(e.runTime))
  {
    ghost var s := list.events;
    ghost var t' := NewTimes(s, t, lastTime, currentTime, timing);
    assert TimesKnown<TimedEvent>(s, t) by {
      forall i | 0 <= i < |s| ensures s[i] in t { var due := s[i].runTime; }
    }
    NewTimesAt(s, t, lastTime, currentTime, timing);
    var tempEvent := list.head;
    ghost var i := 0;
    while tempEvent != null
      invariant 0 <= i <= |s| && tempEvent == (if i < |s| then s[i] else null)
      invariant Linked(s)
      invariant forall j {:trigger s[j].runTime} :: 0 <= j < i ==> s[j].runTime == t'[s[j]]
      invariant forall j {:trigger s[j].runTime} :: i <= j < |s| ==> s[j].runTime == t[s[j]]
      decreases |s| - i
    {
      assert tempEvent.runTime == t[s[i]] && t'[s[i]] == Compensated(s[i], t[s[i]], lastTime, currentTime, timing);
      if tempEvent.compensateForTimeChange {
        if tempEvent.hasTimingFunc {
          tempEvent.runTime := timing(tempEvent);
        } else {
          tempEvent.runTime := Adjusted(lastTime, currentTime, tempEvent.runTime);
        }
      }
      tempEvent := tempEvent.next;
      i := i + 1;
    }
    forall e | e in s
      ensures old(e.runTime) == t[e] && e.runTime == Compensated(e, t[e], lastTime, currentTime, timing)
    {
      var k :| 0 <= k < |s| && s[k] == e;
      assert old(s[k].runTime) == t[s[k]] && s[k].runTime == t'[s[k]];
    }
  }

  /** A list is in order and consistent again, and holds the events `s` sorted by their new times. */
  ghost predicate IsCompensated(list: EventList, s: seq<TimedEvent>, t: map<TimedEvent, int>)
    reads list, list.events, s
  {
    && list.Valid() && InOrder(list.events)
    && TimesKnown<TimedEvent>(s, t) && Clocked(s, t) && list.events == SortByTime<TimedEvent>(s, t)
  }

  /** Compensates a list of events, and sorts it again. */
  method CompensateList(list: EventList, lastTime: int, currentTime: int, timing: TimedEvent -> int)
    requires list.Valid()
    modifies list, list.events
    ensures IsCompensated(list, old(list.events),
                          NewTimes(old(list.events), old(TimesOf(Elements(list.events))), lastTime, currentTime,
                                   timing))
    ensures Elements(list.events) == Elements(old(list.events))
    ensures forall e :: e in old(list.events) && !e.compensateForTimeChange ==> e.runTime == old(e.runTime)
    ensures forall e :: e in old(list.events) && e.compensateForTimeChange && e.hasTimingFunc ==> e.runTime == timing(e)
    ensures forall e :: e in old(list.events) && e.compensateForTimeChange && !e.hasTimingFunc ==>
      e.runTime == Adjusted(lastTime, currentTime, old(e.runTime))
  {
    hide InOrder, Sorted, SortByTime, Linked, Adjusted, Elements;
    ghost var s := list.events;
    ghost var t := TimesOf(Elements(s));
    TimesOfClocked(s, Elements(s));
    assert TimesKnown<TimedEvent>(s, t) by { InOrderIsSorted(s, t); }
    NewTimesAt(s, t, lastTime, currentTime, timing);
    ghost var t' := NewTimes(s, t, lastTime, currentTime, timing);
    ShiftRunTimes(list, lastTime, currentTime, timing, t);
    ResortEventList(list, t');
    SameElements(s, list.events);
    SortedByNewTimes(s, list.events, t');
  }

  lemma SortedByNewTimes(s: seq<TimedEvent>, r: seq<TimedEvent>, t: map<TimedEvent, int>)
    requires Clocked(s, t) && Elements(r) == Elements(s) && TimesKnown<TimedEvent>(r, t) && Sorted<TimedEvent>(r, t)
    ensures InOrder(r)
  {
    forall i | 0 <= i < |r| ensures r[i].runTime == t[r[i]] {
      assert r[i] in Elements(r);
      var k :| 0 <= k < |s| && s[k] == r[i];
      var due := s[k].runTime;
    }
  }

  // ---------- timestamps ----------

  /** The timestamps of a host or service. */
  datatype Timestamps = Timestamps(lastNotification: int, lastCheck: int, nextCheck: int, lastStateChange: int,
                                   lastHardStateChange: int, lastStateHistoryUpdate: int)

  function TimestampsOf(target: CheckTarget): Timestamps
    reads target
  {
    Timestamps(target.lastNotification, target.lastCheck, target.nextCheck, target.lastStateChange,
               target.lastHardStateChange, target.lastStateHistoryUpdate)
  }

  function AdjustedAll(kind: TargetKind, s: Timestamps, lastTime: int, currentTime: int): Timestamps {
    Timestamps(Adjusted(lastTime, currentTime, s.lastNotification), Adjusted(lastTime, currentTime, s.lastCheck),
               Adjusted(lastTime, currentTime, s.nextCheck), Adjusted(lastTime, currentTime, s.lastStateChange),
               Adjusted(lastTime, currentTime, s.lastHardStateChange),
               if kind == HostTarget then Adjusted(lastTime, currentTime, s.lastStateHistoryUpdate)
                 else s.lastStateHistoryUpdate)
  }

  /** All timestamps of an object are adjusted; when contacts are notified again is worked out anew. */
  method AdjustTarget(target: CheckTarget, lastTime: int, currentTime: int, renotify: (CheckTarget, int) -> int)
    modifies target`lastNotification, target`nextNotification, target`lastCheck, target`nextCheck
    modifies target`lastStateChange, target`lastHardStateChange, target`lastStateHistoryUpdate
    ensures TimestampsOf(target) == AdjustedAll(target.kind, old(TimestampsOf(target)), lastTime, currentTime)
    ensures target.lastNotification == Adjusted(lastTime, currentTime, old(target.lastNotification))
    ensures target.lastCheck == Adjusted(lastTime, currentTime, old(target.lastCheck))
    ensures target.nextCheck == Adjusted(lastTime, currentTime, old(target.nextCheck))
    ensures target.lastStateChange == Adjusted(lastTime, currentTime, old(target.lastStateChange))
    ensures target.lastHardStateChange == Adjusted(lastTime, currentTime, old(target.lastHardStateChange))
    ensures target.kind == HostTarget ==>
      target.lastStateHistoryUpdate == Adjusted(lastTime, currentTime, old(target.lastStateHistoryUpdate))
    ensures target.kind != HostTarget ==> target.lastStateHistoryUpdate == old(target.lastStateHistoryUpdate)
    ensures target.nextNotification == renotify(target, target.lastNotification)
  {
    target.lastNotification := Adjusted(lastTime, currentTime, target.lastNotification);
    target.lastCheck := Adjusted(lastTime, currentTime, target.lastCheck);
    target.nextCheck := Adjusted(lastTime, currentTime, target.nextCheck);
    target.lastStateChange := Adjusted(lastTime, currentTime, target.lastStateChange);
    target.lastHardStateChange := Adjusted(lastTime, currentTime, target.lastHardStateChange);
    if target.kind == HostTarget {
      target.lastStateHistoryUpdate := Adjusted(lastTime, currentTime, target.lastStateHistoryUpdate);
    }
    target.nextNotification := renotify(target, target.lastNotification);
  }

  method AdjustTargets(targetList: seq<CheckTarget>, lastTime: int, currentTime: int,
                       renotify: (CheckTarget, int) -> int)
    requires Distinct<CheckTarget>(targetList)
    modifies targetList`lastNotification, targetList`nextNotification, targetList`lastCheck, targetList`nextCheck
    modifies targetList`lastStateChange, targetList`lastHardStateChange, targetList`lastStateHistoryUpdate
    ensures forall j :: 0 <= j < |targetList| ==>
      && TimestampsOf(targetList[j])
        == AdjustedAll(targetList[j].kind, old(TimestampsOf(targetList[j])), lastTime, currentTime)
      && targetList[j].nextNotification == renotify(targetList[j], targetList[j].lastNotification)
  {
    hide AdjustedAll;
    for i := 0 to |targetList|
      invariant forall j :: 0 <= j < i ==>
        && TimestampsOf(targetList[j])
          == AdjustedAll(targetList[j].kind, old(TimestampsOf(targetList[j])), lastTime, currentTime)
        && targetList[j].nextNotification == renotify(targetList[j], targetList[j].lastNotification)
      invariant forall j :: i <= j < |targetList| ==> TimestampsOf(targetList[j]) == old(TimestampsOf(targetList[j]))
    {
      AdjustTarget(targetList[i], lastTime, currentTime, renotify);
    }
  }

  /** The timestamps of the program itself. */
  class ProgramTimes {
    var programStart: int
    var eventStart: int
    var lastCommandCheck: int

    constructor (programStart: int, eventStart: int, lastCommandCheck: int)
      ensures this.programStart == programStart && this.eventStart == eventStart
        && this.lastCommandCheck == lastCommandCheck
    {
      this.programStart, this.eventStart, this.lastCommandCheck := programStart, eventStart, lastCommandCheck;
    }
  }

  method AdjustProgram(program: ProgramTimes, lastTime: int, currentTime: int)
    modifies program
    ensures program.programStart == Adjusted(lastTime, currentTime, old(program.programStart))
    ensures program.eventStart == Adjusted(lastTime, currentTime, old(program.eventStart))
    ensures program.lastCommandCheck == Adjusted(lastTime, currentTime, old(program.lastCommandCheck))
  {
    program.programStart := Adjusted(lastTime, currentTime, program.programStart);
    program.eventStart := Adjusted(lastTime, currentTime, program.eventStart);
    program.lastCommandCheck := Adjusted(lastTime, currentTime, program.lastCommandCheck);
  }

  // ---------- the whole operation ----------

  /** The low-priority list, and the hosts and services whose checks it holds. */
  method CompensateChecks(list: EventList, targetList: seq<CheckTarget>, lastTime: int, currentTime: int,
                          timing: TimedEvent -> int, renotify: (CheckTarget, int) -> int,
                          ghost targets: set<CheckTarget>)
    requires Valid(list, targets)
    requires Distinct<CheckTarget>(targetList) && forall j :: 0 <= j < |targetList| ==> targetList[j] in targets
    modifies list, list.events
    modifies targetList`lastNotification, targetList`nextNotification, targetList`lastCheck, targetList`nextCheck
    modifies targetList`lastStateChange, targetList`lastHardStateChange, targetList`lastStateHistoryUpdate
    ensures Valid(list, targets)
    ensures IsCompensated(list, old(list.events),
                          NewTimes(old(list.events), old(TimesOf(Elements(list.events))), lastTime, currentTime,
                                   timing))
    ensures forall j :: 0 <= j < |targetList| ==>
      && TimestampsOf(targetList[j])
        == AdjustedAll(targetList[j].kind, old(TimestampsOf(targetList[j])), lastTime, currentTime)
      && targetList[j].nextNotification == renotify(targetList[j], targetList[j].lastNotification)
    ensures Elements(list.events) == Elements(old(list.events)) && Pointers(targets) == old(Pointers(targets))
    ensures forall j :: 0 <= j < |targetList| && old(InStep(targetList[j])) ==> InStep(targetList[j])
  {
    hide Indexed, Owned, InOrder, Sorted, SortByTime, Linked, Adjusted, Elements, NewTimes;
    ghost var idx, s, t := Pointers(targets), list.events, TimesOf(Elements(list.events));
    ChecksCompensated(s, t, targets, idx, lastTime, currentTime, timing);
    CompensateList(list, lastTime, currentTime, timing);
    assert Pointers(targets) == idx;
    AdjustTargets(targetList, lastTime, currentTime, renotify);
    assert Pointers(targets) == idx;
    forall j | 0 <= j < |targetList| && old(InStep(targetList[j])) ensures InStep(targetList[j]) {
      var target := targetList[j];
      if idx[target] != null {
        CompensatedRunTime(s, NewTimes(s, t, lastTime, currentTime, timing), idx[target]);
      }
    }
  }

  /** A queued check moves with the clock. */
  lemma ChecksCompensated(s: seq<TimedEvent>, t: map<TimedEvent, int>, targets: set<CheckTarget>,
                          idx: map<CheckTarget, TimedEvent?>, lastTime: int, currentTime: int,
                          timing: TimedEvent -> int)
    requires Owned(Elements(s), targets) && Indexed(Elements(s), idx) && t.Keys == Elements(s)
    ensures forall target {:trigger idx[target]} :: target in idx && idx[target] != null ==>
      && idx[target] in s && idx[target] in t
      && var t' := NewTimes(s, t, lastTime, currentTime, timing);
      idx[target] in t' && t'[idx[target]] == Adjusted(lastTime, currentTime, t[idx[target]])
  {
    forall target | target in idx && idx[target] != null
      ensures idx[target] in Elements(s) && idx[target].compensateForTimeChange && !idx[target].hasTimingFunc
    {
      assert IsCheckOf(idx[target], target);
    }
  }

  lemma CompensatedRunTime(s: seq<TimedEvent>, t: map<TimedEvent, int>, e: TimedEvent)
    requires Clocked(s, t) && e in s
    ensures e in t && e.runTime == t[e]
  {
    var i :| 0 <= i < |s| && s[i] == e;
    var due := s[i].runTime;
  }

  lemma Apart(s: seq<TimedEvent>, r: seq<TimedEvent>)
    requires forall i :: 0 <= i < |s| ==> s[i] !in r
    ensures forall e :: e in Elements(r) ==> e !in s
  {
  }

  /** `compensate_for_system_time_change`. */
  method CompensateForTimeChange(high: EventList, low: EventList, targetList: seq<CheckTarget>, program: ProgramTimes,
                                 lastTime: int, currentTime: int, timing: TimedEvent -> int,
                                 renotify: (CheckTarget, int) -> int, ghost targets: set<CheckTarget>)
    requires Valid(low, targets) && high.Valid() && high != low
    requires forall i :: 0 <= i < |high.events| ==> high.events[i] !in low.events
    requires Distinct<CheckTarget>(targetList) && forall j :: 0 <= j < |targetList| ==> targetList[j] in targets
    modifies high, high.events, low, low.events, program
    modifies targetList`lastNotification, targetList`nextNotification, targetList`lastCheck, targetList`nextCheck
    modifies targetList`lastStateChange, targetList`lastHardStateChange, targetList`lastStateHistoryUpdate
    ensures Valid(low, targets)
    ensures IsCompensated(high, old(high.events),
                          NewTimes(old(high.events), old(TimesOf(Elements(high.events))), lastTime, currentTime,
                                   timing))
    ensures IsCompensated(low, old(low.events),
                          NewTimes(old(low.events), old(TimesOf(Elements(low.events))), lastTime, currentTime, timing))
    ensures forall j :: 0 <= j < |targetList| ==>
      && TimestampsOf(targetList[j])
        == AdjustedAll(targetList[j].kind, old(TimestampsOf(targetList[j])), lastTime, currentTime)
      && targetList[j].nextNotification == renotify(targetList[j], targetList[j].lastNotification)
    ensures Elements(high.events) == Elements(old(high.events))
    ensures Elements(low.events) == Elements(old(low.events)) && Pointers(targets) == old(Pointers(targets))
    ensures program.programStart == Adjusted(lastTime, currentTime, old(program.programStart))
    ensures program.eventStart == Adjusted(lastTime, currentTime, old(program.eventStart))
    ensures program.lastCommandCheck == Adjusted(lastTime, currentTime, old(program.lastCommandCheck))
  {
    hide Valid, Adjusted, AdjustedAll, Elements, NewTimes, IsCompensated;
    ghost var s, t := high.events, TimesOf(Elements(low.events));
    Apart(s, low.events);
    CompensateList(high, lastTime, currentTime, timing);
    SameMembers(high.events, s);
    assert TimesOf(Elements(low.events)) == t;
    CompensateChecks(low, targetList, lastTime, currentTime, timing, renotify, targets);
    AdjustProgram(program, lastTime, currentTime);
  }
}
