/** Handling of host check results (`process_host_check_result_3x`, `adjust_host_check_attempt_3x`,
    `determine_host_reachability`, `handle_host_state`, base/checks.c). */
module HostChecks {
  import opened CheckStates

  /** A host that is not up is down or, with no parent up, unreachable. */
  type Outage = state: HostState | state != Up witness Down

  /** What decides about the next state of a host. */
  datatype Status = Status(state: HostState, lastState: HostState, lastHardState: HostState, stateType: StateType,
                           attempt: nat, acknowledged: bool, acknowledgement: Acknowledgement)

  datatype Settings = Settings(aggressiveChecking: bool, passiveSoft: bool, translatePassive: bool)

  /** A result of an active check, by its return code, or a state submitted from outside. */
  datatype CheckResult =
    | Active(exitedOk: bool, returnCode: int, freshnessCheck: bool, stillFresh: bool)
    | Passive(accepted: bool, state: HostState, freshnessCheck: bool, stillFresh: bool)

  predicate Discarded(result: CheckResult) {
    (result.Passive? && !result.accepted) || (result.freshnessCheck && result.stillFresh)
  }

  /** The state a result stands for. A warning counts as up unless checking is aggressive. */
  function StateOf(result: CheckResult, hasCommand: bool, settings: Settings): HostState {
    match result
    case Passive(_, state, _, _) => state
    case Active(exitedOk, code, _, _) =>
      if !hasCommand || (exitedOk && (code == 0 || (code == 1 && !settings.aggressiveChecking))) then Up else Down
  }

  // ---------- one step, on values ----------

  /** Soft results have to be confirmed by further ones. */
  predicate IsSoft(active: bool, settings: Settings) {
    active || settings.passiveSoft
  }

  /** The attempt number the next check counts as. */
  function Adjusted(s: Status, active: bool, max: nat): nat {
    if s.stateType == Hard || (active && s.state == Up) then 1
    else if s.attempt < max then s.attempt + 1
    else s.attempt
  }

  /** `verdict` tells down from unreachable. */
  function NextState(newState: HostState, active: bool, verdict: Outage, settings: Settings): HostState {
    if newState == Up then Up
    else if active || settings.translatePassive then verdict
    else newState
  }

  function NextType(was: HostState, wasType: StateType, newState: HostState, attempt: nat, soft: bool,
                    max: nat): StateType {
    if newState == Up then
      if was == Up || wasType == Hard || !soft then Hard else Soft
    else if !soft then Hard
    else if was == Up then
      if max == 1 then Hard else Soft
    else if attempt == max || attempt == 1 then Hard else Soft
  }

  /** The last hard state, as it is known when a result comes in. */
  function KnownHardState(s: Status): HostState {
    if s.stateType == Hard then s.state else s.lastHardState
  }

  predicate Changes(s: Status, state: HostState, stateType: StateType) {
    s.state != state || (state == Up && stateType == Soft) || KnownHardState(s) != state
  }

  function Next(s: Status, newState: HostState, active: bool, verdict: Outage, settings: Settings, max: nat): Status {
    var soft := IsSoft(active, settings);
    var counted := if !active && soft then Adjusted(s, false, max) else s.attempt;
    var state, stateType := NextState(newState, active, verdict, settings),
      NextType(s.state, s.stateType, newState, counted, soft, max);
    var changed := s.state != state || (state == Up && stateType == Soft);
    var problemAttempt := if !soft && !(s.state == Up && max == 1) then 1 else counted;
    var attempt := if newState != Up then problemAttempt else if Changes(s, state, stateType) then 1 else counted;
    var ended :=
      || (s.acknowledgement == Normal && changed)
      || (s.acknowledgement == Sticky && state == Up && (changed || (counted >= max && KnownHardState(s) != state)));
    Status(state, s.state, KnownHardState(s), stateType, attempt,
           s.acknowledged && !ended, if ended then NoAcknowledgement else s.acknowledgement)
  }

  /** Whether the handler asks for a notification of the state. It is decided elsewhere whether one goes out. */
  predicate Notifies(s: Status, newState: HostState, active: bool, verdict: Outage, settings: Settings, max: nat) {
    var r := Next(s, newState, active, verdict, settings, max);
    r.stateType == Hard && (r.state != Up || Changes(s, r.state, r.stateType))
  }

  /** The status after the commands of a user. */
  function Acknowledged(s: Status, sticky: bool): Status {
    if s.state == Up then s else s.(acknowledged := true, acknowledgement := if sticky then Sticky else Normal)
  }

  function Unacknowledged(s: Status): Status {
    s.(acknowledged := false)
  }

  /** What comes with an acknowledgement, after a result has led to a state. */
  function AckDataAfter(d: AckData, s: Status, state: HostState, stateType: StateType, active: bool,
                        settings: Settings, max: nat): AckData {
    var counted := if !active && settings.passiveSoft then Adjusted(s, false, max) else s.attempt;
    var attempt := if state != Up && !IsSoft(active, settings) && !(s.state == Up && max == 1) then 1 else counted;
    var stateChange := s.state != state || (state == Up && stateType == Soft);
    var change := stateChange || (attempt >= max && KnownHardState(s) != state);
    AckDataNoted(d, s.acknowledgement, stateChange, change, state == Up)
  }

  // ---------- the handlers ----------

  /** A host is unreachable when it has parents and none of them is up. */
  function Verdict(hasParents: bool, someParentUp: bool): Outage {
    if hasParents && !someParentUp then Unreachable else Down
  }

  ghost predicate SomeUp(hosts: seq<Host>)
    reads hosts`currentState
  {
    exists i :: 0 <= i < |hosts| && hosts[i].currentState == Up
  }

  class Host {
    const maxAttempts: nat
    const parentHosts: seq<Host>
    const hasCommand: bool
    var currentState: HostState
    var lastState: HostState
    var lastHardState: HostState
    var stateType: StateType
    var currentAttempt: nat
    var problemHasBeenAcknowledged: bool
    var acknowledgementType: Acknowledgement
    var ackData: AckData
    var ids: Ids
    var requests: seq<HostState>  // the state with every notification request so far

    /** A host as it is configured. */
    constructor (initialState: HostState, maxAttempts: nat, parentHosts: seq<Host>, hasCommand: bool)
      requires maxAttempts >= 1
      ensures this.maxAttempts == maxAttempts && this.parentHosts == parentHosts && this.hasCommand == hasCommand
      ensures requests == [] && ids == Ids(0, 0, 0, 0) && ackData == NO_ACK_DATA
      ensures GetStatus() == Configured(initialState, maxAttempts)
      ensures currentState == lastState == lastHardState == initialState && stateType == Hard
      ensures currentAttempt == if initialState == Up then 1 else maxAttempts
      ensures !problemHasBeenAcknowledged && acknowledgementType == NoAcknowledgement
    {
      this.maxAttempts, this.parentHosts, this.hasCommand := maxAttempts, parentHosts, hasCommand;
      currentState, lastState, lastHardState, stateType := initialState, initialState, initialState, Hard;
      currentAttempt := if initialState == Up then 1 else maxAttempts;
      problemHasBeenAcknowledged, acknowledgementType, ackData := false, NoAcknowledgement, NO_ACK_DATA;
      ids, requests := Ids(0, 0, 0, 0), [];
    }

    function GetStatus(): Status
      reads this
    {
      Status(currentState, lastState, lastHardState, stateType, currentAttempt, problemHasBeenAcknowledged,
             acknowledgementType)
    }

    /** `adjust_host_check_attempt_3x`. */
    method AdjustCheckAttempt(isActive: bool)
      modifies this`currentAttempt
      ensures currentAttempt == old(Adjusted(GetStatus(), isActive, maxAttempts))
      ensures stateType == Hard || (isActive && currentState == Up) ==> currentAttempt == 1
      ensures stateType == Soft && !(isActive && currentState == Up) ==>
        currentAttempt == if old(currentAttempt) < maxAttempts then old(currentAttempt) + 1 else old(currentAttempt)
    {
      if stateType == Hard {
        currentAttempt := 1;
      } else if isActive && stateType == Soft && currentState == Up {
        currentAttempt := 1;
      } else if currentAttempt < maxAttempts {
        currentAttempt := currentAttempt + 1;
      }
    }

    /** `determine_host_reachability`. */
    method DetermineReachability() returns (state: HostState)
      ensures state == if currentState == Up then Up else Verdict(parentHosts != [], SomeUp(parentHosts))
      ensures state == Up <==> currentState == Up
      ensures state == Unreachable <==>
        && currentState != Up && parentHosts != []
        && forall i :: 0 <= i < |parentHosts| ==> parentHosts[i].currentState != Up
      ensures state == Down <==>
        && currentState != Up
        && (parentHosts == [] || exists i :: 0 <= i < |parentHosts| && parentHosts[i].currentState == Up)
    {
      state := Down;
      if currentState == Up {
        return Up;
      }
      if parentHosts == [] {
        return Down;
      }
      var i := 0;
      while i < |parentHosts|
        invariant 0 <= i <= |parentHosts|
        invariant forall j :: 0 <= j < i ==> parentHosts[j].currentState != Up
      {
        if parentHosts[i].currentState == Up {
          return Down;
        }
        i := i + 1;
      }
      return Unreachable;
    }

    /** The state of a host that is not up. */
    method SetOutage(newState: HostState, translate: bool)
      requires this !in parentHosts && newState != Up
      modifies this`currentState
      ensures currentState == if translate then Verdict(parentHosts != [], old(SomeUp(parentHosts))) else newState
      ensures !translate ==> currentState == newState
      ensures translate ==> currentState != Up
      ensures translate ==> (currentState == Unreachable <==>
        parentHosts != [] && forall i :: 0 <= i < |parentHosts| ==> old(parentHosts[i].currentState) != Up)
    {
      currentState := newState;
      if translate {
        currentState := DetermineReachability();
      }
    }

    /** Serial checks of the parents, one after the other until one is up. `serialStates` are the
        states these checks report. */
    method CheckParentsInTurn(serialStates: seq<HostState>)
      requires |serialStates| == |parentHosts|
      modifies this`currentState
      ensures currentState == Verdict(parentHosts != [], Up in serialStates)
      ensures currentState == Unreachable <==>
        parentHosts != [] && forall i :: 0 <= i < |serialStates| ==> serialStates[i] != Up
      ensures currentState == Down <==>
        parentHosts == [] || exists i :: 0 <= i < |serialStates| && serialStates[i] == Up
    {
      var i := 0;
      while i < |parentHosts| && serialStates[i] != Up
        invariant 0 <= i <= |parentHosts|
        invariant forall j :: 0 <= j < i ==> serialStates[j] != Up
      {
        i := i + 1;
      }
      if i < |parentHosts| {
        currentState := Down;
      } else {
        currentState := if parentHosts == [] then Down else Unreachable;
      }
    }

    /** The verdict that a result depends on. */
    ghost function VerdictFor(active: bool, serialStates: seq<HostState>): Outage
      reads this, parentHosts
    {
      var serial := currentState == Up && maxAttempts == 1 && active;
      Verdict(parentHosts != [], if serial then Up in serialStates else SomeUp(parentHosts))
    }

    /** The four cases of `process_host_check_result_3x`: down or up before, down or up now. */
    method DecideState(newState: HostState, active: bool, serialStates: seq<HostState>, settings: Settings)
      requires this !in parentHosts && |serialStates| == |parentHosts|
      modifies this`currentState, this`stateType, this`currentAttempt
      ensures var soft := IsSoft(active, settings);
        && currentState == NextState(newState, active, old(VerdictFor(active, serialStates)), settings)
        && stateType == NextType(old(currentState), old(stateType), newState, old(currentAttempt), soft, maxAttempts)
        && var restarts := newState != Up && !soft && !(old(currentState) == Up && maxAttempts == 1);
        currentAttempt == if restarts then 1 else old(currentAttempt)
      ensures newState == Up ==> currentState == Up
      ensures newState != Up && !active && !settings.translatePassive ==> currentState == newState
      ensures newState != Up && (active || settings.translatePassive) ==>
        && currentState != Up
        && var serial := active && maxAttempts == 1 && old(currentState) == Up;
           var blocked := if serial then forall i :: 0 <= i < |serialStates| ==> serialStates[i] != Up
                          else forall i :: 0 <= i < |parentHosts| ==> old(parentHosts[i].currentState) != Up;
        (currentState == Unreachable <==> parentHosts != [] && blocked)
      ensures newState == Up && old(currentState) == Up ==> stateType == Hard
      ensures newState == Up && old(currentState) != Up ==>
        (stateType == Hard <==> old(stateType) == Hard || (!active && !settings.passiveSoft))
      ensures newState != Up && !active && !settings.passiveSoft ==> stateType == Hard
      ensures newState != Up && (active || settings.passiveSoft) && old(currentState) == Up ==>
        (stateType == Hard <==> maxAttempts == 1)
      ensures newState != Up && (active || settings.passiveSoft) && old(currentState) != Up ==>
        (stateType == Hard <==> old(currentAttempt) == maxAttempts || old(currentAttempt) == 1)
    {
      if currentState != Up {
        if newState == Up {
          currentState := Up;
          if stateType == Hard || (!active && !settings.passiveSoft) {
            stateType := Hard;
          } else {
            stateType := Soft;
          }
        } else {
          if !active && !settings.passiveSoft {
            stateType := Hard;
            currentAttempt := 1;
          } else if currentAttempt == maxAttempts {
            stateType := Hard;
          } else if currentAttempt == 1 {
            stateType := Hard;
          } else {
            stateType := Soft;
          }
          SetOutage(newState, active || settings.translatePassive);
        }
      } else {
        if newState == Up {
          currentState := Up;
          stateType := Hard;
        } else if maxAttempts == 1 {
          stateType := Hard;
          if active {
            CheckParentsInTurn(serialStates);
          } else {
            SetOutage(newState, settings.translatePassive);
          }
        } else {
          if active || settings.passiveSoft {
            stateType := Soft;
          } else {
            stateType := Hard;
            currentAttempt := 1;
          }
          SetOutage(newState, active || settings.translatePassive);
        }
      }
    }

    /** A change ends an acknowledgement, unless it is a sticky one and there is still a problem. */
    method ResetAcknowledgement(stateChange: bool, hardStateChange: bool)
      modifies this`problemHasBeenAcknowledged, this`acknowledgementType, this`ackData
      ensures var ended :=
          || (old(acknowledgementType) == Normal && stateChange)
          || (old(acknowledgementType) == Sticky && currentState == Up && (stateChange || hardStateChange));
        && problemHasBeenAcknowledged == (!ended && old(problemHasBeenAcknowledged))
        && acknowledgementType == (if ended then NoAcknowledgement else old(acknowledgementType))
        && ackData == if ended then old(ackData).(comments := Persistent(old(ackData).comments)) else old(ackData)
    {
      if stateChange || hardStateChange {
        if acknowledgementType == Normal && (stateChange || !hardStateChange) {
          problemHasBeenAcknowledged := false;
          acknowledgementType := NoAcknowledgement;
          ackData := ackData.(comments := Persistent(ackData.comments));
        } else if acknowledgementType == Sticky && currentState == Up {
          problemHasBeenAcknowledged := false;
          acknowledgementType := NoAcknowledgement;
          ackData := ackData.(comments := Persistent(ackData.comments));
        }
      }
    }

    /** The event id follows the changes, the problem id the problems. */
    method UpdateIds(counters: Counters)
      modifies this`ids, counters
      ensures IdsNoted(counters, old(ids), ids, true, lastState == Up, currentState == Up)
      ensures ids.currentEvent == old(counters.nextEventId) && ids.lastEvent == old(ids).currentEvent
      ensures counters.nextEventId == old(counters.nextEventId) + 1
      ensures counters.nextProblemId == old(counters.nextProblemId) + (if lastState == Up then 1 else 0)
      ensures var problem := if lastState == Up then old(counters.nextProblemId) else old(ids).currentProblem;
        && (currentState == Up ==> ids.currentProblem == 0 && ids.lastProblem == problem)
        && (currentState != Up ==> ids.currentProblem == problem && ids.lastProblem == old(ids).lastProblem)
    {
      ids := ids.(lastEvent := ids.currentEvent, currentEvent := counters.nextEventId);
      counters.nextEventId := counters.nextEventId + 1;
      if lastState == Up {
        ids := ids.(currentProblem := counters.nextProblemId);
        counters.nextProblemId := counters.nextProblemId + 1;
      }
      if currentState == Up {
        ids := ids.(lastProblem := ids.currentProblem, currentProblem := 0);
      }
    }

    /** `handle_host_state`: acknowledgement, ids, notifications. */
    method HandleHostState(counters: Counters)
      modifies this`problemHasBeenAcknowledged, this`acknowledgementType, this`ackData, this`ids, this`requests
      modifies this`currentAttempt, counters
      ensures ackData == AckDataNoted(old(ackData), old(acknowledgementType),
        lastState != currentState || (currentState == Up && stateType == Soft),
        lastState != currentState || (currentState == Up && stateType == Soft)
          || (old(currentAttempt) >= maxAttempts && lastHardState != currentState),
        currentState == Up)
      ensures var stateChange := lastState != currentState || (currentState == Up && stateType == Soft);
        var changed := stateChange || lastHardState != currentState;
        var ended :=
          || (old(acknowledgementType) == Normal && stateChange)
          || (old(acknowledgementType) == Sticky && currentState == Up
              && (stateChange || (old(currentAttempt) >= maxAttempts && lastHardState != currentState)));
        && problemHasBeenAcknowledged == (old(problemHasBeenAcknowledged) && !ended)
        && acknowledgementType == (if ended then NoAcknowledgement else old(acknowledgementType))
        && currentAttempt == (if changed && currentState == Up then 1 else old(currentAttempt))
        && requests == old(requests)
          + (if stateType == Hard && (changed || currentState != Up) then [currentState] else [])
        && IdsNoted(counters, old(ids), ids, changed, lastState == Up, currentState == Up)
    {
      var stateChange, hardStateChange := false, false;
      if lastState != currentState || (currentState == Up && stateType == Soft) {
        stateChange := true;
      }
      if currentAttempt >= maxAttempts && lastHardState != currentState {
        hardStateChange := true;
      }
      ResetAcknowledgement(stateChange, hardStateChange);
      if lastHardState != currentState {
        hardStateChange := true;
      }
      if stateChange || hardStateChange {
        UpdateIds(counters);
        if stateType == Hard {
          requests := requests + [currentState];
        }
        if currentState == Up {
          currentAttempt := 1;
        }
      } else if currentState != Up && stateType == Hard {
        requests := requests + [currentState];
      }
    }

    /** Saves the old state; passive results count their attempt only now. */
    method RecordLast(active: bool, settings: Settings)
      modifies this`lastState, this`lastHardState, this`currentAttempt
      ensures lastState == currentState && lastHardState == old(KnownHardState(GetStatus()))
      ensures currentAttempt ==
        old(if !active && settings.passiveSoft then Adjusted(GetStatus(), false, maxAttempts) else currentAttempt)
      ensures lastHardState == if stateType == Hard then currentState else old(lastHardState)
      ensures active || !settings.passiveSoft ==> currentAttempt == old(currentAttempt)
      ensures !active && settings.passiveSoft && stateType == Hard ==> currentAttempt == 1
      ensures !active && settings.passiveSoft && stateType == Soft ==>
        currentAttempt == if old(currentAttempt) < maxAttempts then old(currentAttempt) + 1 else old(currentAttempt)
    {
      lastState := currentState;
      if stateType == Hard {
        lastHardState := currentState;
      }
      if !active && settings.passiveSoft {
        AdjustCheckAttempt(false);
      }
    }

    /** A result is recorded and processed. */
    method ProcessCheckResult(newState: HostState, active: bool, serialStates: seq<HostState>, settings: Settings,
                              counters: Counters)
      requires this !in parentHosts && |serialStates| == |parentHosts|
      modifies this, counters
      ensures ackData == AckDataAfter(old(ackData), old(GetStatus()), currentState, stateType, active, settings,
                                      maxAttempts)
      ensures var s, verdict := old(GetStatus()), old(VerdictFor(active, serialStates));
        && GetStatus() == Next(s, newState, active, verdict, settings, maxAttempts)
        && requests == old(requests)
          + (if Notifies(s, newState, active, verdict, settings, maxAttempts) then [currentState] else [])
      ensures IdsNoted(counters, old(ids), ids, Changes(old(GetStatus()), currentState, stateType),
                       old(currentState) == Up, currentState == Up)
      ensures newState == Up || (!active && !settings.translatePassive) ==> currentState == newState
      ensures newState != Up && (active || settings.translatePassive) ==>
        && currentState != Up
        && var serial := active && maxAttempts == 1 && old(currentState) == Up;
           var blocked := if serial then forall i :: 0 <= i < |serialStates| ==> serialStates[i] != Up
                          else forall i :: 0 <= i < |parentHosts| ==> old(parentHosts[i].currentState) != Up;
        (currentState == Unreachable <==> parentHosts != [] && blocked)
    {
      hide Verdict, NextType, Adjusted;
      RecordLast(active, settings);
      DecideState(newState, active, serialStates, settings);
      HandleHostState(counters);
    }

    /** The return code of an active check as a state; what is wrong with the check is critical. */
    method TranslateReturnCode(exitedOk: bool, returnCode: int, settings: Settings) returns (state: HostState)
      ensures state == StateOf(Active(exitedOk, returnCode, false, false), hasCommand, settings)
      ensures state == Up <==>
        !hasCommand || (exitedOk && (returnCode == 0 || (returnCode == 1 && !settings.aggressiveChecking)))
      ensures state != Unreachable
    {
      var code := returnCode;
      if !exitedOk {
        code := 2;
      } else if code < 0 || code > 3 {
        code := 2;
      }
      if !hasCommand {
        code := 0;
      }
      if !settings.aggressiveChecking && code == 1 {
        code := 0;
      }
      state := if code == 0 then Up else Down;
    }

    /** `handle_async_host_check_result_3x`. */
    method HandleAsyncCheckResult(result: CheckResult, serialStates: seq<HostState>, settings: Settings,
                                  counters: Counters)
      requires this !in parentHosts && |serialStates| == |parentHosts|
      modifies this, counters
      ensures ackData == if Discarded(result) then old(ackData)
        else AckDataAfter(old(ackData), old(GetStatus()), currentState, stateType, result.Active?, settings,
                          maxAttempts)
      ensures Discarded(result) ==>
        && GetStatus() == old(GetStatus()) && requests == old(requests)
        && IdsNoted(counters, old(ids), ids, false, false, false)
      ensures !Discarded(result) ==>
        var s, verdict, newState := old(GetStatus()), old(VerdictFor(result.Active?, serialStates)),
          StateOf(result, hasCommand, settings);
        && GetStatus() == Next(s, newState, result.Active?, verdict, settings, maxAttempts)
        && requests == old(requests)
          + (if Notifies(s, newState, result.Active?, verdict, settings, maxAttempts) then [currentState] else [])
      ensures !Discarded(result) ==>
        IdsNoted(counters, old(ids), ids, Changes(old(GetStatus()), currentState, stateType), old(currentState) == Up,
                 currentState == Up)
      ensures (result.Passive? && !result.accepted) || (result.freshnessCheck && result.stillFresh) ==>
        currentState == old(currentState) && requests == old(requests)
      ensures result.Active? && !(result.freshnessCheck && result.stillFresh) ==>
        var up := !hasCommand || (result.exitedOk
          && (result.returnCode == 0 || (result.returnCode == 1 && !settings.aggressiveChecking)));
        && (currentState == Up <==> up)
        && var serial := maxAttempts == 1 && old(currentState) == Up;
           var blocked := if serial then forall i :: 0 <= i < |serialStates| ==> serialStates[i] != Up
                          else forall i :: 0 <= i < |parentHosts| ==> old(parentHosts[i].currentState) != Up;
        (currentState == Unreachable <==> !up && parentHosts != [] && blocked)
      ensures result.Passive? && result.accepted && !(result.freshnessCheck && result.stillFresh) ==>
        && (result.state == Up || !settings.translatePassive ==> currentState == result.state)
        && (result.state != Up && settings.translatePassive ==>
              && currentState != Up
              && var blocked := forall i :: 0 <= i < |parentHosts| ==> old(parentHosts[i].currentState) != Up;
              (currentState == Unreachable <==> parentHosts != [] && blocked))
    {
      hide Next, Notifies, Verdict;
      if result.Passive? && !result.accepted {
        return;
      }
      if result.freshnessCheck && result.stillFresh {
        return;
      }
      var newState;
      if result.Passive? {
        newState := result.state;
      } else {
        newState := TranslateReturnCode(result.exitedOk, result.returnCode, settings);
      }
      ProcessCheckResult(newState, result.Active?, serialStates, settings, counters);
    }

    /** `acknowledge_host_problem`: there has to be a problem. */
    method AcknowledgeProblem(sticky: bool, notify: bool, persistent: bool, endTime: int, currentTime: int)
      modifies this`problemHasBeenAcknowledged, this`acknowledgementType, this`ackData
      ensures GetStatus() == Acknowledged(old(GetStatus()), sticky)
      ensures ackData ==
        if currentState == Up then old(ackData)
        else AckDataAcknowledged(old(ackData), notify, persistent, endTime, currentTime)
      ensures currentState == Up ==>
        problemHasBeenAcknowledged == old(problemHasBeenAcknowledged) && acknowledgementType == old(acknowledgementType)
      ensures currentState != Up ==>
        && problemHasBeenAcknowledged && acknowledgementType == (if sticky then Sticky else Normal)
        && ackData.endTime == (if endTime > currentTime then endTime else 0)
        && ackData.comments == old(ackData).comments + [AckComment(persistent, ackData.endTime)]
        && ackData.notices == old(ackData).notices + (if notify then 1 else 0)
        && (endTime <= currentTime ==> ackData.expiries == old(ackData).expiries)
        && (endTime > currentTime ==>
              multiset(ackData.expiries) == multiset(old(ackData).expiries) + multiset{endTime + 1})
    {
      if currentState == Up {
        return;
      }
      hide InsertExpiry;
      var notices, expiries, ends := ackData.notices, ackData.expiries, endTime;
      if notify {
        notices := notices + 1;
      }
      problemHasBeenAcknowledged := true;
      acknowledgementType := if sticky then Sticky else Normal;
      if endTime > currentTime {
        expiries := InsertExpiry(expiries, endTime + 1);
      } else {
        ends := 0;
      }
      AckDataIs(ackData, notify, persistent, endTime, currentTime);
      ackData := AckData(ends, expiries, ackData.comments + [AckComment(persistent, ends)], notices);
    }

    /** `remove_host_acknowledgement`; the type is left as it was. */
    method RemoveAcknowledgement()
      modifies this`problemHasBeenAcknowledged, this`ackData
      ensures GetStatus() == Unacknowledged(old(GetStatus())) && ackData == AckDataRemoved(old(ackData))
      ensures !problemHasBeenAcknowledged && ackData.endTime == 0 && ackData.notices == old(ackData).notices
      ensures ackData.comments == Persistent(old(ackData).comments)
      ensures old(ackData).endTime != 0 && old(ackData).expiries != [] ==>
        ackData.expiries == old(ackData).expiries[1..]
      ensures old(ackData).endTime == 0 ==> ackData.expiries == old(ackData).expiries
    {
      if ackData.endTime != 0 && ackData.expiries != [] {
        ackData := ackData.(expiries := ackData.expiries[1..]);
      }
      problemHasBeenAcknowledged := false;
      ackData := ackData.(endTime := 0);
      ackData := ackData.(comments := Persistent(ackData.comments));
    }

    /** An expiry event of the object is due: it leaves the list, and its handler removes the
        acknowledgement there is, whichever that is. */
    method ExpireAcknowledgement()
      requires ackData.expiries != []
      modifies this`problemHasBeenAcknowledged, this`ackData
      ensures GetStatus() == Unacknowledged(old(GetStatus()))
      ensures ackData == AckDataRemoved(old(ackData).(expiries := old(ackData).expiries[1..]))
      ensures !problemHasBeenAcknowledged && ackData.endTime == 0
    {
      ackData := ackData.(expiries := ackData.expiries[1..]);
      RemoveAcknowledgement();
    }
  }

  function Configured(initialState: HostState, maxAttempts: nat): Status {
    var attempt := if initialState == Up then 1 else maxAttempts;
    Status(initialState, initialState, initialState, Hard, attempt, false, NoAcknowledgement)
  }

  // ---------- what every step keeps ----------

  /** A hard outage has either just run out of attempts or started over with the first; a soft
      state has not been hard since the host was up. */
  predicate Consistent(s: Status, max: nat) {
    && 1 <= s.attempt <= max
    && (s.stateType == Hard && s.state != Up ==> s.attempt == 1 || s.attempt == max)
    && (s.stateType == Soft ==> s.lastHardState == Up)
    && (s.stateType == Soft ==> max > 1)
  }

  lemma NextConsistent(s: Status, newState: HostState, active: bool, verdict: Outage, settings: Settings, max: nat)
    requires Consistent(s, max)
    ensures Consistent(Next(s, newState, active, verdict, settings, max), max)
  {
  }

  // ---------- runs ----------

  /** What happens to a host: a check is launched, which moves the attempt on, or a result comes in. */
  datatype Event =
    | Launch
    | Result(newState: HostState, active: bool, verdict: Outage)

  function Apply(s: Status, e: Event, settings: Settings, max: nat): Status {
    match e
    case Launch => s.(attempt := Adjusted(s, true, max))
    case Result(newState, active, verdict) => Next(s, newState, active, verdict, settings, max)
  }

  predicate NotifiesOn(s: Status, e: Event, settings: Settings, max: nat) {
    e.Result? && Notifies(s, e.newState, e.active, e.verdict, settings, max)
  }

  function Run(s: Status, events: seq<Event>, settings: Settings, max: nat): Status {
    if events == [] then s
    else var n := |events| - 1; Apply(Run(s, events[..n], settings, max), events[n], settings, max)
  }

  predicate NotifiesAt(s: Status, events: seq<Event>, i: nat, settings: Settings, max: nat)
    requires i < |events|
  {
    NotifiesOn(Run(s, events[..i], settings, max), events[i], settings, max)
  }

  lemma ApplyConsistent(s: Status, e: Event, settings: Settings, max: nat)
    requires Consistent(s, max)
    ensures Consistent(Apply(s, e, settings, max), max)
  {
    if e.Result? { NextConsistent(s, e.newState, e.active, e.verdict, settings, max); }
  }

  lemma {:induction false} RunConsistent(s: Status, events: seq<Event>, settings: Settings, max: nat)
    requires Consistent(s, max)
    ensures Consistent(Run(s, events, settings, max), max)
    decreases |events|
  {
    if events != [] {
      var n := |events| - 1;
      RunConsistent(s, events[..n], settings, max);
      ApplyConsistent(Run(s, events[..n], settings, max), events[n], settings, max);
    }
  }

  /** From any configured state on, every run is consistent. */
  lemma EveryRunConsistent(initialState: HostState, events: seq<Event>, settings: Settings, max: nat)
    requires max >= 1
    ensures Consistent(Run(Configured(initialState, max), events, settings, max), max)
  {
    RunConsistent(Configured(initialState, max), events, settings, max);
  }

  predicate HardUp(s: Status) {
    s.state == Up && s.stateType == Hard
  }

  /** No result in between says that the host is up. */
  predicate Episode(events: seq<Event>) {
    forall i :: 0 <= i < |events| && events[i].Result? ==> events[i].newState != Up
  }

  predicate HardDown(s: Status) {
    s.state != Up && s.stateType == Hard
  }

  /** A hard outage stays one until the host is up, however launches and results interleave. */
  lemma {:induction false} HardOutageLasts(s: Status, events: seq<Event>, settings: Settings, max: nat)
    requires Consistent(s, max) && HardDown(s) && Episode(events)
    ensures HardDown(Run(s, events, settings, max))
    decreases |events|
  {
    if events != [] {
      var n := |events| - 1;
      assert Episode(events[..n]);
      HardOutageLasts(s, events[..n], settings, max);
      RunConsistent(s, events[..n], settings, max);
    }
  }

  /** Every result that leaves the host in a hard outage makes a notification request, and no other
      result of an episode does. */
  lemma HardOutageNotifies(s: Status, e: Event, settings: Settings, max: nat)
    requires Consistent(s, max) && e.Result? && e.newState != Up
    ensures NotifiesOn(s, e, settings, max) <==> HardDown(Apply(s, e, settings, max))
  {
  }

  predicate ProblemNotified(s: Status, events: seq<Event>, settings: Settings, max: nat) {
    exists i :: 0 <= i < |events| && NotifiesAt(s, events, i, settings, max)
  }

  lemma ProblemNotifiedStep(s: Status, events: seq<Event>, settings: Settings, max: nat)
    requires events != []
    ensures var n := |events| - 1;
      ProblemNotified(s, events, settings, max) <==>
        ProblemNotified(s, events[..n], settings, max) || NotifiesAt(s, events, n, settings, max)
  {
    var n := |events| - 1;
    forall i | 0 <= i < n
      ensures NotifiesAt(s, events, i, settings, max) == NotifiesAt(s, events[..n], i, settings, max)
    {
      assert events[..n][..i] == events[..i];
    }
    if ProblemNotified(s, events[..n], settings, max) {
      var i :| 0 <= i < n && NotifiesAt(s, events[..n], i, settings, max);
      assert NotifiesAt(s, events, i, settings, max);
    }
  }

  /** An episode has made a problem request exactly when the outage is hard. */
  lemma {:induction false} NotifiedIffHard(s: Status, events: seq<Event>, settings: Settings, max: nat)
    requires Consistent(s, max) && s.state == Up && Episode(events)
    ensures ProblemNotified(s, events, settings, max) <==> HardDown(Run(s, events, settings, max))
    decreases |events|
  {
    if events != [] {
      var n := |events| - 1;
      var front := events[..n];
      assert Episode(front);
      NotifiedIffHard(s, front, settings, max);
      RunConsistent(s, front, settings, max);
      ProblemNotifiedStep(s, events, settings, max);
      var r := Run(s, front, settings, max);
      if events[n].Result? {
        HardOutageNotifies(r, events[n], settings, max);
        if HardDown(r) { HardOutageLasts(r, [events[n]], settings, max); ApplyIsRun(r, events[n], settings, max); }
      }
    }
  }

  lemma ApplyIsRun(s: Status, e: Event, settings: Settings, max: nat)
    ensures Run(s, [e], settings, max) == Apply(s, e, settings, max)
  {
    assert [e][..0] == [];
  }

  /** Recovery requests pair with problem requests: when the host comes up, a notification is
      asked for if and only if one was for the outage, or the host is up by a passive result that
      counts as hard and at least one result said it was not. */
  lemma RecoveryExactly(s: Status, events: seq<Event>, e: Event, settings: Settings, max: nat)
    requires Consistent(s, max) && s.state == Up && Episode(events) && e.Result? && e.newState == Up
    ensures NotifiesOn(Run(s, events, settings, max), e, settings, max) <==>
      || ProblemNotified(s, events, settings, max)
      || (!IsSoft(e.active, settings) && exists i :: 0 <= i < |events| && events[i].Result?)
  {
    NotifiedIffHard(s, events, settings, max);
    RunConsistent(s, events, settings, max);
    OutageNeedsResult(s, events, settings, max);
  }

  lemma {:induction false} RunConcat(s: Status, a: seq<Event>, b: seq<Event>, settings: Settings, max: nat)
    ensures Run(s, a + b, settings, max) == Run(Run(s, a, settings, max), b, settings, max)
    decreases |b|
  {
    if b == [] {
      assert a + b == a;
    } else {
      var n := |b| - 1;
      RunConcat(s, a, b[..n], settings, max);
      assert (a + b)[..|a + b| - 1] == a + b[..n];
    }
  }

  /** In any run whose results all have to be confirmed: between two results that say the host is up,
      with none in between, a notification is asked for at the second one if and only if one was for the outage. */
  lemma PairedInEveryRun(s: Status, events: seq<Event>, p: nat, q: nat, settings: Settings, max: nat)
    requires Consistent(s, max) && p < q < |events|
    requires events[p].Result? && events[p].newState == Up && events[q].Result? && events[q].newState == Up
    requires IsSoft(events[q].active, settings)
    requires forall i :: p < i < q && events[i].Result? ==> events[i].newState != Up
    ensures NotifiesAt(s, events, q, settings, max) <==>
      exists i :: p < i < q && NotifiesAt(s, events, i, settings, max)
  {
    hide Next, Notifies, Consistent;
    var start, episode := Run(s, events[..p + 1], settings, max), events[p + 1..q];
    UpAfterUp(s, events, p, settings, max);
    forall i | p < i <= q
      ensures Run(s, events[..i], settings, max) == Run(start, episode[..i - p - 1], settings, max)
    {
      assert events[..i] == events[..p + 1] + episode[..i - p - 1];
      RunConcat(s, events[..p + 1], episode[..i - p - 1], settings, max);
    }
    assert episode[..q - p - 1] == episode;
    RecoveryExactly(start, episode, events[q], settings, max);
    forall i | p < i < q
      ensures NotifiesAt(s, events, i, settings, max) == NotifiesAt(start, episode, i - p - 1, settings, max)
    {
    }
    if ProblemNotified(start, episode, settings, max) {
      var j :| 0 <= j < |episode| && NotifiesAt(start, episode, j, settings, max);
      assert NotifiesAt(s, events, j + p + 1, settings, max);
    }
  }

  lemma UpAfterUp(s: Status, events: seq<Event>, p: nat, settings: Settings, max: nat)
    requires Consistent(s, max) && p < |events| && events[p].Result? && events[p].newState == Up
    ensures var r := Run(s, events[..p + 1], settings, max); r.state == Up && Consistent(r, max)
  {
    assert events[..p + 1][p] == events[p];
    RunConsistent(s, events[..p + 1], settings, max);
  }

  lemma {:induction false} OutageNeedsResult(s: Status, events: seq<Event>, settings: Settings, max: nat)
    requires s.state == Up && Episode(events)
    ensures Run(s, events, settings, max).state != Up <==> exists i :: 0 <= i < |events| && events[i].Result?
    decreases |events|
  {
    if events != [] {
      var n := |events| - 1;
      assert Episode(events[..n]);
      OutageNeedsResult(s, events[..n], settings, max);
    }
  }

  // ---------- counting attempts ----------

  /** A check as the host sees it: the attempt is adjusted once, then the result is processed. */
  function Round(s: Status, e: Event, settings: Settings, max: nat): Status
    requires e.Result?
  {
    Apply(if e.active then Apply(s, Launch, settings, max) else s, e, settings, max)
  }

  predicate SoftOutages(checks: seq<Event>, settings: Settings) {
    forall i :: 0 <= i < |checks| ==>
      checks[i].Result? && checks[i].newState != Up && IsSoft(checks[i].active, settings)
  }

  function Rounds(s: Status, checks: seq<Event>, settings: Settings, max: nat): Status
    requires forall i :: 0 <= i < |checks| ==> checks[i].Result?
  {
    if checks == [] then s
    else var n := |checks| - 1; Round(Rounds(s, checks[..n], settings, max), checks[n], settings, max)
  }

  /** From a hard up state, failed checks are counted up to the maximum; with the last one the
      outage gets hard, and after that every check counts as the first. */
  lemma {:induction false} OutagesAreCounted(s: Status, checks: seq<Event>, settings: Settings, max: nat)
    requires HardUp(s) && max >= 1 && checks != [] && SoftOutages(checks, settings)
    ensures var r, k := Rounds(s, checks, settings, max), |checks|;
      && r.state != Up
      && (r.stateType == Hard <==> k >= max)
      && r.attempt == if k <= max then k else 1
    decreases |checks|
  {
    var n := |checks| - 1;
    if n > 0 {
      assert SoftOutages(checks[..n], settings);
      OutagesAreCounted(s, checks[..n], settings, max);
    }
  }
}
