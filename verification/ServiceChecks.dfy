/** Handling of a service check result (`handle_async_service_check_result`, base/checks.c). */
module ServiceChecks {
  import opened CheckStates

  /** What decides about the next state of a service. */
  datatype Status = Status(state: ServiceState, lastState: ServiceState, lastHardState: ServiceState,
                           stateType: StateType,
                           attempt: nat, hostProblem: bool, acknowledged: bool, acknowledgement: Acknowledgement)

  /** A result: where it comes from, how the plugin ended, and what the route to the host is found
      to be when that is looked at. */
  datatype CheckResult = CheckResult(active: bool, passiveAccepted: bool, freshnessCheck: bool, stillFresh: bool,
                                     exitedOk: bool, returnCode: int, route: HostState)

  /** Results that are dropped unread: unwanted passive ones, and freshness checks that come too late. */
  predicate Discarded(result: CheckResult) {
    || (!result.active && !result.passiveAccepted)
    || (result.freshnessCheck && result.stillFresh)
  }

  /** Anything but a proper return code is critical. */
  function StateOf(result: CheckResult): ServiceState {
    if !result.exitedOk || result.returnCode < 0 || result.returnCode > 3 then Critical
    else match result.returnCode case 0 => Ok case 1 => Warning case 2 => Critical case _ => Unknown
  }

  // ---------- one step, on values ----------

  /** The attempt number a result is counted as. */
  function CountedAttempt(s: Status, max: nat): nat {
    if s.stateType == Soft && s.attempt < max then s.attempt + 1 else s.attempt
  }

  /** The attempt number after a problem: counting starts again once the host has come back. */
  function ProblemAttempt(s: Status, route: HostState, max: nat): nat {
    if route == Up && s.hostProblem && s.stateType == Soft then 1 else CountedAttempt(s, max)
  }

  function AfterOk(s: Status): Status {
    Status(Ok, s.state, Ok, Hard, 1, false, false, NoAcknowledgement)
  }

  function AfterProblem(s: Status, state: ServiceState, route: HostState, max: nat): Status {
    var attempt := ProblemAttempt(s, route, max);
    var settled := attempt >= max || (route != Up && s.lastHardState != state);
    var stateType := if settled then Hard else if route == Up then Soft else s.stateType;
    Status(state, s.state, if settled then state else s.lastHardState, stateType, attempt, route != Up,
           s.acknowledged && !(s.acknowledgement == Normal && state != s.state),
           AcknowledgementAfter(s.acknowledgement, state != s.state, false))
  }

  function Next(s: Status, state: ServiceState, route: HostState, max: nat): Status {
    if state == Ok then AfterOk(s) else AfterProblem(s, state, route, max)
  }

  /** Whether the handler asks for a notification, of a recovery or of a problem. It is decided elsewhere
      whether one goes out. */
  predicate Notifies(s: Status, state: ServiceState, route: HostState, max: nat) {
    if state == Ok then s.hostProblem || (CountedAttempt(s, max) >= max && s.lastHardState != Ok)
    else ProblemAttempt(s, route, max) >= max
  }

  /** The status after the commands of a user. */
  function Acknowledged(s: Status, sticky: bool): Status {
    if s.state == Ok then s else s.(acknowledged := true, acknowledgement := if sticky then Sticky else Normal)
  }

  function Unacknowledged(s: Status): Status {
    s.(acknowledged := false)
  }

  /** The changes that are found before the route to the host is looked at. */
  predicate ChangesHard(s: Status, state: ServiceState, max: nat) {
    (s.hostProblem && state == Ok) || (CountedAttempt(s, max) >= max && state != s.lastHardState)
  }

  function AckDataAfter(d: AckData, s: Status, state: ServiceState, max: nat): AckData {
    AckDataNoted(d, s.acknowledgement, state != s.state, state != s.state || ChangesHard(s, state, max), state == Ok)
  }

  // ---------- the handler ----------

  class Service {
    const maxAttempts: nat
    var currentState: ServiceState
    var lastState: ServiceState
    var lastHardState: ServiceState
    var stateType: StateType
    var currentAttempt: nat
    var hostProblemAtLastCheck: bool
    var problemHasBeenAcknowledged: bool
    var acknowledgementType: Acknowledgement
    var ackData: AckData
    var ids: Ids
    var requests: seq<ServiceState>  // the state with every notification request so far

    /** A service as it is configured. */
    constructor (initialState: ServiceState, maxAttempts: nat)
      requires maxAttempts >= 1
      ensures this.maxAttempts == maxAttempts && requests == [] && ids == Ids(0, 0, 0, 0) && ackData == NO_ACK_DATA
      ensures GetStatus() == Configured(initialState, maxAttempts)
      ensures currentState == lastState == lastHardState == initialState && stateType == Hard
      ensures currentAttempt == if initialState == Ok then 1 else maxAttempts
      ensures !problemHasBeenAcknowledged && acknowledgementType == NoAcknowledgement
    {
      this.maxAttempts := maxAttempts;
      currentState, lastState, lastHardState, stateType := initialState, initialState, initialState, Hard;
      currentAttempt := if initialState == Ok then 1 else maxAttempts;
      hostProblemAtLastCheck, problemHasBeenAcknowledged, acknowledgementType := false, false, NoAcknowledgement;
      ackData := NO_ACK_DATA;
      ids, requests := Ids(0, 0, 0, 0), [];
    }

    function GetStatus(): Status
      reads this
    {
      Status(currentState, lastState, lastHardState, stateType, currentAttempt, hostProblemAtLastCheck,
             problemHasBeenAcknowledged, acknowledgementType)
    }

    method RecordState(result: CheckResult)
      modifies this`lastState, this`currentState
      ensures lastState == old(currentState) && currentState == StateOf(result)
      ensures result.exitedOk && 0 <= result.returnCode <= 3 ==>
        && (currentState == Ok <==> result.returnCode == 0) && (currentState == Warning <==> result.returnCode == 1)
        && (currentState == Critical <==> result.returnCode == 2)
        && (currentState == Unknown <==> result.returnCode == 3)
      ensures !result.exitedOk || !(0 <= result.returnCode <= 3) ==> currentState == Critical
    {
      lastState := currentState;
      if !result.exitedOk {
        currentState := Critical;
      } else if result.returnCode < 0 || result.returnCode > 3 {
        currentState := Critical;
      } else {
        currentState := match result.returnCode case 0 => Ok case 1 => Warning case 2 => Critical case _ => Unknown;
      }
    }

    /** A change ends an acknowledgement, unless it is a sticky one and there is still a problem. */
    method ResetAcknowledgement(stateChange: bool, hardStateChange: bool)
      modifies this`problemHasBeenAcknowledged, this`acknowledgementType, this`ackData
      ensures var ended :=
          || (old(acknowledgementType) == Normal && stateChange)
          || (old(acknowledgementType) == Sticky && currentState == Ok && (stateChange || hardStateChange));
        && problemHasBeenAcknowledged == (!ended && old(problemHasBeenAcknowledged))
        && acknowledgementType == (if ended then NoAcknowledgement else old(acknowledgementType))
        && ackData == if ended then old(ackData).(comments := Persistent(old(ackData).comments)) else old(ackData)
    {
      if stateChange || hardStateChange {
        if acknowledgementType == Normal && (stateChange || !hardStateChange) {
          problemHasBeenAcknowledged := false;
          acknowledgementType := NoAcknowledgement;
          ackData := ackData.(comments := Persistent(ackData.comments));
        } else if acknowledgementType == Sticky && currentState == Ok {
          problemHasBeenAcknowledged := false;
          acknowledgementType := NoAcknowledgement;
          ackData := ackData.(comments := Persistent(ackData.comments));
        }
      }
    }

    /** Counts the attempt and finds out what has changed. */
    method NoteChanges() returns (stateChange: bool, hardStateChange: bool)
      modifies this`currentAttempt, this`problemHasBeenAcknowledged, this`acknowledgementType, this`ackData
      ensures currentAttempt == old(CountedAttempt(GetStatus(), maxAttempts))
      ensures stateChange == (currentState != lastState)
      ensures hardStateChange == ((hostProblemAtLastCheck && currentState == Ok)
                                  || (currentAttempt >= maxAttempts && currentState != lastHardState))
      ensures currentState != Ok ==>
        && acknowledgementType == AcknowledgementAfter(old(acknowledgementType), stateChange, false)
        && problemHasBeenAcknowledged
          == (old(problemHasBeenAcknowledged) && !(old(acknowledgementType) == Normal && stateChange))
      ensures var change := stateChange || hardStateChange;
        ackData == AckDataNoted(old(ackData), old(acknowledgementType), stateChange, change, currentState == Ok)
      ensures currentAttempt ==
        if stateType == Soft && old(currentAttempt) < maxAttempts then old(currentAttempt) + 1 else old(currentAttempt)
    {
      if stateType == Soft && currentAttempt < maxAttempts {
        currentAttempt := currentAttempt + 1;
      }
      stateChange, hardStateChange := currentState != lastState, false;
      if hostProblemAtLastCheck && currentState == Ok {
        hardStateChange := true;
      }
      if currentAttempt >= maxAttempts && currentState != lastHardState {
        hardStateChange := true;
      }
      ResetAcknowledgement(stateChange, hardStateChange);
    }

    /** The event id follows the changes of state, the problem id the problems. */
    method UpdateIds(counters: Counters)
      modifies this`ids, counters
      ensures IdsNoted(counters, old(ids), ids, currentState != lastState, lastState == Ok, currentState == Ok)
      ensures currentState == lastState ==> ids == old(ids)
      ensures currentState != lastState ==>
        && ids.currentEvent == old(counters.nextEventId) && ids.lastEvent == old(ids).currentEvent
        && counters.nextEventId == old(counters.nextEventId) + 1
        && counters.nextProblemId == old(counters.nextProblemId) + (if lastState == Ok then 1 else 0)
        && var problem := if lastState == Ok then old(counters.nextProblemId) else old(ids).currentProblem;
        && (currentState == Ok ==> ids.currentProblem == 0 && ids.lastProblem == problem)
        && (currentState != Ok ==> ids.currentProblem == problem && ids.lastProblem == old(ids).lastProblem)
    {
      if currentState != lastState {
        ids := ids.(lastEvent := ids.currentEvent, currentEvent := counters.nextEventId);
        counters.nextEventId := counters.nextEventId + 1;
        if lastState == Ok {
          ids := ids.(currentProblem := counters.nextProblemId);
          counters.nextProblemId := counters.nextProblemId + 1;
        }
        if currentState == Ok {
          ids := ids.(lastProblem := ids.currentProblem, currentProblem := 0);
        }
      }
    }

    method HandleOk(stateChange: bool, hardStateChange: bool)
      modifies this`stateType, this`lastHardState, this`currentAttempt, this`hostProblemAtLastCheck
      modifies this`problemHasBeenAcknowledged, this`acknowledgementType, this`requests
      ensures lastHardState == Ok && stateType == Hard && currentAttempt == 1 && !hostProblemAtLastCheck
      ensures !problemHasBeenAcknowledged && acknowledgementType == NoAcknowledgement
      ensures requests == old(requests) + if hardStateChange then [currentState] else []
    {
      problemHasBeenAcknowledged := false;
      acknowledgementType := NoAcknowledgement;
      if hardStateChange {
        stateType := Hard;
        requests := requests + [currentState];
      } else if stateChange {
        // a soft recovery
        stateType := Soft;
      }
      hostProblemAtLastCheck := false;
      currentAttempt := 1;
      stateType := Hard;
      lastHardState := Ok;
    }

    method HandleProblem(route: HostState, hardlyChanged: bool)
      modifies this`stateType, this`lastHardState, this`currentAttempt, this`hostProblemAtLastCheck, this`requests
      ensures currentAttempt ==
        if route == Up && old(hostProblemAtLastCheck) && old(stateType) == Soft then 1 else old(currentAttempt)
      ensures hostProblemAtLastCheck == (route != Up)
      ensures requests == old(requests) + if currentAttempt >= maxAttempts then [currentState] else []
      ensures currentAttempt >= maxAttempts ==> stateType == Hard && lastHardState == currentState
      ensures currentAttempt < maxAttempts && route == Up ==> stateType == Soft && lastHardState == old(lastHardState)
      ensures currentAttempt < maxAttempts && route != Up ==>
        && lastHardState == currentState
        && stateType == if old(lastHardState) != currentState || hardlyChanged then Hard else old(stateType)
    {
      var hardStateChange := hardlyChanged;
      if route != Up {
        if lastHardState != currentState {
          hardStateChange := true;
        }
        if hardStateChange {
          stateType := Hard;
          lastHardState := currentState;
        }
        hostProblemAtLastCheck := true;
      } else if hostProblemAtLastCheck {
        hostProblemAtLastCheck := false;
        if stateType == Soft {
          currentAttempt := 1;
        }
      }
      if currentAttempt < maxAttempts {
        if route == Up {
          stateType := Soft;
        }
      } else {
        stateType := Hard;
        requests := requests + [currentState];
        lastHardState := currentState;
      }
    }

    /** `handle_async_service_check_result`. */
    method HandleAsyncCheckResult(result: CheckResult, counters: Counters)
      modifies this, counters
      ensures Discarded(result) ==>
        && GetStatus() == old(GetStatus()) && ackData == old(ackData) && requests == old(requests)
        && IdsNoted(counters, old(ids), ids, false, false, false)
      ensures !Discarded(result) ==>
        var s, state := old(GetStatus()), StateOf(result);
        && GetStatus() == Next(s, state, result.route, maxAttempts)
        && ackData == AckDataAfter(old(ackData), s, state, maxAttempts)
        && requests == old(requests) + (if Notifies(s, state, result.route, maxAttempts) then [state] else [])
        && IdsNoted(counters, old(ids), ids, state != s.state, s.state == Ok, state == Ok)
      ensures (!result.active && !result.passiveAccepted) || (result.freshnessCheck && result.stillFresh) ==>
        currentState == old(currentState) && lastState == old(lastState) && requests == old(requests)
      ensures (result.active || result.passiveAccepted) && !(result.freshnessCheck && result.stillFresh) ==>
        && lastState == old(currentState)
        && (result.exitedOk && 0 <= result.returnCode <= 3 ==>
              && (currentState == Ok <==> result.returnCode == 0)
              && (currentState == Warning <==> result.returnCode == 1)
              && (currentState == Critical <==> result.returnCode == 2)
              && (currentState == Unknown <==> result.returnCode == 3))
        && (!result.exitedOk || !(0 <= result.returnCode <= 3) ==> currentState == Critical)
    {
      hide Next, Notifies, AckDataAfter;
      if !result.active && !result.passiveAccepted {
        return;
      }
      if result.freshnessCheck && result.stillFresh {
        return;
      }
      ProcessCheckResult(result, counters);
    }

    /** A result is recorded and acted upon. */
    method ProcessCheckResult(result: CheckResult, counters: Counters)
      modifies this, counters
      ensures var s, state := old(GetStatus()), StateOf(result);
        && GetStatus() == Next(s, state, result.route, maxAttempts)
        && ackData == AckDataAfter(old(ackData), s, state, maxAttempts)
        && requests == old(requests) + (if Notifies(s, state, result.route, maxAttempts) then [state] else [])
        && IdsNoted(counters, old(ids), ids, state != s.state, s.state == Ok, state == Ok)
      ensures lastState == old(currentState)
      ensures result.exitedOk && 0 <= result.returnCode <= 3 ==>
        && (currentState == Ok <==> result.returnCode == 0) && (currentState == Warning <==> result.returnCode == 1)
        && (currentState == Critical <==> result.returnCode == 2)
        && (currentState == Unknown <==> result.returnCode == 3)
      ensures !result.exitedOk || !(0 <= result.returnCode <= 3) ==> currentState == Critical
    {
      hide IdsAfter, StateOf, AckDataNoted;
      RecordState(result);
      var stateChange, hardStateChange := NoteChanges();
      UpdateIds(counters);
      if currentState == Ok {
        HandleOk(stateChange, hardStateChange);
      } else {
        HandleProblem(result.route, hardStateChange);
      }
    }

    /** `acknowledge_service_problem`: there has to be a problem. */
    method AcknowledgeProblem(sticky: bool, notify: bool, persistent: bool, endTime: int, currentTime: int)
      modifies this`problemHasBeenAcknowledged, this`acknowledgementType, this`ackData
      ensures GetStatus() == Acknowledged(old(GetStatus()), sticky)
      ensures ackData ==
        if currentState == Ok then old(ackData)
        else AckDataAcknowledged(old(ackData), notify, persistent, endTime, currentTime)
      ensures currentState == Ok ==>
        problemHasBeenAcknowledged == old(problemHasBeenAcknowledged) && acknowledgementType == old(acknowledgementType)
      ensures currentState != Ok ==>
        && problemHasBeenAcknowledged && acknowledgementType == (if sticky then Sticky else Normal)
        && ackData.endTime == (if endTime > currentTime then endTime else 0)
        && ackData.comments == old(ackData).comments + [AckComment(persistent, ackData.endTime)]
        && ackData.notices == old(ackData).notices + (if notify then 1 else 0)
        && (endTime <= currentTime ==> ackData.expiries == old(ackData).expiries)
        && (endTime > currentTime ==>
              multiset(ackData.expiries) == multiset(old(ackData).expiries) + multiset{endTime + 1})
    {
      if currentState == Ok {
        return;
      }
      hide InsertExpiry;
      var notices, expiries, ends := ackData.notices, ackData.expiries, endTime;
      if notify {
        notices := notices + 1;
      }
      problemHasBeenAcknowledged := true;
      acknowledgementType := if sticky then Sticky else Normal;
      if endTime > currentTime {
        expiries := InsertExpiry(expiries, endTime + 1);
      } else {
        ends := 0;
      }
      AckDataIs(ackData, notify, persistent, endTime, currentTime);
      ackData := AckData(ends, expiries, ackData.comments + [AckComment(persistent, ends)], notices);
    }

    /** `remove_service_acknowledgement`; the type is left as it was. */
    method RemoveAcknowledgement()
      modifies this`problemHasBeenAcknowledged, this`ackData
      ensures GetStatus() == Unacknowledged(old(GetStatus())) && ackData == AckDataRemoved(old(ackData))
      ensures !problemHasBeenAcknowledged && ackData.endTime == 0 && ackData.notices == old(ackData).notices
      ensures ackData.comments == Persistent(old(ackData).comments)
      ensures old(ackData).endTime != 0 && old(ackData).expiries != [] ==>
        ackData.expiries == old(ackData).expiries[1..]
      ensures old(ackData).endTime == 0 ==> ackData.expiries == old(ackData).expiries
    {
      if ackData.endTime != 0 && ackData.expiries != [] {
        ackData := ackData.(expiries := ackData.expiries[1..]);
      }
      problemHasBeenAcknowledged := false;
      ackData := ackData.(endTime := 0);
      ackData := ackData.(comments := Persistent(ackData.comments));
    }

    /** An expiry event of the object is due: it leaves the list, and its handler removes the
        acknowledgement there is, whichever that is. */
    method ExpireAcknowledgement()
      requires ackData.expiries != []
      modifies this`problemHasBeenAcknowledged, this`ackData
      ensures GetStatus() == Unacknowledged(old(GetStatus()))
      ensures ackData == AckDataRemoved(old(ackData).(expiries := old(ackData).expiries[1..]))
      ensures !problemHasBeenAcknowledged && ackData.endTime == 0
    {
      ackData := ackData.(expiries := ackData.expiries[1..]);
      RemoveAcknowledgement();
    }
  }

  function Configured(initialState: ServiceState, maxAttempts: nat): Status {
    var attempt := if initialState == Ok then 1 else maxAttempts;
    Status(initialState, initialState, initialState, Hard, attempt, false, false, NoAcknowledgement)
  }

  // ---------- what every step keeps ----------

  /** OK is always hard and settled, a soft problem still has attempts left, and a problem out of
      attempts is hard. */
  predicate Consistent(s: Status, max: nat) {
    && 1 <= s.attempt <= max
    && (s.state == Ok ==> s.stateType == Hard && s.attempt == 1 && s.lastHardState == Ok && !s.hostProblem)
    && (s.stateType == Soft ==> s.state != Ok && s.attempt < max)
    && (s.state != Ok && s.attempt == max ==> s.stateType == Hard && s.lastHardState == s.state)
    && (s.hostProblem ==> s.lastHardState == s.state)
  }

  lemma NextConsistent(s: Status, state: ServiceState, route: HostState, max: nat)
    requires Consistent(s, max)
    ensures Consistent(Next(s, state, route, max), max)
  {
  }

  // ---------- runs ----------

  /** One check: the state found and the route to the host. */
  datatype Check = Check(state: ServiceState, route: HostState)

  function Run(s: Status, checks: seq<Check>, max: nat): Status {
    if checks == [] then s
    else var n := |checks| - 1; Next(Run(s, checks[..n], max), checks[n].state, checks[n].route, max)
  }

  /** Whether the `i`-th check of a run makes a notification request. */
  predicate NotifiesAt(s: Status, checks: seq<Check>, i: nat, max: nat)
    requires i < |checks|
  {
    Notifies(Run(s, checks[..i], max), checks[i].state, checks[i].route, max)
  }

  lemma {:induction false} RunConsistent(s: Status, checks: seq<Check>, max: nat)
    requires Consistent(s, max)
    ensures Consistent(Run(s, checks, max), max)
    decreases |checks|
  {
    if checks != [] {
      var n := |checks| - 1;
      RunConsistent(s, checks[..n], max);
      NextConsistent(Run(s, checks[..n], max), checks[n].state, checks[n].route, max);
    }
  }

  /** From any configured state on, every run is consistent. */
  lemma EveryRunConsistent(initialState: ServiceState, checks: seq<Check>, max: nat)
    requires max >= 1
    ensures Consistent(Run(Configured(initialState, max), checks, max), max)
  {
    RunConsistent(Configured(initialState, max), checks, max);
  }

  predicate HardOk(s: Status) {
    s.state == Ok && s.stateType == Hard && s.attempt == 1 && s.lastHardState == Ok && !s.hostProblem
  }

  /** Some problems in a row. */
  predicate Episode(checks: seq<Check>) {
    forall i :: 0 <= i < |checks| ==> checks[i].state != Ok
  }

  predicate RouteUp(checks: seq<Check>) {
    forall i :: 0 <= i < |checks| ==> checks[i].route == Up
  }

  /** While the host stays up, problems are counted up to the maximum, whatever they are. The state
      gets hard with the last attempt, and from then on a notification is asked for every time. */
  lemma {:induction false} ProblemsAreCounted(s: Status, checks: seq<Check>, max: nat)
    requires HardOk(s) && max >= 1 && checks != [] && Episode(checks) && RouteUp(checks)
    ensures var r, k := Run(s, checks, max), |checks|;
      && r.attempt == (if k < max then k else max)
      && (r.stateType == Hard <==> k >= max)
      && r.state == checks[k - 1].state
      && r.lastHardState == (if k >= max then r.state else Ok)
      && (NotifiesAt(s, checks, k - 1, max) <==> k >= max)
    decreases |checks|
  {
    var k := |checks|;
    if k > 1 {
      var front := checks[..k - 1];
      assert Episode(front) && RouteUp(front);
      ProblemsAreCounted(s, front, max);
      HostNotInvolved(s, front, max);
    }
  }

  lemma {:induction false} HostNotInvolved(s: Status, checks: seq<Check>, max: nat)
    requires HardOk(s) && RouteUp(checks)
    ensures !Run(s, checks, max).hostProblem
    decreases |checks|
  {
    if checks != [] {
      assert RouteUp(checks[..|checks| - 1]);
      HostNotInvolved(s, checks[..|checks| - 1], max);
    }
  }

  // ---------- notifications come in pairs ----------

  predicate ProblemNotified(s: Status, checks: seq<Check>, max: nat) {
    exists i :: 0 <= i < |checks| && NotifiesAt(s, checks, i, max)
  }

  predicate RouteLost(checks: seq<Check>) {
    exists i :: 0 <= i < |checks| && checks[i].route != Up
  }

  /** How an episode shows in the state at its end. */
  lemma {:induction false} EpisodeShows(s: Status, checks: seq<Check>, max: nat)
    requires HardOk(s) && max >= 1 && checks != [] && Episode(checks)
    ensures var r := Run(s, checks, max);
      && Consistent(r, max) && r.state != Ok
      && (ProblemNotified(s, checks, max) <==> r.attempt == max)
      && (r.lastHardState != Ok <==> ProblemNotified(s, checks, max) || RouteLost(checks))
      && (r.hostProblem <==> checks[|checks| - 1].route != Up)
    decreases |checks|
  {
    var n := |checks| - 1;
    var front := checks[..n];
    assert Episode(front);
    RunConsistent(s, checks, max);
    RunConsistent(s, front, max);
    if n > 0 { EpisodeShows(s, front, max); }
    ProblemNotifiedStep(s, checks, max);
    assert RouteLost(checks) <==> RouteLost(front) || checks[n].route != Up by {
      forall i | 0 <= i < n ensures front[i] == checks[i] {}
      if RouteLost(front) {
        var i :| 0 <= i < |front| && front[i].route != Up;
        assert checks[i].route != Up;
      }
    }
  }

  lemma ProblemNotifiedStep(s: Status, checks: seq<Check>, max: nat)
    requires checks != []
    ensures var n := |checks| - 1; ProblemNotified(s, checks, max) <==>
      ProblemNotified(s, checks[..n], max) || NotifiesAt(s, checks, n, max)
  {
    var n := |checks| - 1;
    forall i | 0 <= i < n ensures NotifiesAt(s, checks, i, max) == NotifiesAt(s, checks[..n], i, max) {
      assert checks[..n][..i] == checks[..i];
    }
    if ProblemNotified(s, checks[..n], max) {
      var i :| 0 <= i < n && NotifiesAt(s, checks[..n], i, max);
      assert NotifiesAt(s, checks, i, max);
    }
  }

  /** While the host stays up, a notification of a recovery is asked for if and only if one was of a
      problem since the service was last OK. */
  lemma RecoveryIffProblem(s: Status, checks: seq<Check>, route: HostState, max: nat)
    requires HardOk(s) && max >= 1 && Episode(checks) && RouteUp(checks)
    ensures Notifies(Run(s, checks, max), Ok, route, max) <==> ProblemNotified(s, checks, max)
  {
    if checks != [] {
      EpisodeShows(s, checks, max);
    }
  }

  lemma {:induction false} RunConcat(s: Status, a: seq<Check>, b: seq<Check>, max: nat)
    ensures Run(s, a + b, max) == Run(Run(s, a, max), b, max)
    decreases |b|
  {
    if b == [] {
      assert a + b == a;
    } else {
      var n := |b| - 1;
      RunConcat(s, a, b[..n], max);
      assert (a + b)[..|a + b| - 1] == a + b[..n];
    }
  }

  /** The same anywhere in a run: between two OK results of a service whose host stays up, with only
      problems in between, a notification is asked for at the second one if and only if one was for a problem. */
  lemma PairedInEveryRun(s: Status, checks: seq<Check>, p: nat, q: nat, max: nat)
    requires Consistent(s, max) && p < q < |checks| && checks[p].state == Ok && checks[q].state == Ok
    requires forall i :: p < i < q ==> checks[i].state != Ok && checks[i].route == Up
    ensures NotifiesAt(s, checks, q, max) <==> exists i :: p < i < q && NotifiesAt(s, checks, i, max)
  {
    var start, episode := Run(s, checks[..p + 1], max), checks[p + 1..q];
    assert checks[..p + 1][p] == checks[p];
    OkResets(s, checks[..p + 1], max);
    forall i | p < i <= q ensures Run(s, checks[..i], max) == Run(start, episode[..i - p - 1], max) {
      assert checks[..i] == checks[..p + 1] + episode[..i - p - 1];
      RunConcat(s, checks[..p + 1], episode[..i - p - 1], max);
    }
    assert episode[..q - p - 1] == episode;
    RecoveryIffProblem(start, episode, checks[q].route, max);
    forall i | p < i < q ensures NotifiesAt(s, checks, i, max) == NotifiesAt(start, episode, i - p - 1, max) {
    }
    if ProblemNotified(start, episode, max) {
      var j :| 0 <= j < |episode| && NotifiesAt(start, episode, j, max);
      assert NotifiesAt(s, checks, j + p + 1, max);
    }
  }

  /** Wherever the host goes, a problem request is always followed by a recovery request. The
      other way round a recovery request also comes when the host was not up at the last problem, or
      was not up earlier and the recovery takes the place of the last attempt. */
  lemma RecoveryExactly(s: Status, checks: seq<Check>, route: HostState, max: nat)
    requires HardOk(s) && max >= 1 && checks != [] && Episode(checks)
    ensures var r := Run(s, checks, max);
      Notifies(r, Ok, route, max) <==>
        || ProblemNotified(s, checks, max)
        || checks[|checks| - 1].route != Up
        || (RouteLost(checks) && r.stateType == Soft && r.attempt + 1 == max)
  {
    EpisodeShows(s, checks, max);
  }

  /** A recovery request without a problem request: one check, with the host down. */
  lemma RecoveryWithoutProblem()
    ensures var s := Configured(Ok, 2);
      var checks := [Check(Critical, Down)];
      HardOk(s) && Episode(checks) && !ProblemNotified(s, checks, 2) && Notifies(Run(s, checks, 2), Ok, Up, 2)
  {
    var s := Configured(Ok, 2);
    var checks := [Check(Critical, Down)];
    assert checks[..0] == [];
    assert Run(s, checks, 2) == Next(s, Critical, Down, 2);
    assert !NotifiesAt(s, checks, 0, 2);
  }

  /** And one while the host is up again: it was down at the first of two problems, and the
      recovery comes in place of the last attempt. */
  lemma RecoveryAtLastAttempt()
    ensures var s := Configured(Ok, 2);
      var checks := [Check(Critical, Down), Check(Critical, Up)];
      HardOk(s) && Episode(checks) && !ProblemNotified(s, checks, 2) && Notifies(Run(s, checks, 2), Ok, Up, 2)
  {
    var s := Configured(Ok, 2);
    var checks := [Check(Critical, Down), Check(Critical, Up)];
    assert checks[..1] == [Check(Critical, Down)] && checks[..0] == [] && checks[..1][..0] == [];
    assert Run(s, checks[..0], 2) == s;
    assert Run(s, checks[..1], 2) == Next(s, Critical, Down, 2);
    assert Run(s, checks, 2) == Next(Run(s, checks[..1], 2), Critical, Up, 2);
    assert !NotifiesAt(s, checks, 0, 2) && !NotifiesAt(s, checks, 1, 2);
  }

  /** After an OK result, the service is where it would be had it never had a problem. */
  lemma OkResets(s: Status, checks: seq<Check>, max: nat)
    requires checks != [] && checks[|checks| - 1].state == Ok
    ensures HardOk(Run(s, checks, max))
  {
  }

  /** Acknowledgements: a sticky one lasts as long as the problem, a normal one as long as the
      problem stays the same. */
  lemma {:induction false} AcknowledgementLasts(s: Status, checks: seq<Check>, max: nat)
    requires Episode(checks) && s.acknowledged
    ensures var r := Run(s, checks, max);
      && (s.acknowledgement == Sticky ==> r.acknowledged && r.acknowledgement == Sticky)
      && (s.acknowledgement == Normal ==>
            (r.acknowledged <==> forall i :: 0 <= i < |checks| ==> checks[i].state == s.state))
      && (s.acknowledgement == Normal && r.acknowledged ==> r.acknowledgement == Normal && r.state == s.state)
    decreases |checks|
  {
    if checks != [] {
      var n := |checks| - 1;
      var front := checks[..n];
      assert Episode(front);
      AcknowledgementLasts(s, front, max);
      assert forall i :: 0 <= i < n ==> front[i] == checks[i];
    }
  }
}
