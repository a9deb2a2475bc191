/** Acknowledgements over whole runs of check results, user commands and expiry events, for services
    and hosts alike (base/checks.c, base/commands.c, base/events.c). */
module Acknowledgements {
  import opened CheckStates
  import ServiceChecks
  import HostChecks

  // ---------- the acknowledgement of one object ----------

  /** `S` are the states of a host or a service; `sticky` tells the type while acknowledged. */
  datatype Record<S> = Record(state: S, acknowledged: bool, sticky: bool, endTime: int, expiries: seq<int>)

  /** A result is observed, something else happens, or a command or an expiry event is handled. */
  datatype Step<S> =
    | Observe(state: S)
    | Pass
    | Acknowledge(sticky: bool, endTime: int, currentTime: int)
    | Remove
    | Expire

  /** Whether an acknowledgement given in state `state` outlives a result. */
  predicate Outlives<S(==)>(sticky: bool, state: S, result: S, fine: S) {
    if sticky then result != fine else result == state
  }

  function Removed<S>(r: Record<S>): Record<S> {
    var expiries := if r.endTime != 0 && r.expiries != [] then r.expiries[1..] else r.expiries;
    r.(acknowledged := false, endTime := 0, expiries := expiries)
  }

  function Apply<S(==)>(r: Record<S>, step: Step<S>, fine: S): Record<S> {
    match step
    case Observe(state) =>
      r.(state := state, acknowledged := r.acknowledged && Outlives(r.sticky, r.state, state, fine))
    case Pass => r
    case Acknowledge(sticky, endTime, currentTime) =>
      if r.state == fine then r
      else if endTime > currentTime then Record(r.state, true, sticky, endTime, InsertExpiry(r.expiries, endTime + 1))
      else Record(r.state, true, sticky, 0, r.expiries)
    case Remove => Removed(r)
    case Expire => if r.expiries == [] then r else Removed(r.(expiries := r.expiries[1..]))
  }

  function Run<S(==)>(r: Record<S>, steps: seq<Step<S>>, fine: S): Record<S> {
    if steps == [] then r else Apply(Run(r, steps[..|steps| - 1], fine), steps[|steps| - 1], fine)
  }

  // ---------- when an acknowledgement is in force ----------

  /** The `j`-th step leaves an acknowledgement given in state `state` alone; an expiry event can only
      be due when there is one. */
  predicate LeavesAlone<S(==)>(r: Record<S>, steps: seq<Step<S>>, j: nat, sticky: bool, state: S, fine: S)
    requires j < |steps|
  {
    match steps[j]
    case Observe(result) => Outlives(sticky, state, result, fine)
    case Pass => true
    case Acknowledge(_, _, _) => false
    case Remove => false
    case Expire => Run(r, steps[..j], fine).expiries == []
  }

  /** The `i`-th step acknowledges a problem, and nothing since has ended that. */
  predicate LastsFrom<S(==)>(r: Record<S>, steps: seq<Step<S>>, i: nat, fine: S)
    requires i < |steps|
  {
    var state := Run(r, steps[..i], fine).state;
    && steps[i].Acknowledge? && state != fine
    && forall j {:trigger steps[j]} :: i < j < |steps| ==> LeavesAlone(r, steps, j, steps[i].sticky, state, fine)
  }

  ghost predicate Lasts<S>(r: Record<S>, steps: seq<Step<S>>, fine: S) {
    exists i :: 0 <= i < |steps| && LastsFrom(r, steps, i, fine)
  }

  /** Only problems are acknowledged. */
  predicate Consistent<S(==)>(r: Record<S>, fine: S) {
    r.acknowledged ==> r.state != fine
  }

  lemma ApplyConsistent<S>(r: Record<S>, step: Step<S>, fine: S)
    requires Consistent(r, fine)
    ensures Consistent(Apply(r, step, fine), fine)
  {
  }

  lemma LeavesAlonePrefix<S>(r: Record<S>, steps: seq<Step<S>>, n: nat, j: nat, sticky: bool, state: S, fine: S)
    requires j < n <= |steps|
    ensures LeavesAlone(r, steps[..n], j, sticky, state, fine) == LeavesAlone(r, steps, j, sticky, state, fine)
  {
    assert steps[..n][..j] == steps[..j];
  }

  lemma LastsFromPrefix<S>(r: Record<S>, steps: seq<Step<S>>, i: nat, fine: S)
    requires i < |steps| - 1
    ensures var n := |steps| - 1;
      LastsFrom(r, steps, i, fine) <==>
        LastsFrom(r, steps[..n], i, fine)
          && LeavesAlone(r, steps, n, steps[i].sticky, Run(r, steps[..i], fine).state, fine)
  {
    var n := |steps| - 1;
    assert steps[..n][..i] == steps[..i];
    if steps[i].Acknowledge? {
      forall j | i < j < n
        ensures LeavesAlone(r, steps[..n], j, steps[i].sticky, Run(r, steps[..i], fine).state, fine)
             == LeavesAlone(r, steps, j, steps[i].sticky, Run(r, steps[..i], fine).state, fine)
      {
        LeavesAlonePrefix(r, steps, n, j, steps[i].sticky, Run(r, steps[..i], fine).state, fine);
      }
      assert forall j :: 0 <= j < n ==> steps[..n][j] == steps[j];
      assert LastsFrom(r, steps, i, fine) ==> forall j :: i < j < n ==>
        LeavesAlone(r, steps[..n], j, steps[i].sticky, Run(r, steps[..i], fine).state, fine);
    }
  }

  /** What has lasted shows in the record. */
  lemma {:induction false} LastingShows<S>(r: Record<S>, steps: seq<Step<S>>, i: nat, fine: S)
    requires i < |steps| && LastsFrom(r, steps, i, fine)
    ensures var e := Run(r, steps, fine);
      && e.acknowledged && e.state != fine && e.sticky == steps[i].sticky
      && (!steps[i].sticky ==> e.state == Run(r, steps[..i], fine).state)
    decreases |steps|
  {
    var n := |steps| - 1;
    if i < n {
      LastsFromPrefix(r, steps, i, fine);
      LastingShows(r, steps[..n], i, fine);
      assert steps[..n][..i] == steps[..i];
      assert LeavesAlone(r, steps, n, steps[i].sticky, Run(r, steps[..i], fine).state, fine);
    } else {
      assert steps[..i] == steps[..n];
    }
  }

  /** An acknowledgement is in force exactly when somebody acknowledged the problem and since then
      nobody has taken that back or done it again, no expiry event has come, and the problem has
      lasted: as some problem for a sticky acknowledgement, unchanged for a normal one. */
  lemma {:induction false} InForceExactly<S>(r: Record<S>, steps: seq<Step<S>>, fine: S)
    requires !r.acknowledged
    ensures Run(r, steps, fine).acknowledged <==> Lasts(r, steps, fine)
    ensures Consistent(Run(r, steps, fine), fine)
    decreases |steps|
  {
    if steps != [] {
      var n := |steps| - 1;
      InForceExactly(r, steps[..n], fine);
      ApplyConsistent(Run(r, steps[..n], fine), steps[n], fine);
      if i :| 0 <= i < |steps| && LastsFrom(r, steps, i, fine) {
        LastingShows(r, steps, i, fine);
      }
      if Run(r, steps, fine).acknowledged {
        if steps[n].Acknowledge? && Run(r, steps[..n], fine).state != fine {
          assert LastsFrom(r, steps, n, fine);
        } else {
          InForceGoesOn(r, steps, fine);
        }
      }
    }
  }

  lemma InForceGoesOn<S>(r: Record<S>, steps: seq<Step<S>>, fine: S)
    requires steps != [] && Run(r, steps, fine).acknowledged
    requires var n := |steps| - 1;
      && Consistent(Run(r, steps[..n], fine), fine) && Lasts(r, steps[..n], fine)
      && (steps[n].Acknowledge? ==> Run(r, steps[..n], fine).state == fine)
    ensures Lasts(r, steps, fine)
  {
    var n := |steps| - 1;
    var i :| 0 <= i < n && LastsFrom(r, steps[..n], i, fine);
    LastingShows(r, steps[..n], i, fine);
    assert steps[..n][..i] == steps[..i] && steps[..n][i] == steps[i];
    LastsFromPrefix(r, steps, i, fine);
  }

  // ---------- expiry ----------

  predicate Ordered(expiries: seq<int>) {
    forall i, j :: 0 <= i < j < |expiries| ==> expiries[i] <= expiries[j]
  }

  lemma {:induction false} InsertExpiryOrdered(expiries: seq<int>, due: int)
    requires Ordered(expiries)
    ensures Ordered(InsertExpiry(expiries, due))
    ensures multiset(InsertExpiry(expiries, due)) == multiset(expiries) + multiset{due}
    ensures InsertExpiry(expiries, due)[0] == if expiries == [] || due < expiries[0] then due else expiries[0]
    decreases |expiries|
  {
    if expiries != [] && expiries[|expiries| - 1] > due {
      var front, last := expiries[..|expiries| - 1], expiries[|expiries| - 1];
      assert expiries == front + [last];
      InsertExpiryOrdered(front, due);
      AllBefore(InsertExpiry(front, due), front, due, last);
    }
  }

  lemma AllBefore(r: seq<int>, front: seq<int>, due: int, last: int)
    requires Ordered(r) && multiset(r) == multiset(front) + multiset{due}
    requires due < last && forall k :: 0 <= k < |front| ==> front[k] <= last
    ensures Ordered(r + [last])
  {
    forall i | 0 <= i < |r| ensures r[i] <= last {
      assert r[i] in multiset(r);
      if r[i] != due {
        assert r[i] in multiset(front);
        var k :| 0 <= k < |front| && front[k] == r[i];
      }
    }
  }

  /** The expiry events of an object stay in order. */
  lemma {:induction false} RunOrdered<S>(r: Record<S>, steps: seq<Step<S>>, fine: S)
    requires Ordered(r.expiries)
    ensures Ordered(Run(r, steps, fine).expiries)
    decreases |steps|
  {
    if steps != [] {
      var n := |steps| - 1;
      RunOrdered(r, steps[..n], fine);
      var e := Run(r, steps[..n], fine);
      if steps[n].Acknowledge? {
        InsertExpiryOrdered(e.expiries, steps[n].endTime + 1);
      }
    }
  }

  /** Results and other events do not touch what is scheduled to expire. */
  lemma {:induction false} NothingExpires<S>(r: Record<S>, steps: seq<Step<S>>, fine: S)
    requires forall j :: 0 <= j < |steps| ==> steps[j].Observe? || steps[j].Pass?
    ensures Run(r, steps, fine).expiries == r.expiries && Run(r, steps, fine).endTime == r.endTime
    decreases |steps|
  {
    if steps != [] { NothingExpires(r, steps[..|steps| - 1], fine); }
  }

  /** An acknowledgement is given, and left alone until the next expiry event. With an end time, that
      event is due right after it exactly when no expiry event of the object was due before;
      otherwise the acknowledgement is taken away early. Without one, an event comes exactly when
      one was left from before. */
  lemma ExpiresInTimeExactly<S>(r: Record<S>, a: Step<S>, steps: seq<Step<S>>, fine: S)
    requires Ordered(r.expiries) && r.state != fine && a.Acknowledge?
    requires forall j :: 0 <= j < |steps| ==> steps[j].Observe? || steps[j].Pass?
    ensures var e := Run(Apply(r, a, fine), steps, fine);
      if a.endTime > a.currentTime then
        && e.expiries != [] && !Apply(e, Expire, fine).acknowledged
        && (e.expiries[0] == a.endTime + 1 <==> r.expiries == [] || r.expiries[0] > a.endTime)
        && (r.expiries != [] && r.expiries[0] <= a.endTime ==> e.expiries[0] <= a.endTime)
      else
        && (e.expiries == [] <==> r.expiries == [])
        && (e.expiries != [] ==> !Apply(e, Expire, fine).acknowledged)
  {
    InsertExpiryOrdered(r.expiries, a.endTime + 1);
    NothingExpires(Apply(r, a, fine), steps, fine);
  }

  /** An acknowledgement that was ended by a recovery leaves its expiry event behind: one until 100
      is followed by a recovery, a new problem and an acknowledgement until 200, and that is taken
      away at 101. */
  lemma ExpiryEventLeftBehind()
    ensures var r := Record(Critical, false, false, 0, []);
      var first: seq<Step<ServiceState>> := [Acknowledge(true, 100, 10), Observe(Ok), Observe(Critical)];
      var e := Run(Run(r, first, Ok), [Acknowledge(true, 200, 50)], Ok);
      && e.acknowledged && e.endTime == 200 && e.expiries == [101, 201]
      && !Apply(e, Expire, Ok).acknowledged
  {
    var r := Record(Critical, false, false, 0, []);
    var a, b: Step<ServiceState> := Acknowledge(true, 100, 10), Acknowledge(true, 200, 50);
    var first: seq<Step<ServiceState>> := [a, Observe(Ok), Observe(Critical)];
    assert first[..2] == [a, Observe(Ok)] && first[..2][..1] == [a] && [a][..0] == [] && [b][..0] == [];
    assert InsertExpiry([], 101) == [101];
    assert Run(r, [a], Ok) == Record(Critical, true, true, 100, [101]);
    assert Run(r, [a, Observe(Ok)], Ok) == Apply(Run(r, [a], Ok), Observe(Ok), Ok)
      == Record(Ok, false, true, 100, [101]);
    assert Run(r, first, Ok) == Record(Critical, false, true, 100, [101]);
    var e := Apply(Run(r, first, Ok), b, Ok);
    assert InsertExpiry([101], 201) == [101, 201];
  }

  // ---------- services ----------

  /** A service with what comes with its acknowledgements. */
  datatype ServiceSide = ServiceSide(status: ServiceChecks.Status, data: AckData)

  datatype Command =
    | AcknowledgeProblem(sticky: bool, notify: bool, persistent: bool, endTime: int, currentTime: int)
    | RemoveAcknowledgement
    | ExpireAcknowledgement

  datatype ServiceStep = CheckResult(state: ServiceState, route: HostState) | ServiceCommand(command: Command)

  function DataAfter(d: AckData, command: Command, fine: bool): AckData {
    match command
    case AcknowledgeProblem(_, notify, persistent, endTime, currentTime) =>
      if fine then d else AckDataAcknowledged(d, notify, persistent, endTime, currentTime)
    case RemoveAcknowledgement => AckDataRemoved(d)
    case ExpireAcknowledgement => if d.expiries == [] then d else AckDataRemoved(d.(expiries := d.expiries[1..]))
  }

  function ApplyToService(s: ServiceSide, step: ServiceStep, max: nat): ServiceSide {
    match step
    case CheckResult(state, route) =>
      ServiceSide(ServiceChecks.Next(s.status, state, route, max),
                  ServiceChecks.AckDataAfter(s.data, s.status, state, max))
    case ServiceCommand(c) =>
      ServiceSide(match c
                  case AcknowledgeProblem(sticky, _, _, _, _) => ServiceChecks.Acknowledged(s.status, sticky)
                  case RemoveAcknowledgement => ServiceChecks.Unacknowledged(s.status)
                  case ExpireAcknowledgement =>
                    if s.data.expiries == [] then s.status else ServiceChecks.Unacknowledged(s.status),
                  DataAfter(s.data, c, s.status.state == Ok))
  }

  function RunOfService(s: ServiceSide, steps: seq<ServiceStep>, max: nat): ServiceSide {
    if steps == [] then s else ApplyToService(RunOfService(s, steps[..|steps| - 1], max), steps[|steps| - 1], max)
  }

  function CommandStep<S>(c: Command): Step<S> {
    match c
    case AcknowledgeProblem(sticky, _, _, endTime, currentTime) => Acknowledge(sticky, endTime, currentTime)
    case RemoveAcknowledgement => Remove
    case ExpireAcknowledgement => Expire
  }

  function SeenInService(steps: seq<ServiceStep>): (r: seq<Step<ServiceState>>)
    ensures |r| == |steps|
  {
    if steps == [] then []
    else
      var last := steps[|steps| - 1];
      SeenInService(steps[..|steps| - 1])
        + [if last.CheckResult? then Observe(last.state) else CommandStep(last.command)]
  }

  /** The record shows the service. */
  predicate ShowsService(r: Record<ServiceState>, s: ServiceSide) {
    && r.state == s.status.state && r.acknowledged == s.status.acknowledged
    && r.endTime == s.data.endTime && r.expiries == s.data.expiries
    && (r.acknowledged ==> r.state != Ok && s.status.acknowledgement == if r.sticky then Sticky else Normal)
  }

  lemma ServiceStepShown(r: Record<ServiceState>, s: ServiceSide, step: ServiceStep, max: nat)
    requires ShowsService(r, s)
    ensures ShowsService(Apply(r, if step.CheckResult? then Observe(step.state) else CommandStep(step.command), Ok),
                         ApplyToService(s, step, max))
  {
  }

  lemma {:induction false} ServiceRunShown(r: Record<ServiceState>, s: ServiceSide, steps: seq<ServiceStep>, max: nat)
    requires ShowsService(r, s)
    ensures ShowsService(Run(r, SeenInService(steps), Ok), RunOfService(s, steps, max))
    decreases |steps|
  {
    if steps != [] {
      var n := |steps| - 1;
      ServiceRunShown(r, s, steps[..n], max);
      assert SeenInService(steps)[..n] == SeenInService(steps[..n]);
      ServiceStepShown(Run(r, SeenInService(steps[..n]), Ok), RunOfService(s, steps[..n], max), steps[n], max);
    }
  }

  /** From configuration on: a service is acknowledged exactly when an acknowledgement has lasted. */
  lemma ServiceInForceExactly(initialState: ServiceState, steps: seq<ServiceStep>, max: nat)
    ensures var s := RunOfService(ServiceSide(ServiceChecks.Configured(initialState, max), NO_ACK_DATA), steps, max);
      && (s.status.acknowledged <==> Lasts(Record(initialState, false, false, 0, []), SeenInService(steps), Ok))
      && (s.status.acknowledged ==> s.status.state != Ok)
  {
    var r := Record(initialState, false, false, 0, []);
    ServiceRunShown(r, ServiceSide(ServiceChecks.Configured(initialState, max), NO_ACK_DATA), steps, max);
    InForceExactly(r, SeenInService(steps), Ok);
  }

  // ---------- hosts ----------

  datatype HostSide = HostSide(status: HostChecks.Status, data: AckData)

  datatype HostStep = HostEvent(event: HostChecks.Event) | HostCommand(command: Command)

  function ApplyToHost(h: HostSide, step: HostStep, settings: HostChecks.Settings, max: nat): HostSide {
    match step
    case HostEvent(e) =>
      var status := HostChecks.Apply(h.status, e, settings, max);
      HostSide(status, if e.Launch? then h.data
                       else HostChecks.AckDataAfter(h.data, h.status, status.state, status.stateType, e.active,
                                                    settings, max))
    case HostCommand(c) =>
      HostSide(match c
               case AcknowledgeProblem(sticky, _, _, _, _) => HostChecks.Acknowledged(h.status, sticky)
               case RemoveAcknowledgement => HostChecks.Unacknowledged(h.status)
               case ExpireAcknowledgement =>
                 if h.data.expiries == [] then h.status else HostChecks.Unacknowledged(h.status),
               DataAfter(h.data, c, h.status.state == Up))
  }

  function RunOfHost(h: HostSide, steps: seq<HostStep>, settings: HostChecks.Settings, max: nat): HostSide {
    if steps == [] then h
    else ApplyToHost(RunOfHost(h, steps[..|steps| - 1], settings, max), steps[|steps| - 1], settings, max)
  }

  /** A result is observed as the state it leads to; the launch of a check is nothing to an acknowledgement. */
  function SeenAtHost(step: HostStep, settings: HostChecks.Settings): Step<HostState> {
    match step
    case HostEvent(Launch) => Pass
    case HostEvent(Result(newState, active, verdict)) =>
      Observe(HostChecks.NextState(newState, active, verdict, settings))
    case HostCommand(c) => CommandStep(c)
  }

  function SeenInHost(steps: seq<HostStep>, settings: HostChecks.Settings): (r: seq<Step<HostState>>)
    ensures |r| == |steps|
  {
    if steps == [] then [] else SeenInHost(steps[..|steps| - 1], settings) + [SeenAtHost(steps[|steps| - 1], settings)]
  }

  predicate ShowsHost(r: Record<HostState>, h: HostSide) {
    && r.state == h.status.state && r.acknowledged == h.status.acknowledged
    && r.endTime == h.data.endTime && r.expiries == h.data.expiries
    && (r.acknowledged ==> r.state != Up && h.status.acknowledgement == if r.sticky then Sticky else Normal)
  }

  lemma HostStepShown(r: Record<HostState>, h: HostSide, step: HostStep, settings: HostChecks.Settings, max: nat)
    requires ShowsHost(r, h)
    ensures ShowsHost(Apply(r, SeenAtHost(step, settings), Up), ApplyToHost(h, step, settings, max))
  {
  }

  lemma {:induction false} HostRunShown(r: Record<HostState>, h: HostSide, steps: seq<HostStep>,
                                        settings: HostChecks.Settings, max: nat)
    requires ShowsHost(r, h)
    ensures ShowsHost(Run(r, SeenInHost(steps, settings), Up), RunOfHost(h, steps, settings, max))
    decreases |steps|
  {
    if steps != [] {
      var n := |steps| - 1;
      HostRunShown(r, h, steps[..n], settings, max);
      assert SeenInHost(steps, settings)[..n] == SeenInHost(steps[..n], settings);
      HostStepShown(Run(r, SeenInHost(steps[..n], settings), Up), RunOfHost(h, steps[..n], settings, max), steps[n],
                    settings, max);
    }
  }

  /** The same for a host, over launches, results of any kind and commands in any order. */
  lemma HostInForceExactly(initialState: HostState, steps: seq<HostStep>, settings: HostChecks.Settings, max: nat)
    ensures var h := RunOfHost(HostSide(HostChecks.Configured(initialState, max), NO_ACK_DATA), steps, settings, max);
      && (h.status.acknowledged <==> Lasts(Record(initialState, false, false, 0, []), SeenInHost(steps, settings), Up))
      && (h.status.acknowledged ==> h.status.state != Up)
  {
    var r := Record(initialState, false, false, 0, []);
    HostRunShown(r, HostSide(HostChecks.Configured(initialState, max), NO_ACK_DATA), steps, settings, max);
    InForceExactly(r, SeenInHost(steps, settings), Up);
  }
}
