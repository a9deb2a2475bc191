/** States of hosts and services, and the event and problem ids they share (base/checks.c). */
module CheckStates {

  datatype ServiceState = Ok | Warning | Critical | Unknown

  datatype HostState = Up | Down | Unreachable

  datatype StateType = Soft | Hard

  datatype Acknowledgement = NoAcknowledgement | Normal | Sticky

  /** What an acknowledgement becomes when a new state is recorded. */
  function AcknowledgementAfter(kind: Acknowledgement, changed: bool, recovered: bool): Acknowledgement {
    if recovered || (changed && kind == Normal) then NoAcknowledgement else kind
  }

  // ---------- what comes with an acknowledgement ----------

  /** A comment on an acknowledgement; it expires at its end time, unless that is 0. */
  datatype AckComment = AckComment(persistent: bool, endTime: int)

  /** What is kept of the acknowledgements of one host or service: the end time of the last one, 0 for
      none; when the expiry events in the event list that were scheduled for the object are due,
      first to last; the comments; and how many notifications were asked for. */
  datatype AckData = AckData(endTime: int, expiries: seq<int>, comments: seq<AckComment>, notices: nat)

  const NO_ACK_DATA := AckData(0, [], [], 0)

  /** A new expiry event goes behind those due no later. */
  function InsertExpiry(expiries: seq<int>, due: int): seq<int> {
    if expiries == [] || expiries[|expiries| - 1] <= due then expiries + [due]
    else InsertExpiry(expiries[..|expiries| - 1], due) + [expiries[|expiries| - 1]]
  }

  /** Comments go with their acknowledgement, but for persistent ones. */
  function Persistent(comments: seq<AckComment>): seq<AckComment> {
    if comments == [] then []
    else
      var last := comments[|comments| - 1];
      Persistent(comments[..|comments| - 1]) + if last.persistent then [last] else []
  }

  lemma {:induction false} InsertedExpiry(expiries: seq<int>, due: int)
    ensures multiset(InsertExpiry(expiries, due)) == multiset(expiries) + multiset{due}
    decreases |expiries|
  {
    if expiries != [] {
      var front, last := expiries[..|expiries| - 1], expiries[|expiries| - 1];
      InsertedExpiry(front, due);
      assert expiries == front + [last];
    }
  }

  /** Exactly the persistent comments stay, in their order. */
  lemma {:induction false} PersistentStay(a: seq<AckComment>, b: seq<AckComment>)
    ensures Persistent(a + b) == Persistent(a) + Persistent(b)
    ensures |a| == 1 ==> Persistent(a) == if a[0].persistent then a else []
    decreases |b|
  {
    if b == [] {
      assert a + b == a;
    } else {
      var n := |b| - 1;
      PersistentStay(a, b[..n]);
      assert (a + b)[..|a + b| - 1] == a + b[..n];
    }
  }

  function AckDataAcknowledged(d: AckData, notify: bool, persistent: bool, endTime: int, currentTime: int): AckData {
    var ends := if endTime > currentTime then endTime else 0;
    AckData(ends, if endTime > currentTime then InsertExpiry(d.expiries, endTime + 1) else d.expiries,
            d.comments + [AckComment(persistent, ends)], if notify then d.notices + 1 else d.notices)
  }

  /** What an acknowledgement brings: its end time if that is still to come, a comment, a notification if
      asked for, and an expiry event for the second after its end. */
  lemma AckDataIs(d: AckData, notify: bool, persistent: bool, endTime: int, currentTime: int)
    ensures var r := AckDataAcknowledged(d, notify, persistent, endTime, currentTime);
      && r.endTime == (if endTime > currentTime then endTime else 0)
      && r.comments == d.comments + [AckComment(persistent, r.endTime)]
      && r.notices == d.notices + (if notify then 1 else 0)
      && (endTime <= currentTime ==> r.expiries == d.expiries)
      && (endTime > currentTime ==> multiset(r.expiries) == multiset(d.expiries) + multiset{endTime + 1})
  {
    InsertedExpiry(d.expiries, endTime + 1);
  }

  /** An end time takes one expiry event of the object along, the first there is. */
  function AckDataRemoved(d: AckData): AckData {
    var expiries := if d.endTime != 0 && d.expiries != [] then d.expiries[1..] else d.expiries;
    AckData(0, expiries, Persistent(d.comments), d.notices)
  }

  /** A result ends a normal acknowledgement by a change of state, a sticky one by a recovery. */
  function AckDataNoted(d: AckData, kind: Acknowledgement, stateChange: bool, change: bool, recovered: bool): AckData {
    var ended := (kind == Normal && stateChange) || (kind == Sticky && recovered && change);
    if ended then d.(comments := Persistent(d.comments)) else d
  }

  // ---------- ids ----------

  /** The program-wide counters. */
  class Counters {
    var nextEventId: nat
    var nextProblemId: nat

    constructor (nextEventId: nat, nextProblemId: nat)
      ensures this.nextEventId == nextEventId && this.nextProblemId == nextProblemId
    {
      this.nextEventId, this.nextProblemId := nextEventId, nextProblemId;
    }
  }

  /** The ids of one host or service; 0 stands for none. */
  datatype Ids = Ids(currentEvent: nat, lastEvent: nat, currentProblem: nat, lastProblem: nat)

  /** The ids after a state change. */
  function IdsAfter(ids: Ids, nextEventId: nat, nextProblemId: nat, wasFine: bool, isFine: bool): Ids {
    var problem := if wasFine then nextProblemId else ids.currentProblem;
    if isFine then Ids(nextEventId, ids.currentEvent, 0, problem)
    else Ids(nextEventId, ids.currentEvent, problem, ids.lastProblem)
  }

  /** A change, if there is one, has been given its ids, and the counters have moved on. */
  twostate predicate IdsNoted(counters: Counters, before: Ids, after: Ids, changed: bool, wasFine: bool, isFine: bool)
    reads counters
  {
    && after == (if !changed then before
                 else IdsAfter(before, old(counters.nextEventId), old(counters.nextProblemId), wasFine, isFine))
    && counters.nextEventId == old(counters.nextEventId) + (if changed then 1 else 0)
    && counters.nextProblemId == old(counters.nextProblemId) + (if changed && wasFine then 1 else 0)
  }
}
