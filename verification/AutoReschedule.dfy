/** Automatic re-spreading of the checks due soon (`adjust_check_scheduling`, base/events.c).
    Doubles are modelled by reals, casts to integers truncate toward zero. */
module AutoReschedule {
  import opened Common
  import opened Timeline
  import opened EventQueue
  import opened CheckScheduling

  // ---------- the computation, on values ----------

  datatype SlotKind = HostSlot(executionTime: real) | ServiceSlot | OtherSlot

  /** What the computation looks at in an event. */
  datatype Slot = Slot(runTime: int, kind: SlotKind, forced: bool)

  const OVERHEAD := 0.1  // projected overhead of a check, in seconds

  function Trunc(x: real): int {
    if x >= 0.0 then x.Floor else -((-x).Floor)
  }

  predicate InWindow(s: Slot, now: int, window: nat) {
    now < s.runTime <= now + window
  }

  /** The checks the window is spread over. */
  predicate Picked(s: Slot, now: int, window: nat) {
    InWindow(s, now, window) && !s.kind.OtherSlot? && !s.forced
  }

  /** Both passes stop at the first event behind the window. */
  function Cut(slots: seq<Slot>, now: int, window: nat): (c: nat)
    ensures c <= |slots|
    ensures forall i :: 0 <= i < c ==> slots[i].runTime <= now + window
    ensures c < |slots| ==> slots[c].runTime > now + window
  {
    if slots == [] || slots[0].runTime > now + window then 0
    else 1 + Cut(slots[1..], now, window)
  }

  predicate PickedAt(slots: seq<Slot>, i: int, now: int, window: nat) {
    0 <= i < Cut(slots, now, window) && Picked(slots[i], now, window)
  }

  /** How many of the first `n` events are picked. */
  function Count(slots: seq<Slot>, n: nat, now: int, window: nat): (c: nat)
    requires n <= |slots|
    ensures c <= n
  {
    if n == 0 then 0
    else Count(slots, n - 1, now, window) + if PickedAt(slots, n - 1, now, window) then 1 else 0
  }

  /** The run time of the last picked event among the first `n`, 0 before there is one. */
  function LastPicked(slots: seq<Slot>, n: nat, now: int, window: nat): int
    requires n <= |slots|
  {
    if n == 0 then 0
    else if PickedAt(slots, n - 1, now, window) then slots[n - 1].runTime
    else LastPicked(slots, n - 1, now, window)
  }

  /** Whether some picked check "bumps" into the one picked before it, among the first `n`. */
  predicate Bumps(slots: seq<Slot>, n: nat, now: int, window: nat)
    requires n <= |slots|
  {
    n > 0 &&
    (Bumps(slots, n - 1, now, window) ||
     (PickedAt(slots, n - 1, now, window) && LastPicked(slots, n - 1, now, window) > slots[n - 1].runTime))
  }

  /** The expected cost of running all picked checks. */
  function TotalExec(slots: seq<Slot>, now: int, window: nat): real {
    OVERHEAD * Count(slots, |slots|, now, window) as real
  }

  predicate Overfull(slots: seq<Slot>, now: int, window: nat) {
    Trunc(TotalExec(slots, now, window)) > window
  }

  /** The gap left between two checks. */
  function Delay(slots: seq<Slot>, now: int, window: nat): real {
    var n := Count(slots, |slots|, now, window);
    if n == 0 || Overfull(slots, now, window) then 0.0
    else (window as real - TotalExec(slots, now, window)) / n as real
  }

  /** The factor execution times are squeezed by. */
  function Factor(slots: seq<Slot>, now: int, window: nat): real {
    if Overfull(slots, now, window) then
      OverfullIsPositive(slots, now, window);
      window as real / TotalExec(slots, now, window)
    else 1.0
  }

  lemma OverfullIsPositive(slots: seq<Slot>, now: int, window: nat)
    requires Overfull(slots, now, window)
    ensures TotalExec(slots, now, window) > 0.0
  {
  }

  function ExecTime(s: Slot): real {
    match s.kind { case HostSlot(t) => t + OVERHEAD case _ => OVERHEAD }
  }

  /** How far into the window the `n`-th event of the list would go. */
  function Offset(slots: seq<Slot>, n: nat, now: int, window: nat): real
    requires n <= |slots|
  {
    if n == 0 then Delay(slots, now, window) / 2.0
    else if PickedAt(slots, n - 1, now, window) then
      Offset(slots, n - 1, now, window) + ExecTime(slots[n - 1]) * Factor(slots, now, window)
        + Delay(slots, now, window)
    else Offset(slots, n - 1, now, window)
  }

  predicate Adjusts(slots: seq<Slot>, now: int, window: nat) {
    Bumps(slots, |slots|, now, window)
  }

  /** The new run time of the `i`-th event. */
  function NewRunTime(slots: seq<Slot>, i: nat, now: int, window: nat): int
    requires i < |slots|
  {
    if Adjusts(slots, now, window) && PickedAt(slots, i, now, window)
    then now + Trunc(Offset(slots, i, now, window))
    else slots[i].runTime
  }

  // ---------- what it comes to ----------

  /** Picked are the checks in the window that are not forced, as far as no event of the list before
      them lies behind the window. */
  lemma PickedExactly(slots: seq<Slot>, i: nat, now: int, window: nat)
    requires i < |slots|
    ensures PickedAt(slots, i, now, window) <==>
      && now < slots[i].runTime && (slots[i].kind.HostSlot? || slots[i].kind.ServiceSlot?) && !slots[i].forced
      && forall j :: 0 <= j <= i ==> slots[j].runTime <= now + window
  {
  }

  /** The checks are adjusted exactly when some picked check is due before one that is picked earlier. */
  lemma BumpsExactly(slots: seq<Slot>, n: nat, now: int, window: nat)
    requires now >= 0 && n <= |slots|
    ensures Bumps(slots, n, now, window) <==>
      exists i, j :: 0 <= i < j < n && PickedAt(slots, i, now, window) && PickedAt(slots, j, now, window)
        && slots[i].runTime > slots[j].runTime
  {
    if Bumps(slots, n, now, window) {
      var i, j := BumpingPair(slots, n, now, window);
    } else {
      forall i, j | 0 <= i < j < n && PickedAt(slots, i, now, window) && PickedAt(slots, j, now, window)
        ensures slots[i].runTime <= slots[j].runTime
      {
        PickedInOrder(slots, i, j, n, now, window);
      }
    }
  }

  lemma {:induction false} BumpingPair(slots: seq<Slot>, n: nat, now: int, window: nat) returns (i: nat, j: nat)
    requires now >= 0 && n <= |slots| && Bumps(slots, n, now, window)
    ensures i < j < n && PickedAt(slots, i, now, window) && PickedAt(slots, j, now, window)
    ensures slots[i].runTime > slots[j].runTime
    decreases n
  {
    if Bumps(slots, n - 1, now, window) {
      i, j := BumpingPair(slots, n - 1, now, window);
    } else {
      j := n - 1;
      i := LastPickedIs(slots, j, now, window);
    }
  }

  lemma {:induction false} LastPickedIs(slots: seq<Slot>, n: nat, now: int, window: nat) returns (i: nat)
    requires n <= |slots| && LastPicked(slots, n, now, window) != 0
    ensures i < n && PickedAt(slots, i, now, window) && LastPicked(slots, n, now, window) == slots[i].runTime
    decreases n
  {
    if PickedAt(slots, n - 1, now, window) { i := n - 1; } else { i := LastPickedIs(slots, n - 1, now, window); }
  }

  /** Without a bump the picked checks are in order. */
  lemma {:induction false} PickedInOrder(slots: seq<Slot>, i: nat, j: nat, n: nat, now: int, window: nat)
    requires i < j < n <= |slots| && !Bumps(slots, n, now, window) && PickedAt(slots, i, now, window)
    ensures slots[i].runTime <= LastPicked(slots, j, now, window)
    ensures PickedAt(slots, j, now, window) ==> slots[i].runTime <= slots[j].runTime
    decreases j
  {
    hide PickedAt;
    NoBumpBefore(slots, j + 1, n, now, window);
    if i < j - 1 { PickedInOrder(slots, i, j - 1, n, now, window); }
  }

  lemma {:induction false} NoBumpBefore(slots: seq<Slot>, m: nat, n: nat, now: int, window: nat)
    requires m <= n <= |slots| && !Bumps(slots, n, now, window)
    ensures !Bumps(slots, m, now, window)
    decreases n
  {
    if m < n { NoBumpBefore(slots, m, n - 1, now, window); }
  }

  lemma {:induction false} CountExactly(slots: seq<Slot>, n: nat, now: int, window: nat)
    requires n <= |slots|
    ensures Count(slots, n, now, window) == |set i | 0 <= i < n && PickedAt(slots, i, now, window)|
    decreases n
  {
    hide PickedAt;
    if n > 0 {
      CountExactly(slots, n - 1, now, window);
      var picked := set i | 0 <= i < n - 1 && PickedAt(slots, i, now, window);
      assert (set i | 0 <= i < n && PickedAt(slots, i, now, window)) ==
        if PickedAt(slots, n - 1, now, window) then picked + {n - 1} else picked;
    }
  }

  /** A check takes a tenth of a second. When that makes more than the window, rounded down, there is no
      gap and the checks are squeezed into it; otherwise the gaps fill what the checks leave of it. */
  lemma GapOrSqueeze(slots: seq<Slot>, now: int, window: nat)
    requires Count(slots, |slots|, now, window) > 0
    ensures var n := Count(slots, |slots|, now, window);
      var gap, factor := Delay(slots, now, window), Factor(slots, now, window);
      if n >= 10 * (window + 1) then gap == 0.0 && factor * n as real == 10.0 * window as real
      else factor == 1.0 && gap * n as real + n as real / 10.0 == window as real
  {
    hide Count;
    var n := Count(slots, |slots|, now, window);
    var total := n as real / 10.0;
    assert TotalExec(slots, now, window) == total;
    assert Overfull(slots, now, window) <==> n >= 10 * (window + 1) by {
      assert total.Floor > window <==> total >= (window + 1) as real;
    }
    if Overfull(slots, now, window) {
      QuotientTimes(window as real, total);
    } else {
      QuotientTimes(window as real - total, n as real);
    }
  }

  lemma QuotientTimes(a: real, b: real)
    requires b > 0.0
    ensures (a / b) * b == a
  {
  }

  ghost predicate Ordered(slots: seq<Slot>) {
    forall i, j :: 0 <= i < j < |slots| ==> slots[i].runTime <= slots[j].runTime
  }

  /** On a queue that is in order no check ever bumps into the one before it, so nothing is moved. */
  lemma {:induction false} OrderedNeverBumps(slots: seq<Slot>, n: nat, now: int, window: nat)
    requires Ordered(slots) && now >= 0 && n <= |slots|
    ensures !Bumps(slots, n, now, window)
    ensures forall j :: n <= j < |slots| && PickedAt(slots, j, now, window) ==>
      LastPicked(slots, n, now, window) <= slots[j].runTime
    decreases n
  {
    if n > 0 {
      OrderedNeverBumps(slots, n - 1, now, window);
    }
  }

  /** The gap, plus the least a picked check takes, is never negative: it is `window / n`. */
  lemma StepNotNegative(slots: seq<Slot>, i: nat, now: int, window: nat)
    requires i < |slots| && PickedAt(slots, i, now, window)
    requires slots[i].kind.HostSlot? ==> slots[i].kind.executionTime >= 0.0
    ensures ExecTime(slots[i]) * Factor(slots, now, window) + Delay(slots, now, window) >= 0.0
  {
    CountMonotone(slots, i + 1, |slots|, now, window);
    var n := Count(slots, |slots|, now, window);
    var total := TotalExec(slots, now, window);
    if Overfull(slots, now, window) {
      OverfullIsPositive(slots, now, window);
      ProductNotNegative(ExecTime(slots[i]), window as real / total);
    } else {
      GapPlusOverhead(n, window);
    }
  }

  lemma ProductNotNegative(a: real, b: real)
    requires a >= 0.0 && b >= 0.0
    ensures a * b >= 0.0
  {
  }

  lemma GapPlusOverhead(n: nat, window: nat)
    requires n > 0
    ensures OVERHEAD + (window as real - OVERHEAD * n as real) / n as real == window as real / n as real
  {
    var x := n as real;
    assert (window as real - OVERHEAD * x) / x == window as real / x - OVERHEAD * x / x;
  }

  lemma {:induction false} CountMonotone(slots: seq<Slot>, m: nat, n: nat, now: int, window: nat)
    requires m <= n <= |slots|
    ensures Count(slots, m, now, window) <= Count(slots, n, now, window)
    decreases n - m
  {
    if m < n { CountMonotone(slots, m, n - 1, now, window); }
  }

  ghost predicate ExecTimesKnown(slots: seq<Slot>) {
    forall i :: 0 <= i < |slots| && slots[i].kind.HostSlot? ==> slots[i].kind.executionTime >= 0.0
  }

  lemma {:induction false} OffsetMonotone(slots: seq<Slot>, m: nat, n: nat, now: int, window: nat)
    requires ExecTimesKnown(slots) && m <= n <= |slots|
    ensures Offset(slots, m, now, window) <= Offset(slots, n, now, window)
    decreases n - m
  {
    hide Factor, Cut;
    if m < n {
      OffsetMonotone(slots, m, n - 1, now, window);
      if PickedAt(slots, n - 1, now, window) {
        StepNotNegative(slots, n - 1, now, window);
      }
    }
  }

  lemma TruncMonotone(x: real, y: real)
    requires x <= y
    ensures Trunc(x) <= Trunc(y)
  {
  }

  /** The first offset may be negative, but never by a whole second: the cast makes it zero. */
  lemma DelayAboveMinusOne(slots: seq<Slot>, now: int, window: nat)
    ensures Delay(slots, now, window) > -1.0
  {
    var n := Count(slots, |slots|, now, window);
    if n > 0 && !Overfull(slots, now, window) {
      var total := TotalExec(slots, now, window);
      assert total < window as real + 1.0;
      QuotientAboveMinusOne(window as real - total, n as real);
    }
  }

  lemma QuotientAboveMinusOne(a: real, n: real)
    requires a > -1.0 && n >= 1.0
    ensures a / n > -1.0
  {
    var q := a / n;
    assert q * n == a;
    if q < 0.0 { ProductMonotone(1.0, n, -q); }
  }

  /** New run times keep the queue order of the picked checks and are never in the past. */
  lemma NewRunTimesOrdered(slots: seq<Slot>, i: nat, j: nat, now: int, window: nat)
    requires ExecTimesKnown(slots) && Adjusts(slots, now, window)
    requires i <= j < |slots| && PickedAt(slots, i, now, window) && PickedAt(slots, j, now, window)
    ensures now <= NewRunTime(slots, i, now, window) <= NewRunTime(slots, j, now, window)
  {
    DelayAboveMinusOne(slots, now, window);
    OffsetMonotone(slots, 0, i, now, window);
    OffsetMonotone(slots, i, j, now, window);
    TruncMonotone(Offset(slots, i, now, window), Offset(slots, j, now, window));
  }

  lemma ProductMonotone(a: real, b: real, s: real)
    requires a <= b && s >= 0.0
    ensures a * s <= b * s
  {
  }

  /** The squeezed execution times of the host checks picked among the first `n` events. They are
      no part of the budget, but move what comes behind. */
  function HostTime(slots: seq<Slot>, n: nat, now: int, window: nat): real
    requires n <= |slots|
  {
    if n == 0 then 0.0
    else
      var before := HostTime(slots, n - 1, now, window);
      if PickedAt(slots, n - 1, now, window) && slots[n - 1].kind.HostSlot?
      then before + slots[n - 1].kind.executionTime * Factor(slots, now, window)
      else before
  }

  /** A check that is moved goes no further behind the window than the execution times of the host
      checks picked before it. */
  lemma StaysNearWindow(slots: seq<Slot>, i: nat, now: int, window: nat)
    requires ExecTimesKnown(slots)
    requires i < |slots| && PickedAt(slots, i, now, window)
    ensures HostTime(slots, i, now, window) >= 0.0
    ensures Adjusts(slots, now, window) ==>
      now <= NewRunTime(slots, i, now, window) <= now + window + HostTime(slots, i, now, window).Floor
  {
    hide Delay, Factor, Overfull, TotalExec, Offset, Cut, HostTime, Adjusts;
    CountMonotone(slots, i + 1, |slots|, now, window);
    var n, c := Count(slots, |slots|, now, window), Count(slots, i, now, window);
    assert c + 1 <= n;
    ServiceStep(slots, now, window);
    OffsetSplit(slots, i, now, window, window as real / n as real);
    HostTimeNotNegative(slots, i, now, window);
    DelayAboveMinusOne(slots, now, window);
    DelayAtMostStep(slots, now, window);
    var x, extra := Offset(slots, i, now, window), HostTime(slots, i, now, window);
    OffsetFits(x - extra, Delay(slots, now, window), c, n, window);
    TruncFits(x, window, extra);
  }

  lemma TruncFits(x: real, window: nat, extra: real)
    requires extra >= 0.0 && -1.0 < x - extra <= window as real
    ensures 0 <= Trunc(x) <= window + extra.Floor
  {
  }

  lemma {:induction false} HostTimeNotNegative(slots: seq<Slot>, i: nat, now: int, window: nat)
    requires ExecTimesKnown(slots) && i <= |slots|
    ensures HostTime(slots, i, now, window) >= 0.0
    decreases i
  {
    hide Cut, Factor;
    if i > 0 {
      HostTimeNotNegative(slots, i - 1, now, window);
      FactorNotNegative(slots, now, window);
      if slots[i - 1].kind.HostSlot? {
        ProductNotNegative(slots[i - 1].kind.executionTime, Factor(slots, now, window));
      }
    }
  }

  lemma FactorNotNegative(slots: seq<Slot>, now: int, window: nat)
    ensures Factor(slots, now, window) >= 0.0
  {
    if Overfull(slots, now, window) {
      OverfullIsPositive(slots, now, window);
    }
  }

  lemma {:induction false} NoHostTime(slots: seq<Slot>, i: nat, now: int, window: nat)
    requires forall j :: 0 <= j < |slots| && PickedAt(slots, j, now, window) ==> slots[j].kind.ServiceSlot?
    requires i <= |slots|
    ensures HostTime(slots, i, now, window) == 0.0
    decreases i
  {
    if i > 0 { NoHostTime(slots, i - 1, now, window); }
  }

  /** When only service checks are picked, they stay within the window. */
  lemma ServicesStayInWindow(slots: seq<Slot>, i: nat, now: int, window: nat)
    requires forall j :: 0 <= j < |slots| && PickedAt(slots, j, now, window) ==> slots[j].kind.ServiceSlot?
    requires i < |slots| && PickedAt(slots, i, now, window)
    ensures now <= NewRunTime(slots, i, now, window) <= now + window
  {
    hide Delay, Factor, Overfull, TotalExec, Offset, Cut, HostTime, Adjusts;
    CountMonotone(slots, i + 1, |slots|, now, window);
    var n, c := Count(slots, |slots|, now, window), Count(slots, i, now, window);
    assert c + 1 <= n;
    ServiceStep(slots, now, window);
    OffsetSplit(slots, i, now, window, window as real / n as real);
    NoHostTime(slots, i, now, window);
    DelayAboveMinusOne(slots, now, window);
    DelayAtMostStep(slots, now, window);
    OffsetFits(Offset(slots, i, now, window), Delay(slots, now, window), c, n, window);
    TruncFits(Offset(slots, i, now, window), window, 0.0);
  }

  lemma OffsetFits(x: real, d: real, c: nat, n: nat, window: nat)
    requires c + 1 <= n
    requires var step := window as real / n as real; x == d / 2.0 + c as real * step && -1.0 < d <= step
    ensures -1.0 < x <= window as real
  {
    SlotsFit(c, n, window);
  }

  lemma DelayAtMostStep(slots: seq<Slot>, now: int, window: nat)
    requires Count(slots, |slots|, now, window) > 0
    ensures Delay(slots, now, window) <= window as real / Count(slots, |slots|, now, window) as real
  {
    var n := Count(slots, |slots|, now, window);
    if Overfull(slots, now, window) { SlotsFit(0, n, window); } else { GapPlusOverhead(n, window); }
  }

  lemma SlotsFit(c: nat, n: nat, window: nat)
    requires c + 1 <= n
    ensures var step := window as real / n as real;
      step >= 0.0 && c as real * step >= 0.0 && c as real * step + step <= window as real
  {
    var step := window as real / n as real;
    assert step * n as real == window as real;
    ProductMonotone(c as real + 1.0, n as real, step);
    ProductMonotone(0.0, c as real, step);
  }

  lemma AddStep(c: nat, step: real)
    ensures (c + 1) as real * step == c as real * step + step
  {
    assert (c + 1) as real == c as real + 1.0;
  }

  /** Where a check goes: so many equal steps into the window, and the time of the hosts. */
  lemma {:induction false} OffsetSplit(slots: seq<Slot>, i: nat, now: int, window: nat, step: real)
    requires i <= |slots| && step == OVERHEAD * Factor(slots, now, window) + Delay(slots, now, window)
    ensures Offset(slots, i, now, window) ==
      Delay(slots, now, window) / 2.0 + Count(slots, i, now, window) as real * step + HostTime(slots, i, now, window)
    decreases i
  {
    hide Factor, Delay, Cut;
    if i > 0 {
      OffsetSplit(slots, i - 1, now, window, step);
      AddStep(Count(slots, i - 1, now, window), step);
      if PickedAt(slots, i - 1, now, window) && slots[i - 1].kind.HostSlot? {
        SplitProduct(slots[i - 1].kind.executionTime, Factor(slots, now, window));
      }
    }
  }

  lemma SplitProduct(t: real, f: real)
    ensures (t + OVERHEAD) * f == t * f + OVERHEAD * f
  {
  }

  /** Between two service checks there is exactly the n-th part of the window. */
  lemma ServiceStep(slots: seq<Slot>, now: int, window: nat)
    requires Count(slots, |slots|, now, window) > 0
    ensures OVERHEAD * Factor(slots, now, window) + Delay(slots, now, window) ==
      window as real / Count(slots, |slots|, now, window) as real
  {
    var n := Count(slots, |slots|, now, window);
    if Overfull(slots, now, window) {
      OverfullIsPositive(slots, now, window);
      SqueezedStep(n as real, window as real);
    } else {
      GapPlusOverhead(n, window);
    }
  }

  lemma SqueezedStep(n: real, w: real)
    requires n > 0.0
    ensures OVERHEAD * n > 0.0 && OVERHEAD * (w / (OVERHEAD * n)) == w / n
  {
    var total := OVERHEAD * n;
    var q := w / total;
    assert q * total == w;
    assert (OVERHEAD * q) * n == w;
    assert (OVERHEAD * q) * n / n == OVERHEAD * q;
  }

  lemma CutIs(slots: seq<Slot>, i: nat, now: int, window: nat)
    requires i <= |slots| && forall j :: 0 <= j < i ==> slots[j].runTime <= now + window
    ensures i <= Cut(slots, now, window)
    ensures i == |slots| || slots[i].runTime > now + window ==> Cut(slots, now, window) == i
  {
  }

  /** Behind the cut nothing is counted any more. */
  lemma {:induction false} NothingBehindCut(slots: seq<Slot>, i: nat, n: nat, now: int, window: nat)
    requires Cut(slots, now, window) <= i <= n <= |slots|
    ensures Count(slots, n, now, window) == Count(slots, i, now, window)
    ensures Bumps(slots, n, now, window) == Bumps(slots, i, now, window)
    decreases n
  {
    if i < n { NothingBehindCut(slots, i, n - 1, now, window); }
  }

  // ---------- the two passes ----------

  function SlotOf(e: TimedEvent): Slot
    requires !e.eventType.OtherEvent? ==> e.eventData != null
    reads e`runTime
    reads (if e.eventType.OtherEvent? || e.eventData == null then {} else {e.eventData})`checkOptions
    reads (if e.eventType.OtherEvent? || e.eventData == null then {} else {e.eventData})`executionTime
  {
    match e.eventType {
      case HostCheckEvent => Slot(e.runTime, HostSlot(e.eventData.executionTime),
                                  e.eventData.checkOptions.forceExecution)
      case ServiceCheckEvent => Slot(e.runTime, ServiceSlot, e.eventData.checkOptions.forceExecution)
      case OtherEvent(_) => Slot(e.runTime, OtherSlot, false)
    }
  }

  /** The queue as the computation sees it. */
  ghost predicate Sees(s: seq<TimedEvent>, slots: seq<Slot>, targets: set<CheckTarget>)
    reads s`runTime, targets`checkOptions, targets`executionTime
  {
    && |s| == |slots|
    && forall i {:trigger s[i]} {:trigger slots[i]} :: 0 <= i < |s| ==>
      && (!s[i].eventType.OtherEvent? ==> s[i].eventData != null && s[i].eventData in targets)
      && SlotOf(s[i]) == slots[i]
  }

  /** First pass: how many checks are picked, what they cost, and whether any two bump. */
  method Survey(list: EventList, now: int, window: nat, ghost slots: seq<Slot>, ghost targets: set<CheckTarget>)
      returns (totalChecks: nat, totalExecTime: real, adjustScheduling: bool)
    requires list.Valid() && Sees(list.events, slots, targets)
    requires now >= 0
    ensures totalChecks == Count(slots, |slots|, now, window)
    ensures totalExecTime == TotalExec(slots, now, window) && totalExecTime * 10.0 == totalChecks as real
    ensures adjustScheduling == Adjusts(slots, now, window)
  {
    totalChecks, totalExecTime, adjustScheduling := 0, 0.0, false;
    var lastCheckTime, lastCheckExecTime := 0, 0.0;
    var tempEvent := list.head;
    ghost var i := 0;
    while tempEvent != null
      invariant 0 <= i <= |slots| && tempEvent == (if i < |slots| then list.events[i] else null)
      invariant forall j :: 0 <= j < i ==> slots[j].runTime <= now + window
      invariant totalChecks == Count(slots, i, now, window)
      invariant totalExecTime == OVERHEAD * totalChecks as real
      invariant lastCheckTime == LastPicked(slots, i, now, window) >= 0
        && (lastCheckExecTime == 0.0 || lastCheckExecTime == OVERHEAD)
      invariant adjustScheduling == Bumps(slots, i, now, window)
      decreases |slots| - i
    {
      assert SlotOf(list.events[i]) == slots[i];
      CutIs(slots, i, now, window);
      if tempEvent.runTime > now + window {
        break;
      }
      CutIs(slots, i + 1, now, window);
      if now < tempEvent.runTime && !tempEvent.eventType.OtherEvent?
        && !tempEvent.eventData.checkOptions.forceExecution {
        if Trunc(lastCheckTime as real + lastCheckExecTime) > tempEvent.runTime {
          adjustScheduling := true;
        }
        lastCheckTime := tempEvent.runTime;
        lastCheckExecTime := OVERHEAD;
        AddStep(totalChecks, OVERHEAD);
        totalExecTime := totalExecTime + lastCheckExecTime;
        totalChecks := totalChecks + 1;
      }
      tempEvent := tempEvent.next;
      i := i + 1;
    }
    CutIs(slots, i, now, window);
    NothingBehindCut(slots, i, |slots|, now, window);
  }

  /** The run times once the second pass has dealt with the first `n` events. */
  ghost function Moved(slots: seq<Slot>, n: nat, now: int, window: nat): seq<int>
    requires n <= |slots|
  {
    seq(|slots|, j requires 0 <= j < |slots| => if j < n then NewRunTime(slots, j, now, window) else slots[j].runTime)
  }

  ghost predicate RunTimesAre(s: seq<TimedEvent>, times: seq<int>)
    reads s`runTime
  {
    && |s| == |times|
    && forall j {:trigger s[j].runTime} {:trigger times[j]} :: 0 <= j < |s| ==> s[j].runTime == times[j]
  }

  ghost function NextChecks(targets: set<CheckTarget>): (m: map<CheckTarget, int>)
    reads targets`nextCheck
    ensures m.Keys == targets
  {
    map target | target in targets :: target.nextCheck
  }

  /** The next check times once the objects of the first `n` events have been told. */
  ghost function Told(m: map<CheckTarget, int>, s: seq<TimedEvent>, slots: seq<Slot>, n: nat, now: int,
                      window: nat): map<CheckTarget, int>
    requires |s| == |slots| && n <= |s|
  {
    if n == 0 then m
    else
      var m' := Told(m, s, slots, n - 1, now, window);
      if PickedAt(slots, n - 1, now, window) && s[n - 1].eventData != null
      then m'[s[n - 1].eventData := NewRunTime(slots, n - 1, now, window)] else m'
  }

  /** No object has two checks in the queue. */
  ghost predicate OneCheckEach(s: seq<TimedEvent>) {
    forall i, j :: 0 <= i < j < |s| && !s[i].eventType.OtherEvent? && !s[j].eventType.OtherEvent? ==>
      s[i].eventData != s[j].eventData
  }

  lemma IndexedIsOneCheckEach(s: seq<TimedEvent>, targets: set<CheckTarget>, idx: map<CheckTarget, TimedEvent?>)
    requires Distinct<TimedEvent>(s) && Owned(Elements(s), targets) && Indexed(Elements(s), idx) && idx.Keys == targets
    ensures OneCheckEach(s)
  {
    forall i, j | 0 <= i < j < |s| && !s[i].eventType.OtherEvent? && !s[j].eventType.OtherEvent?
      ensures s[i].eventData != s[j].eventData
    {
      assert s[i] in Elements(s) && s[j] in Elements(s);
    }
  }

  /** So every object with a picked check ends up knowing the new time of just that check. */
  lemma {:induction false} ToldTheirOwn(m: map<CheckTarget, int>, s: seq<TimedEvent>, slots: seq<Slot>, n: nat, i: nat,
                                        now: int, window: nat)
    requires |s| == |slots| && i < n <= |s| && OneCheckEach(s) && PickedAt(slots, i, now, window)
    requires forall j :: 0 <= j < |s| && PickedAt(slots, j, now, window) ==>
      !s[j].eventType.OtherEvent? && s[j].eventData != null
    ensures s[i].eventData in Told(m, s, slots, n, now, window)
    ensures Told(m, s, slots, n, now, window)[s[i].eventData] == NewRunTime(slots, i, now, window)
    decreases n
  {
    hide NewRunTime, PickedAt;
    if i < n - 1 {
      ToldTheirOwn(m, s, slots, n - 1, i, now, window);
    }
  }

  /** Everything but the run times, which the second pass overwrites as it goes. */
  ghost predicate SeesRest(s: seq<TimedEvent>, slots: seq<Slot>, targets: set<CheckTarget>)
    reads targets`checkOptions, targets`executionTime
  {
    && |s| == |slots|
    && forall i {:trigger s[i]} {:trigger slots[i]} :: 0 <= i < |s| ==>
      match s[i].eventType
      case HostCheckEvent => s[i].eventData != null && s[i].eventData in targets &&
        slots[i].kind == HostSlot(s[i].eventData.executionTime)
          && slots[i].forced == s[i].eventData.checkOptions.forceExecution
      case ServiceCheckEvent => s[i].eventData != null && s[i].eventData in targets &&
        slots[i].kind == ServiceSlot && slots[i].forced == s[i].eventData.checkOptions.forceExecution
      case OtherEvent(_) => slots[i].kind == OtherSlot && !slots[i].forced
  }

  lemma OffsetStart(slots: seq<Slot>, now: int, window: nat)
    ensures Offset(slots, 0, now, window) == Delay(slots, now, window) / 2.0
    ensures Moved(slots, 0, now, window) == seq(|slots|, j requires 0 <= j < |slots| => slots[j].runTime)
  {
  }

  /** What one turn of the second pass has to do. */
  lemma TurnOf(slots: seq<Slot>, i: nat, now: int, window: nat)
    requires Adjusts(slots, now, window) && i < |slots|
    ensures i < Cut(slots, now, window) ==>
      (PickedAt(slots, i, now, window) <==> now < slots[i].runTime && !slots[i].kind.OtherSlot? && !slots[i].forced)
    ensures Moved(slots, i, now, window)[i] == slots[i].runTime
    ensures Moved(slots, i + 1, now, window) == Moved(slots, i, now, window)[i := NewRunTime(slots, i, now, window)]
    ensures if PickedAt(slots, i, now, window) then
        && NewRunTime(slots, i, now, window) == now + Trunc(Offset(slots, i, now, window))
        && Offset(slots, i + 1, now, window) ==
          Offset(slots, i, now, window) + ExecTime(slots[i]) * Factor(slots, now, window) + Delay(slots, now, window)
      else
        && NewRunTime(slots, i, now, window) == slots[i].runTime
        && Offset(slots, i + 1, now, window) == Offset(slots, i, now, window)
  {
  }

  /** Behind the cut nothing is moved any more. */
  lemma {:induction false} UnmovedBehindCut(m: map<CheckTarget, int>, s: seq<TimedEvent>, slots: seq<Slot>, i: nat,
                                            n: nat, now: int, window: nat)
    requires |s| == |slots| && Cut(slots, now, window) <= i <= n <= |slots|
    ensures Moved(slots, n, now, window) == Moved(slots, i, now, window)
    ensures Told(m, s, slots, n, now, window) == Told(m, s, slots, i, now, window)
    decreases n
  {
    if i < n { UnmovedBehindCut(m, s, slots, i, n - 1, now, window); }
  }

  /** Deals with one event up to the cut: a picked check gets its new time, and the place of the
      next one moves on. */
  method VisitEvent(event: TimedEvent, now: int, interCheckDelay: real, execTimeFactor: real,
                    icdOffset: real, execTimeOffset: real, ghost slot: Slot, ghost targets: set<CheckTarget>)
      returns (nextIcdOffset: real, nextExecTimeOffset: real)
    requires !event.eventType.OtherEvent? ==> event.eventData != null && event.eventData in targets
    requires SlotOf(event) == slot
    modifies event`runTime, targets`nextCheck
    ensures var x := execTimeOffset + icdOffset;
      if now < slot.runTime && !slot.kind.OtherSlot? && !slot.forced then
        && event.eventData != null
        && event.runTime == now + Trunc(x)
        && NextChecks(targets) == old(NextChecks(targets))[event.eventData := event.runTime]
        && nextExecTimeOffset + nextIcdOffset == x + ExecTime(slot) * execTimeFactor + interCheckDelay
      else
        && event.runTime == slot.runTime
        && NextChecks(targets) == old(NextChecks(targets))
        && nextExecTimeOffset + nextIcdOffset == x
    ensures var moves := old(now < event.runTime && !event.eventType.OtherEvent?
                             && !event.eventData.checkOptions.forceExecution);
      && (!moves ==> event.runTime == old(event.runTime) && nextIcdOffset == icdOffset
                     && nextExecTimeOffset == execTimeOffset)
      && (moves ==> event.runTime == event.eventData.nextCheck == now + Trunc(execTimeOffset + icdOffset)
                    && nextIcdOffset == icdOffset + interCheckDelay)
      && (moves && event.eventType == HostCheckEvent ==>
            nextExecTimeOffset == execTimeOffset + (old(event.eventData.executionTime) + 0.1) * execTimeFactor)
      && (moves && event.eventType == ServiceCheckEvent ==>
            nextExecTimeOffset == execTimeOffset + 0.1 * execTimeFactor)
  {
    nextIcdOffset, nextExecTimeOffset := icdOffset, execTimeOffset;
    if now < event.runTime && !event.eventType.OtherEvent? && !event.eventData.checkOptions.forceExecution {
      var target: CheckTarget := event.eventData;
      var currentExecTime := if event.eventType == HostCheckEvent
        then (target.executionTime + OVERHEAD) * execTimeFactor
                             else OVERHEAD * execTimeFactor;
      var newRunTimeOffset := execTimeOffset + icdOffset;
      var newRunTime := now + Trunc(newRunTimeOffset);
      event.runTime := newRunTime;
      target.nextCheck := newRunTime;
      nextIcdOffset := icdOffset + interCheckDelay;
      nextExecTimeOffset := execTimeOffset + currentExecTime;
    }
  }

  lemma ToldNone(m: map<CheckTarget, int>, s: seq<TimedEvent>, slots: seq<Slot>, now: int, window: nat)
    requires |s| == |slots|
    ensures Told(m, s, slots, 0, now, window) == m
  {
  }

  lemma ToldStep(m: map<CheckTarget, int>, s: seq<TimedEvent>, slots: seq<Slot>, i: nat, now: int, window: nat)
    requires |s| == |slots| && i < |s|
    ensures var told := Told(m, s, slots, i, now, window);
      Told(m, s, slots, i + 1, now, window) ==
        if PickedAt(slots, i, now, window) && s[i].eventData != null
        then told[s[i].eventData := NewRunTime(slots, i, now, window)]
        else told
  {
  }

  lemma SeesAt(s: seq<TimedEvent>, slots: seq<Slot>, i: nat, targets: set<CheckTarget>)
    requires SeesRest(s, slots, targets) && i < |s| && s[i].runTime == slots[i].runTime
    ensures !s[i].eventType.OtherEvent? ==> s[i].eventData != null && s[i].eventData in targets
    ensures SlotOf(s[i]) == slots[i]
  {
  }

  /** Second pass: spreads the picked checks. */
  method SpreadChecks(list: EventList, now: int, window: nat, interCheckDelay: real, execTimeFactor: real,
                      ghost slots: seq<Slot>, ghost targets: set<CheckTarget>)
    requires list.Valid() && SeesRest(list.events, slots, targets)
    requires RunTimesAre(list.events, Moved(slots, 0, now, window)) && Adjusts(slots, now, window)
    requires interCheckDelay == Delay(slots, now, window) && execTimeFactor == Factor(slots, now, window)
    modifies list.events`runTime, targets`nextCheck
    ensures RunTimesAre(list.events, Moved(slots, |slots|, now, window))
    ensures NextChecks(targets) == Told(old(NextChecks(targets)), list.events, slots, |slots|, now, window)
    ensures list.Valid() && Pointers(targets) == old(Pointers(targets))
  {
    hide Delay, Factor, Adjusts, Offset, ExecTime, Trunc, NewRunTime, Cut, PickedAt, Moved, Told;
    hide SeesRest;
    ghost var s, m := list.events, NextChecks(targets);
    var currentIcdOffset, currentExecTimeOffset := interCheckDelay / 2.0, 0.0;
    OffsetStart(slots, now, window);
    ToldNone(m, s, slots, now, window);
    var tempEvent := list.head;
    ghost var i, times := 0, Moved(slots, 0, now, window);
    while tempEvent != null
      invariant 0 <= i <= |slots| && tempEvent == (if i < |slots| then s[i] else null)
      invariant Linked(s) && SeesRest(s, slots, targets)
      invariant times == Moved(slots, i, now, window) && RunTimesAre(s, times)
      invariant NextChecks(targets) == Told(m, s, slots, i, now, window)
      invariant forall j :: 0 <= j < i ==> slots[j].runTime <= now + window
      invariant currentExecTimeOffset + currentIcdOffset == Offset(slots, i, now, window)
      decreases |slots| - i
    {
      TurnOf(slots, i, now, window);
      ToldStep(m, s, slots, i, now, window);
      assert s[i].runTime == times[i];
      SeesAt(s, slots, i, targets);
      CutIs(slots, i, now, window);
      if tempEvent.runTime > now + window {
        break;
      }
      CutIs(slots, i + 1, now, window);
      currentIcdOffset, currentExecTimeOffset :=
        VisitEvent(tempEvent, now, interCheckDelay, execTimeFactor, currentIcdOffset, currentExecTimeOffset, slots[i],
                   targets);
      times := times[i := tempEvent.runTime];
      tempEvent := tempEvent.next;
      i := i + 1;
    }
    CutIs(slots, i, now, window);
    UnmovedBehindCut(m, s, slots, i, |slots|, now, window);
  }

  // ---------- the whole operation ----------

  lemma SeesOrdered(s: seq<TimedEvent>, slots: seq<Slot>, targets: set<CheckTarget>)
    requires Sees(s, slots, targets)
    ensures SeesRest(s, slots, targets)
    ensures InOrder(s) ==> Ordered(slots)
    ensures RunTimesAre(s, seq(|slots|, j requires 0 <= j < |slots| => slots[j].runTime))
  {
    var times := seq(|slots|, j requires 0 <= j < |slots| => slots[j].runTime);
    forall i | 0 <= i < |s| ensures s[i].runTime == times[i] {
      assert SlotOf(s[i]) == slots[i];
    }
    forall i, j | InOrder(s) && 0 <= i < j < |s| ensures slots[i].runTime <= slots[j].runTime {
      assert SlotOf(s[i]) == slots[i] && SlotOf(s[j]) == slots[j];
    }
  }

  /** Every object whose check has been moved knows the time of that check, since it has no other. */
  lemma MovedAndTold(s: seq<TimedEvent>, slots: seq<Slot>, targets: set<CheckTarget>, m: map<CheckTarget, int>,
                     now: int, window: nat)
    requires Distinct<TimedEvent>(s) && Owned(Elements(s), targets) && Indexed(Elements(s), Pointers(targets))
    requires SeesRest(s, slots, targets) && RunTimesAre(s, Moved(slots, |slots|, now, window))
    requires NextChecks(targets) == Told(m, s, slots, |slots|, now, window)
    ensures forall i {:trigger slots[i]} :: 0 <= i < |slots| && PickedAt(slots, i, now, window) ==>
      && s[i].eventData != null && s[i].eventData in targets && s[i].eventData.nextCheck == s[i].runTime
      && s[i].runTime == NewRunTime(slots, i, now, window)
  {
    hide Indexed, Owned, Elements, NewRunTime, Cut, Distinct;
    IndexedIsOneCheckEach(s, targets, Pointers(targets));
    forall j | 0 <= j < |s| && PickedAt(slots, j, now, window)
      ensures !s[j].eventType.OtherEvent? && s[j].eventData != null
    {
      var kind := slots[j].kind;
    }
    forall i | 0 <= i < |slots| && PickedAt(slots, i, now, window)
      ensures s[i].eventData in targets && s[i].eventData.nextCheck == s[i].runTime == NewRunTime(slots, i, now, window)
    {
      ToldTheirOwn(m, s, slots, |slots|, i, now, window);
      MovedAt(slots, i, now, window);
      assert s[i].runTime == Moved(slots, |slots|, now, window)[i];
      assert NextChecks(targets)[s[i].eventData] == s[i].eventData.nextCheck;
    }
  }

  lemma MovedAt(slots: seq<Slot>, i: nat, now: int, window: nat)
    requires i < |slots|
    ensures Moved(slots, |slots|, now, window)[i] == NewRunTime(slots, i, now, window)
  {
  }

  /** Every picked check has been moved, and its object told; `s` is the list as it was. */
  ghost predicate AllMoved(s: seq<TimedEvent>, slots: seq<Slot>, now: int, window: nat)
    reads s`runTime, set i | 0 <= i < |s| && s[i].eventData != null :: s[i].eventData
  {
    && |s| == |slots|
    && forall i {:trigger slots[i]} :: 0 <= i < |slots| && PickedAt(slots, i, now, window) ==>
         s[i].eventData != null && s[i].eventData.nextCheck == s[i].runTime == NewRunTime(slots, i, now, window)
  }

  /** Spreads the picked checks and sorts the list again. */
  method SpreadAndSort(list: EventList, now: int, window: nat, interCheckDelay: real, execTimeFactor: real,
                       ghost slots: seq<Slot>, ghost targets: set<CheckTarget>)
    requires ValidButForOrder(list, targets) && SeesRest(list.events, slots, targets)
    requires RunTimesAre(list.events, Moved(slots, 0, now, window)) && Adjusts(slots, now, window)
    requires interCheckDelay == Delay(slots, now, window) && execTimeFactor == Factor(slots, now, window)
    modifies list, list.events, targets`nextCheck
    ensures ValidButForOrder(list, targets) && InOrder(list.events)
    ensures Elements(list.events) == Elements(old(list.events)) && Pointers(targets) == old(Pointers(targets))
    ensures RunTimesAre(old(list.events), Moved(slots, |slots|, now, window))
    ensures NextChecks(targets) == Told(old(NextChecks(targets)), old(list.events), slots, |slots|, now, window)
    ensures AllMoved(old(list.events), slots, now, window)
    ensures list.events == SortByTime<TimedEvent>(old(list.events), TimesOf(Elements(old(list.events))))
  {
    hide Indexed, Owned, Elements, Cut, NewRunTime, InOrder, Sorted, SortByTime, Moved, PickedAt, Delay, Factor,
      Adjusts, Told, Linked;
    ghost var s, m := list.events, NextChecks(targets);
    SpreadChecks(list, now, window, interCheckDelay, execTimeFactor, slots, targets);
    MovedAndTold(s, slots, targets, m, now, window);
    assert AllMoved(s, slots, now, window);
    ResortChecks(list, targets);
  }

  /** How far apart the checks go, and how much they are squeezed. */
  method DivideWindow(totalChecks: nat, totalExecTime: real, window: nat, ghost now: int, ghost slots: seq<Slot>)
      returns (interCheckDelay: real, execTimeFactor: real)
    requires totalChecks == Count(slots, |slots|, now, window) > 0 && totalExecTime == TotalExec(slots, now, window)
    ensures interCheckDelay == Delay(slots, now, window) && execTimeFactor == Factor(slots, now, window)
  {
    if Trunc(totalExecTime) > window {
      OverfullIsPositive(slots, now, window);
      interCheckDelay := 0.0;
      execTimeFactor := window as real / totalExecTime;
    } else {
      interCheckDelay := (window as real - totalExecTime) / totalChecks as real;
      execTimeFactor := 1.0;
    }
  }

  /** Re-spreads the checks due within the window and sorts the list again, if any two bump. */
  method AdjustCheckScheduling(list: EventList, now: int, window: nat, ghost slots: seq<Slot>,
                               ghost targets: set<CheckTarget>)
    requires ValidButForOrder(list, targets) && Sees(list.events, slots, targets) && now >= 0
    modifies list, list.events, targets`nextCheck
    ensures ValidButForOrder(list, targets)
    ensures Elements(list.events) == Elements(old(list.events)) && Pointers(targets) == old(Pointers(targets))
    ensures old(InOrder(list.events)) ==> !Adjusts(slots, now, window)
    ensures !Adjusts(slots, now, window) ==>
      && list.events == old(list.events) && RunTimesAre(list.events, Moved(slots, 0, now, window))
      && NextChecks(targets) == old(NextChecks(targets))
    ensures Adjusts(slots, now, window) ==>
      && RunTimesAre(old(list.events), Moved(slots, |slots|, now, window))
      && |old(list.events)| == |slots|
      && NextChecks(targets) == Told(old(NextChecks(targets)), old(list.events), slots, |slots|, now, window)
      && InOrder(list.events)
      && list.events == SortByTime<TimedEvent>(old(list.events), TimesOf(Elements(old(list.events))))
    ensures Adjusts(slots, now, window) ==> AllMoved(old(list.events), slots, now, window)
    ensures forall i {:trigger slots[i]} :: 0 <= i < |slots| ==>
      (slots[i].kind.OtherSlot? || slots[i].forced || !(now < slots[i].runTime <= now + window) ==>
        old(list.events)[i].runTime == slots[i].runTime)
  {
    hide Indexed, Owned, Elements, Cut, NewRunTime, InOrder, Sorted, SortByTime, Moved, PickedAt, Count, LastPicked;
    hide AllMoved, Told, Linked, Bumps, Delay, Factor, TotalExec, Sees, SlotOf;
    ghost var s := list.events;
    SeesOrdered(s, slots, targets);
    OffsetStart(slots, now, window);
    if InOrder(s) { OrderedNeverBumps(slots, |slots|, now, window); }
    var totalChecks, totalExecTime, adjustScheduling := Survey(list, now, window, slots, targets);
    if totalChecks == 0 || !adjustScheduling {
      BumpsNeedsPicked(slots, |slots|, now, window);
      return;
    }
    var interCheckDelay, execTimeFactor := DivideWindow(totalChecks, totalExecTime, window, now, slots);
    SpreadAndSort(list, now, window, interCheckDelay, execTimeFactor, slots, targets);
    OthersStay(s, slots, now, window);
  }

  /** Other events, forced checks and checks outside the window keep their run times. */
  lemma OthersStay(s: seq<TimedEvent>, slots: seq<Slot>, now: int, window: nat)
    requires RunTimesAre(s, Moved(slots, |slots|, now, window))
    ensures |s| == |slots|
    ensures forall i {:trigger slots[i]} :: 0 <= i < |slots| ==>
      (slots[i].kind.OtherSlot? || slots[i].forced || !(now < slots[i].runTime <= now + window) ==>
        s[i].runTime == slots[i].runTime)
  {
    assert forall i :: 0 <= i < |s| ==> s[i].runTime == Moved(slots, |slots|, now, window)[i];
  }

  lemma {:induction false} BumpsNeedsPicked(slots: seq<Slot>, n: nat, now: int, window: nat)
    requires n <= |slots|
    ensures Bumps(slots, n, now, window) ==> Count(slots, n, now, window) > 0
    decreases n
  {
    if n > 0 { BumpsNeedsPicked(slots, n - 1, now, window); }
  }
}
