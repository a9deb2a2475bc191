/** Interleaving of the initial service checks (`init_timing_loop`, base/events.c): neighbours in
    the service list, which tend to sit on the same host, are sent to slots far apart. */
module Interleave {
  import opened Common
  import opened CheckScheduling

  // ---------- slots ----------

  /** The number of blocks: n / factor, rounded up. */
  function Blocks(n: nat, factor: nat): nat {
    if factor == 0 then n else (n + factor - 1) / factor
  }

  /** The slot of the `k`-th service that gets one. */
  function Multiplier(k: nat, factor: nat, blocks: nat): nat
    requires factor >= 1
  {
    k / factor + (k % factor + 1) * blocks
  }

  /** Which service sits in a slot: the way back. */
  function Occupant(slot: nat, factor: nat, blocks: nat): nat
    requires blocks >= 1 && slot >= blocks
  {
    (slot % blocks) * factor + (slot / blocks - 1)
  }

  lemma DivMod(q: nat, r: nat, d: nat)
    requires r < d
    ensures (q * d + r) / d == q && (q * d + r) % d == r
  {
    var x := q * d + r;
    assert x == (x / d) * d + x % d;
    MulMonotone(x / d + 1, q, d);
    MulMonotone(q + 1, x / d, d);
  }

  lemma MulSucc(a: nat, c: nat)
    ensures (a + 1) * c == a * c + c
  {
  }

  lemma MulMonotone(a: nat, b: nat, c: nat)
    ensures a <= b ==> a * c <= b * c
  {
  }

  /** The blocks hold all services, and with room for less than one more block. */
  lemma BlocksHold(n: nat, factor: nat)
    requires factor >= 1
    ensures n <= Blocks(n, factor) * factor <= n + factor - 1
  {
    var x := n + factor - 1;
    assert x == (x / factor) * factor + x % factor;
  }

  lemma BlockNumberBelow(k: nat, n: nat, factor: nat)
    requires factor >= 1 && k < n
    ensures k / factor < Blocks(n, factor)
  {
    BlocksHold(n, factor);
    var b := Blocks(n, factor);
    assert k == (k / factor) * factor + k % factor;
    MulMonotone(b, k / factor, factor);
  }

  /** Every slot lies between one and `factor` + 1 times the number of blocks. */
  lemma MultiplierBounds(k: nat, n: nat, factor: nat)
    requires factor >= 1 && k < n
    ensures var b := Blocks(n, factor); b <= Multiplier(k, factor, b) <= b * (factor + 1) - 1
  {
    var b := Blocks(n, factor);
    BlockNumberBelow(k, n, factor);
    hide Blocks;
    MulMonotone(1, k % factor + 1, b);
    MulMonotone(k % factor + 1, factor, b);
    MulSucc(factor, b);
  }

  /** The slot tells the service: slots and services correspond one to one. */
  lemma OccupantOfMultiplier(k: nat, n: nat, factor: nat)
    requires factor >= 1 && k < n
    ensures var b := Blocks(n, factor);
      b >= 1 && Multiplier(k, factor, b) >= b && Occupant(Multiplier(k, factor, b), factor, b) == k
  {
    var b := Blocks(n, factor);
    BlockNumberBelow(k, n, factor);
    MultiplierBounds(k, n, factor);
    DivMod(k % factor + 1, k / factor, b);
  }

  lemma MultiplierOfOccupant(slot: nat, n: nat, factor: nat)
    requires factor >= 1 && n >= 1 && Blocks(n, factor) <= slot < Blocks(n, factor) * (factor + 1)
    ensures Blocks(n, factor) >= 1
    ensures var b := Blocks(n, factor); Multiplier(Occupant(slot, factor, b), factor, b) == slot
  {
    hide Blocks, Multiplier;
    var b := Blocks(n, factor);
    BlocksHold(n, factor);
    assert slot == (slot / b) * b + slot % b;
    MulMonotone(factor + 1, slot / b, b);
    OccupantBack(slot / b, slot % b, factor, b);
  }

  lemma OccupantBack(q: nat, r: nat, factor: nat, blocks: nat)
    requires 1 <= q <= factor && r < blocks
    ensures Multiplier(r * factor + (q - 1), factor, blocks) == r + q * blocks
  {
    DivMod(r, q - 1, factor);
  }

  lemma DistinctMultipliers(j: nat, k: nat, n: nat, factor: nat)
    requires factor >= 1 && j < n && k < n && j != k
    ensures Multiplier(j, factor, Blocks(n, factor)) != Multiplier(k, factor, Blocks(n, factor))
  {
    OccupantOfMultiplier(j, n, factor);
    OccupantOfMultiplier(k, n, factor);
  }

  /** Neighbours within a block are one slot for every block apart; the last service of a block and
      the first of the next, one less than `factor` times as much but one, the other way round. */
  lemma NeighboursFarApart(k: nat, factor: nat, blocks: nat)
    requires factor >= 1
    ensures k % factor < factor - 1 ==> Multiplier(k + 1, factor, blocks) == Multiplier(k, factor, blocks) + blocks
    ensures k % factor == factor - 1 ==>
      Multiplier(k + 1, factor, blocks) == Multiplier(k, factor, blocks) - (factor - 1) * blocks + 1
  {
    if k % factor < factor - 1 {
      assert k + 1 == (k / factor) * factor + (k % factor + 1);
      DivMod(k / factor, k % factor + 1, factor);
      MulSucc(k % factor + 1, blocks);
    } else {
      MulSucc(k / factor, factor);
      assert k + 1 == (k / factor + 1) * factor + 0;
      DivMod(k / factor + 1, 0, factor);
      MulSucc(factor - 1, blocks);
      MulSucc(0, blocks);
    }
  }

  // ---------- the delay ----------

  /** The smart delay between checks, in seconds. */
  function SmartDelay(n: nat, intervalTotal: real, spread: nat): real {
    if n > 0 && intervalTotal > 0.0 then
      var average := (intervalTotal / n as real) / n as real;
      var most := (spread as real * 60.0) / n as real;
      if average > most then most else average
    else 0.0
  }

  lemma ScaleUp(a: real, b: real, c: real)
    requires a <= b && c >= 0.0
    ensures a * c <= b * c
  {
  }

  lemma SmartDelayBounds(n: nat, intervalTotal: real, spread: nat)
    requires n >= 1
    ensures 0.0 <= SmartDelay(n, intervalTotal, spread) <= (spread as real * 60.0) / n as real
  {
  }

  /** A round of checks, one delay apart, takes the average check interval, or the spread if that is less. */
  lemma SmartDelayIs(n: nat, intervalTotal: real, spread: nat)
    requires n >= 1 && intervalTotal > 0.0
    ensures var average, most := intervalTotal / n as real, spread as real * 60.0;
      SmartDelay(n, intervalTotal, spread) * n as real == if average <= most then average else most
  {
    var x, average, most := n as real, intervalTotal / n as real, spread as real * 60.0;
    assert average / x * x == average && most / x * x == most;
    if average <= most {
      ScaleDown(average, most, x);
    } else {
      ScaleDown(most, average, x);
    }
  }

  lemma ScaleDown(a: real, b: real, c: real)
    requires a <= b && c > 0.0
    ensures a / c <= b / c
  {
  }

  /** With the smart delay no check is put off by much more than the configured spread. */
  lemma OffsetWithinSpread(k: nat, n: nat, factor: nat, intervalTotal: real, spread: nat)
    requires factor >= 1 && k < n
    ensures var b := Blocks(n, factor);
      0.0 <= Multiplier(k, factor, b) as real * SmartDelay(n, intervalTotal, spread)
          <= spread as real * 60.0 * (n + factor + b - 2) as real / n as real
  {
    hide SmartDelay, Multiplier, Blocks;
    SlotAtMost(k, n, factor);
    SmartDelayBounds(n, intervalTotal, spread);
    var b := Blocks(n, factor);
    SpreadBound(Multiplier(k, factor, b), n + factor + b - 2, SmartDelay(n, intervalTotal, spread), spread, n);
  }

  lemma SpreadBound(m: nat, most: nat, delay: real, spread: nat, n: nat)
    requires n > 0 && m <= most && 0.0 <= delay <= (spread as real * 60.0) / n as real
    ensures 0.0 <= m as real * delay <= spread as real * 60.0 * most as real / n as real
  {
    ProductBound(m as real, most as real, delay, spread as real * 60.0, n as real);
  }

  lemma SlotAtMost(k: nat, n: nat, factor: nat)
    requires factor >= 1 && k < n
    ensures Multiplier(k, factor, Blocks(n, factor)) <= n + factor + Blocks(n, factor) - 2
  {
    hide Multiplier, Blocks;
    MultiplierBounds(k, n, factor);
    BlocksHold(n, factor);
    MulSucc(factor, Blocks(n, factor));
  }

  lemma ProductBound(m: real, most: real, delay: real, span: real, n: real)
    requires n > 0.0 && 0.0 <= m <= most && 0.0 <= delay <= span / n
    ensures 0.0 <= m * delay <= span * most / n
  {
    ScaleUp(0.0, m, delay);
    ScaleUp(m, most, delay);
    ScaleUp(delay, span / n, most);
    QuotientTimes(span, n, most);
    assert most * delay == delay * most;
  }

  lemma QuotientTimes(a: real, b: real, c: real)
    requires b > 0.0
    ensures a / b * c == a * c / b
  {
    assert a / b * b == a;
    assert (a / b * c) * b == a * c;
  }

  /** When checks are at least a second apart, no two services are due in the same second. */
  lemma DistinctSeconds(j: nat, k: nat, n: nat, factor: nat, delay: real, now: int)
    requires factor >= 1 && j < n && k < n && j != k && delay >= 1.0
    ensures Preferred(now, Multiplier(j, factor, Blocks(n, factor)), delay)
         != Preferred(now, Multiplier(k, factor, Blocks(n, factor)), delay)
  {
    DistinctMultipliers(j, k, n, factor);
    var a, b := Multiplier(j, factor, Blocks(n, factor)), Multiplier(k, factor, Blocks(n, factor));
    LaterSlotLater(a, b, delay, now);
    LaterSlotLater(b, a, delay, now);
  }

  lemma LaterSlotLater(a: nat, b: nat, delay: real, now: int)
    requires delay >= 1.0
    ensures a < b ==> Preferred(now, a, delay) < Preferred(now, b, delay)
  {
    if a < b {
      ScaleUp(1.0, delay, (b - a) as real);
      var x, y := a as real * delay, b as real * delay;
      assert y == x + (b - a) as real * delay;
    }
  }

  // ---------- the pass over the service list ----------

  class Service {
    const checkInterval: real
    const checksEnabled: bool
    const period: Period
    var shouldBeScheduled: bool
    var nextCheck: int

    constructor (checkInterval: real, checksEnabled: bool, period: Period, shouldBeScheduled: bool, nextCheck: int)
      ensures this.checkInterval == checkInterval && this.checksEnabled == checksEnabled && this.period == period
      ensures this.shouldBeScheduled == shouldBeScheduled && this.nextCheck == nextCheck
    {
      this.checkInterval, this.checksEnabled, this.period := checkInterval, checksEnabled, period;
      this.shouldBeScheduled, this.nextCheck := shouldBeScheduled, nextCheck;
    }
  }

  /** Whether there is any point in scheduling checks of a service. */
  predicate Schedulable(service: Service, now: int) {
    service.checkInterval != 0.0 && service.checksEnabled
      && (service.period.contains(now) || service.period.nextValid(now) != now)
  }

  /** Services scheduled for the future already, by an earlier run, keep their time. */
  predicate Eligible(service: Service, now: int)
    reads service
  {
    service.shouldBeScheduled && service.nextCheck <= now
  }

  function Preferred(now: int, multiplier: nat, delay: real): int {
    now + (multiplier as real * delay).Floor
  }

  function Actual(preferred: int, period: Period): int {
    if period.contains(preferred) then preferred else period.nextValid(preferred)
  }

  /** How many of the first `i` flags are up. */
  function CountUp(flags: seq<bool>, i: nat): (c: nat)
    requires i <= |flags|
    ensures c <= i
  {
    if i == 0 then 0 else CountUp(flags, i - 1) + if flags[i - 1] then 1 else 0
  }

  lemma {:induction false} CountUpExactly(flags: seq<bool>, i: nat)
    requires i <= |flags|
    ensures CountUp(flags, i) == |set j | 0 <= j < i && flags[j]|
    decreases i
  {
    if i > 0 {
      CountUpExactly(flags, i - 1);
      var up := set j | 0 <= j < i - 1 && flags[j];
      assert (set j | 0 <= j < i && flags[j]) == if flags[i - 1] then up + {i - 1} else up;
    }
  }

  lemma {:induction false} CountUpMonotone(flags: seq<bool>, i: nat, j: nat)
    requires i <= j <= |flags|
    ensures CountUp(flags, i) <= CountUp(flags, j)
    ensures i < j && flags[i] ==> CountUp(flags, i) < CountUp(flags, j)
    decreases j
  {
    if i < j { CountUpMonotone(flags, i, j - 1); }
  }

  lemma {:induction false} CountUpSubset(flags: seq<bool>, more: seq<bool>, i: nat)
    requires |flags| == |more| && i <= |flags| && forall j :: 0 <= j < |flags| && flags[j] ==> more[j]
    ensures CountUp(flags, i) <= CountUp(more, i)
    decreases i
  {
    if i > 0 { CountUpSubset(flags, more, i - 1); }
  }

  /** Counts the services to schedule and marks the others. */
  method CountScheduled(services: seq<Service>, now: int, ghost schedulable: seq<bool>) returns (total: nat)
    requires Distinct<Service>(services) && |schedulable| == |services|
    requires forall j :: 0 <= j < |services| ==> schedulable[j] == Schedulable(services[j], now)
    modifies services`shouldBeScheduled
    ensures total == CountUp(schedulable, |schedulable|)
    ensures forall j :: 0 <= j < |services| ==>
      services[j].shouldBeScheduled == (schedulable[j] && old(services[j].shouldBeScheduled))
    ensures forall j :: 0 <= j < |services| ==>
      (services[j].shouldBeScheduled <==>
        && old(services[j].shouldBeScheduled) && services[j].checkInterval != 0.0 && services[j].checksEnabled
        && (services[j].period.contains(now) || services[j].period.nextValid(now) != now))
  {
    total := 0;
    for i := 0 to |services|
      invariant total == CountUp(schedulable, i)
      invariant forall j :: 0 <= j < |services| ==>
        services[j].shouldBeScheduled == ((j < i ==> schedulable[j]) && old(services[j].shouldBeScheduled))
    {
      var scheduleCheck := true;
      if services[i].checkInterval == 0.0 {
        scheduleCheck := false;
      }
      if !services[i].checksEnabled {
        scheduleCheck := false;
      }
      if !services[i].period.contains(now) && now == services[i].period.nextValid(now) {
        scheduleCheck := false;
      }
      if scheduleCheck {
        total := total + 1;
      } else {
        services[i].shouldBeScheduled := false;
      }
    }
  }

  /** When a service is due that gets a slot, or not. */
  function TimeFor(gets: bool, slot: nat, now: int, delay: real, period: Period, nextCheck: int): int {
    if gets then Actual(Preferred(now, slot, delay), period) else nextCheck
  }

  /** When the `j`-th service is due after the pass. */
  function Assigned(eligible: seq<bool>, j: nat, factor: nat, blocks: nat, now: int, delay: real, period: Period,
                    nextCheck: int): int
    requires j < |eligible| && factor >= 1
  {
    TimeFor(eligible[j], SlotOf(eligible, j, factor, blocks), now, delay, period, nextCheck)
  }

  lemma AssignedAt(eligible: seq<bool>, j: nat, factor: nat, blocks: nat, now: int, delay: real, period: Period,
                   nextCheck: int)
    requires j < |eligible| && factor >= 1
    ensures Assigned(eligible, j, factor, blocks, now, delay, period, nextCheck) ==
      if eligible[j] then Actual(Preferred(now, Multiplier(CountUp(eligible, j), factor, blocks), delay), period)
      else nextCheck
  {
  }

  /** Hands out the slots, block by block. Services that are passed over use none up. */
  method InterleaveChecks(services: seq<Service>, factor: nat, blocks: nat, delay: real, now: int,
                          ghost eligible: seq<bool>)
    requires Distinct<Service>(services) && |eligible| == |services| && delay >= 0.0
    requires forall j :: 0 <= j < |services| ==> eligible[j] == Eligible(services[j], now)
    modifies services`nextCheck
    ensures factor == 0 ==> forall j :: 0 <= j < |services| ==> services[j].nextCheck == old(services[j].nextCheck)
    ensures factor > 0 ==> (forall j :: 0 <= j < |services| ==>
      services[j].nextCheck == Assigned(eligible, j, factor, blocks, now, delay, services[j].period,
                                        old(services[j].nextCheck)))
  {
    hide Multiplier, Preferred, Actual, Assigned;
    var i, currentBlock := 0, 0;
    while i < |services| && factor > 0
      invariant 0 <= i <= |services|
      invariant i < |services| ==> CountUp(eligible, i) == currentBlock * factor
      invariant forall j :: i <= j < |services| ==> services[j].nextCheck == old(services[j].nextCheck)
      invariant factor > 0 ==> (forall j :: 0 <= j < i ==>
        services[j].nextCheck == Assigned(eligible, j, factor, blocks, now, delay, services[j].period,
                                          old(services[j].nextCheck)))
      invariant factor == 0 ==> i == 0
      decreases |services| - i
    {
      var blockIndex := 0;
      ghost var first := i;
      while blockIndex < factor && i < |services|
        invariant first <= i <= |services| && 0 <= blockIndex <= factor
        invariant blockIndex > 0 ==> first < i
        invariant CountUp(eligible, i) == currentBlock * factor + blockIndex
        invariant forall j :: i <= j < |services| ==> services[j].nextCheck == old(services[j].nextCheck)
        invariant forall j :: 0 <= j < i ==>
          services[j].nextCheck == Assigned(eligible, j, factor, blocks, now, delay, services[j].period,
                                            old(services[j].nextCheck))
        decreases |services| - i
      {
        assert eligible[i] == Eligible(services[i], now);
        AssignedAt(eligible, i, factor, blocks, now, delay, services[i].period, services[i].nextCheck);
        if services[i].shouldBeScheduled && services[i].nextCheck <= now {
          blockIndex := blockIndex + 1;
          var multFactor := currentBlock + blockIndex * blocks;
          SlotOfBlock(currentBlock, blockIndex, factor, blocks);
          PlaceCheck(services[i], multFactor, delay, now);
        }
        i := i + 1;
      }
      MulSucc(currentBlock, factor);
      currentBlock := currentBlock + 1;
    }
  }

  /** Sets the time of one service, as near behind its preferred time as its check period allows. */
  method PlaceCheck(service: Service, multFactor: nat, delay: real, now: int)
    modifies service`nextCheck
    ensures service.nextCheck == Actual(Preferred(now, multFactor, delay), service.period)
    ensures var preferred := now + (multFactor as real * delay).Floor;
      && (service.period.contains(preferred) ==> service.nextCheck == preferred)
      && (!service.period.contains(preferred) ==> service.nextCheck == service.period.nextValid(preferred))
  {
    service.nextCheck := Preferred(now, multFactor, delay);
    if !service.period.contains(service.nextCheck) {
      service.nextCheck := service.period.nextValid(service.nextCheck);
    }
  }

  lemma SlotOfBlock(currentBlock: nat, blockIndex: nat, factor: nat, blocks: nat)
    requires 1 <= blockIndex <= factor
    ensures Multiplier(currentBlock * factor + blockIndex - 1, factor, blocks) == currentBlock + blockIndex * blocks
  {
    DivMod(currentBlock, blockIndex - 1, factor);
  }

  /** The slot of the `j`-th service, if it gets one. */
  function SlotOf(eligible: seq<bool>, j: nat, factor: nat, blocks: nat): nat
    requires j < |eligible| && factor >= 1
  {
    Multiplier(CountUp(eligible, j), factor, blocks)
  }

  /** Every slot handed out is in bounds. */
  lemma SlotInBounds(eligible: seq<bool>, schedulable: seq<bool>, j: nat, factor: nat)
    requires |eligible| == |schedulable| && forall m :: 0 <= m < |eligible| && eligible[m] ==> schedulable[m]
    requires j < |eligible| && eligible[j] && factor >= 1
    ensures var b := Blocks(CountUp(schedulable, |schedulable|), factor);
      b <= SlotOf(eligible, j, factor, b) <= b * (factor + 1) - 1 && CountUp(eligible, j) / factor < b
  {
    var n := CountUp(schedulable, |schedulable|);
    CountUpMonotone(eligible, j, |eligible|);
    CountUpSubset(eligible, schedulable, |eligible|);
    MultiplierBounds(CountUp(eligible, j), n, factor);
    BlockNumberBelow(CountUp(eligible, j), n, factor);
  }

  /** No two services that get a time get the same slot. */
  lemma EverySlotOnce(eligible: seq<bool>, schedulable: seq<bool>, i: nat, j: nat, factor: nat)
    requires |eligible| == |schedulable| && forall m :: 0 <= m < |eligible| && eligible[m] ==> schedulable[m]
    requires i < j < |eligible| && eligible[i] && eligible[j] && factor >= 1
    ensures var b := Blocks(CountUp(schedulable, |schedulable|), factor);
      SlotOf(eligible, i, factor, b) != SlotOf(eligible, j, factor, b)
  {
    var n := CountUp(schedulable, |schedulable|);
    CountUpMonotone(eligible, i, j);
    CountUpMonotone(eligible, j, |eligible|);
    CountUpSubset(eligible, schedulable, |eligible|);
    DistinctMultipliers(CountUp(eligible, i), CountUp(eligible, j), n, factor);
  }

  /** A service gets a first check time: it is worth scheduling, and has none in the future. */
  ghost predicate GetsSlot(service: Service, now: int)
    reads service
  {
    Schedulable(service, now) && service.shouldBeScheduled && service.nextCheck <= now
  }

  /** Slots for the services that get one, each in bounds and used once. */
  ghost predicate GoodSlots(eligible: seq<bool>, slots: seq<nat>, factor: nat, blocks: nat) {
    && |slots| == |eligible|
    && (forall j :: 0 <= j < |slots| && eligible[j] ==> blocks <= slots[j] <= blocks * (factor + 1) - 1)
    && (forall j :: 0 <= j < |slots| && eligible[j] && factor > 0 ==>
          slots[j] == Multiplier(CountUp(eligible, j), factor, blocks))
    && (forall i, j :: 0 <= i < j < |slots| && eligible[i] && eligible[j] ==> slots[i] != slots[j])
  }

  lemma SlotsAreGood(eligible: seq<bool>, schedulable: seq<bool>, factor: nat) returns (slots: seq<nat>)
    requires |eligible| == |schedulable| && forall m :: 0 <= m < |eligible| && eligible[m] ==> schedulable[m]
    requires factor >= 1
    ensures var b := Blocks(CountUp(schedulable, |schedulable|), factor);
      && GoodSlots(eligible, slots, factor, b)
      && forall j :: 0 <= j < |slots| ==> slots[j] == SlotOf(eligible, j, factor, b)
  {
    hide Blocks, Multiplier, CountUp;
    var b := Blocks(CountUp(schedulable, |schedulable|), factor);
    slots := seq(|eligible|, j requires 0 <= j < |eligible| => SlotOf(eligible, j, factor, b));
    forall j | 0 <= j < |slots| && eligible[j] ensures b <= slots[j] <= b * (factor + 1) - 1 {
      SlotInBounds(eligible, schedulable, j, factor);
    }
    forall i, j | 0 <= i < j < |slots| && eligible[i] && eligible[j] ensures slots[i] != slots[j] {
      EverySlotOnce(eligible, schedulable, i, j, factor);
    }
  }

  /** The whole of it: counting the services, dividing them into blocks and handing out the slots. The
      services that get a time all get different slots, the others keep what they have. */
  method ScheduleFirstChecks(services: seq<Service>, factor: nat, delay: real, now: int)
      returns (total: nat, ghost slots: seq<nat>)
    requires Distinct<Service>(services) && delay >= 0.0
    modifies services`shouldBeScheduled, services`nextCheck
    ensures var schedulable := seq(|services|, j requires 0 <= j < |services| => Schedulable(services[j], now));
      total == CountUp(schedulable, |schedulable|)
    ensures forall j :: 0 <= j < |services| ==>
      services[j].shouldBeScheduled == (Schedulable(services[j], now) && old(services[j].shouldBeScheduled))
    ensures factor == 0 ==> forall j :: 0 <= j < |services| ==> services[j].nextCheck == old(services[j].nextCheck)
    ensures factor > 0 ==>
      && |slots| == |services|
      && (forall j {:trigger slots[j]} :: 0 <= j < |services| && old(GetsSlot(services[j], now)) ==>
            services[j].nextCheck == Actual(Preferred(now, slots[j], delay), services[j].period))
      && (forall j {:trigger slots[j]} :: 0 <= j < |services| && !old(GetsSlot(services[j], now)) ==>
            services[j].nextCheck == old(services[j].nextCheck))
      && GoodSlots(old(EligibleNow(services, now)), slots, factor, Blocks(total, factor))
    ensures forall j :: 0 <= j < |services| ==>
      var due := old(services[j].shouldBeScheduled && services[j].nextCheck <= now);
      (old(GetsSlot(services[j], now)) <==>
        due && services[j].checkInterval != 0.0 && services[j].checksEnabled
        && (services[j].period.contains(now) || services[j].period.nextValid(now) != now))
  {
    hide Multiplier, Preferred, Actual, CountUp, Blocks, SlotOf;
    ghost var schedulable := seq(|services|, j requires 0 <= j < |services| => Schedulable(services[j], now));
    total := CountScheduled(services, now, schedulable);
    ghost var eligible := old(EligibleNow(services, now));
    slots := [];
    if factor > 0 {
      slots := SlotsAreGood(eligible, schedulable, factor);
    }
    InterleaveChecks(services, factor, Blocks(total, factor), delay, now, eligible);
  }

  ghost function EligibleNow(services: seq<Service>, now: int): (r: seq<bool>)
    reads services
    ensures |r| == |services| && forall j :: 0 <= j < |services| ==> r[j] == GetsSlot(services[j], now)
  {
    if services == [] then []
    else EligibleNow(services[..|services| - 1], now) + [GetsSlot(services[|services| - 1], now)]
  }
}
