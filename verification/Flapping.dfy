/** Flap detection (base/flapping.c). States are numbered, 0 is OK or up. */
module Flapping {
  import opened Common
  import opened CheckStates

  const LOW_CURVE := 0.75
  const HIGH_CURVE := 1.25

  // ---------- the window of recorded states ----------

  /** A new state pushes out the oldest one. */
  function Slide(w: seq<int>, state: int): seq<int>
    requires w != []
  {
    w[1..] + [state]
  }

  function SlideAll(w: seq<int>, states: seq<int>): (r: seq<int>)
    requires w != []
    ensures |r| == |w|
  {
    if states == [] then w
    else Slide(SlideAll(w, states[..|states| - 1]), states[|states| - 1])
  }

  /** The window holds the states recorded last. */
  lemma {:induction false} WindowIsLastStates(w: seq<int>, states: seq<int>)
    requires w != []
    ensures SlideAll(w, states) == (w + states)[|states|..]
    decreases |states|
  {
    if states == [] {
      assert w + states == w;
    } else {
      var n := |states| - 1;
      WindowIsLastStates(w, states[..n]);
      var u := w + states[..n];
      assert w + states == u + [states[n]];
      assert (u + [states[n]])[n + 1..] == u[n..][1..] + [states[n]];
    }
  }

  /** How much a change counts: the later, the more. */
  function Weight(x: nat, size: nat): real
    requires size >= 3
  {
    ((x - 1) as real * (HIGH_CURVE - LOW_CURVE)) / (size - 2) as real + LOW_CURVE
  }

  /** The weighted changes among the first `n` states of the window. */
  function Changes(w: seq<int>, n: nat): real
    requires |w| >= 3 && n <= |w|
  {
    if n <= 1 then 0.0
    else Changes(w, n - 1) + if w[n - 2] != w[n - 1] then Weight(n - 1, |w|) else 0.0
  }

  function Percent(w: seq<int>): real
    requires |w| >= 3
  {
    Changes(w, |w|) * 100.0 / (|w| - 1) as real
  }

  /** The most that the first `n` states can make. */
  function Most(n: nat, size: nat): real
    requires size >= 3
  {
    if n <= 1 then 0.0 else Most(n - 1, size) + Weight(n - 1, size)
  }

  lemma WeightStep(x: nat, size: nat)
    requires size >= 3
    ensures Weight(x + 1, size) == Weight(x, size) + 0.5 / (size - 2) as real
    ensures x >= 1 ==> 0.75 <= Weight(x, size)
  {
    var d := (size - 2) as real;
    assert (x as real * 0.5) / d == ((x - 1) as real * 0.5) / d + 0.5 / d;
    if x >= 1 {
      assert ((x - 1) as real * 0.5) / d >= 0.0;
    }
  }

  lemma {:induction false} MostClosed(n: nat, size: nat)
    requires size >= 3 && n >= 1
    ensures Most(n, size) == 0.75 * (n - 1) as real + 0.25 * ((n - 1) as real * (n - 2) as real / (size - 2) as real)
    decreases n
  {
    if n > 1 {
      MostClosed(n - 1, size);
      SumStep((size - 2) as real, (n - 2) as real);
    }
  }

  /** The sum so far, and the weight of one more change. */
  lemma SumStep(d: real, m: real)
    requires d > 0.0
    ensures 0.25 * (m * (m - 1.0) / d) + (m * 0.5) / d == 0.25 * ((m + 1.0) * m / d)
  {
    var a, b, c := m * (m - 1.0) / d, (m * 0.5) / d, (m + 1.0) * m / d;
    assert a * d == m * (m - 1.0) && b * d == m * 0.5 && c * d == (m + 1.0) * m;
    assert (0.25 * a + b - 0.25 * c) * d == 0.0;
  }

  /** The weights add up to the number of neighbouring pairs. */
  lemma WeightsSum(size: nat)
    requires size >= 3
    ensures Most(size, size) == (size - 1) as real
  {
    MostClosed(size, size);
    var d := (size - 2) as real;
    assert (size - 1) as real * d / d == (size - 1) as real;
  }

  predicate AllDiffer(w: seq<int>, n: nat)
    requires n <= |w|
  {
    forall i :: 0 < i < n ==> w[i - 1] != w[i]
  }

  /** The states from `lo` up to `n` are the same. */
  predicate AllSame(w: seq<int>, lo: nat, n: nat)
    requires n <= |w|
  {
    forall i :: lo < i < n ==> w[i - 1] == w[i]
  }

  lemma {:induction false} ChangesBounds(w: seq<int>, n: nat)
    requires |w| >= 3 && n <= |w|
    ensures 0.0 <= Changes(w, n) <= Most(n, |w|)
    ensures Changes(w, n) == Most(n, |w|) <==> AllDiffer(w, n)
    ensures Changes(w, n) == 0.0 <==> AllSame(w, 0, n)
    decreases n
  {
    if n > 1 {
      ChangesBounds(w, n - 1);
      WeightStep(n - 1, |w|);
    }
  }

  /** The percentage is one: 100 when every recorded state differs from the one before it, 0 when
      all are the same, and otherwise in between. */
  lemma PercentBounds(w: seq<int>)
    requires |w| >= 3
    ensures 0.0 <= Percent(w) <= 100.0
    ensures Percent(w) == 100.0 <==> AllDiffer(w, |w|)
    ensures Percent(w) == 0.0 <==> AllSame(w, 0, |w|)
  {
    ChangesBounds(w, |w|);
    WeightsSum(|w|);
    Ratio(Changes(w, |w|), (|w| - 1) as real);
  }

  lemma Ratio(c: real, d: real)
    requires 0.0 <= c <= d && d > 0.0
    ensures 0.0 <= c * 100.0 / d <= 100.0
    ensures c * 100.0 / d == 100.0 <==> c == d
    ensures c * 100.0 / d == 0.0 <==> c == 0.0
  {
    var p := c * 100.0 / d;
    assert p * d == c * 100.0;
    if c < d { Divided(c, d, d); }
  }

  /** All changes get older by one and count less. */
  lemma {:induction false} AgedChanges(w: seq<int>, state: int, n: nat)
    requires |w| >= 3 && 1 <= n < |w|
    ensures Changes(Slide(w, state), n) <= Changes(w, n + 1)
    ensures !AllSame(w, 1, n + 1) ==> Changes(Slide(w, state), n) < Changes(w, n + 1)
    decreases n
  {
    if n > 1 {
      AgedChanges(w, state, n - 1);
      WeightStep(n - 1, |w|);
      assert 0.5 / (|w| - 2) as real > 0.0;
      assert AllSame(w, 1, n + 1) <==> AllSame(w, 1, n) && w[n - 1] == w[n];
    } else {
      WeightStep(1, |w|);
    }
  }

  /** Recording the newest state again never makes the percentage rise, and makes it fall unless
      all changes have gone. */
  lemma RepeatCalms(w: seq<int>)
    requires |w| >= 3
    ensures Percent(Slide(w, w[|w| - 1])) <= Percent(w)
    ensures !AllSame(w, 0, |w|) ==> Percent(Slide(w, w[|w| - 1])) < Percent(w)
  {
    var n := |w|;
    var r := Slide(w, w[n - 1]);
    AgedChanges(w, w[n - 1], n - 1);
    assert Changes(r, n) == Changes(r, n - 1);
    if !AllSame(w, 0, n) && AllSame(w, 1, n) {
      OnlyFirstChange(w);
    }
    Divided(Changes(r, n), Changes(w, n), (n - 1) as real);
  }

  lemma Divided(a: real, b: real, d: real)
    requires d > 0.0 && a <= b
    ensures a * 100.0 / d <= b * 100.0 / d
    ensures a < b ==> a * 100.0 / d < b * 100.0 / d
  {
  }

  /** The only change is the oldest: it drops out of the window. */
  lemma OnlyFirstChange(w: seq<int>)
    requires |w| >= 3 && !AllSame(w, 0, |w|) && AllSame(w, 1, |w|)
    ensures Changes(Slide(w, w[|w| - 1]), |w| - 1) == 0.0 < Changes(w, |w|)
  {
    var n := |w|;
    var r := Slide(w, w[n - 1]);
    ChangesBounds(w, n);
    assert forall i :: 0 <= i < n - 1 ==> r[i] == w[i + 1];
    assert AllSame(r, 0, n - 1);
    ChangesBounds(r, n - 1);
  }

  /** One state less than the window holds, all like the newest one, and nothing is left. */
  lemma RepeatsSettle(w: seq<int>, states: seq<int>)
    requires |w| >= 3 && |states| == |w| - 1 && forall i :: 0 <= i < |states| ==> states[i] == w[|w| - 1]
    ensures Percent(SlideAll(w, states)) == 0.0
  {
    hide Percent, SlideAll;
    WindowIsLastStates(w, states);
    var r, u := SlideAll(w, states), w + states;
    forall i | 0 <= i < |r| ensures r[i] == w[|w| - 1] {
      assert r[i] == u[i + |states|];
    }
    PercentBounds(r);
  }

  // ---------- hysteresis ----------

  datatype Verdict = Undecided | Steady | Unsteady

  function Judge(percent: real, low: real, high: real): Verdict {
    if low < percent < high then Undecided
    else if percent <= low then Steady
    else if percent >= high then Unsteady
    else Steady
  }

  function FlappingAfter(flapping: bool, percent: real, low: real, high: real): bool {
    match Judge(percent, low, high)
    case Undecided => flapping
    case Steady => false
    case Unsteady => true
  }

  datatype Action = Start | Stop

  /** The flag after a run of percentages. */
  function Flag(flapping: bool, percents: seq<real>, low: real, high: real): bool {
    if percents == [] then flapping
    else FlappingAfter(Flag(flapping, percents[..|percents| - 1], low, high), percents[|percents| - 1], low, high)
  }

  function Switching(was: bool, now: bool): seq<Action> {
    if was == now then [] else if now then [Start] else [Stop]
  }

  /** The flap-start and flap-stop actions of a run. */
  function Actions(flapping: bool, percents: seq<real>, low: real, high: real): seq<Action> {
    if percents == [] then []
    else
      var was := Flag(flapping, percents[..|percents| - 1], low, high);
      var now := Flag(flapping, percents, low, high);
      Actions(flapping, percents[..|percents| - 1], low, high) + Switching(was, now)
  }

  ghost predicate StaysAbove(percents: seq<real>, from: nat, low: real) {
    forall j :: from <= j < |percents| ==> percents[j] > low
  }

  /** The high threshold is reached, and the low one not any more after that. */
  ghost predicate HasStarted(percents: seq<real>, low: real, high: real) {
    exists i :: 0 <= i < |percents| && percents[i] >= high && StaysAbove(percents, i + 1, low)
  }

  /** The law of hysteresis, over any run: an object is flapping exactly when some percentage was
      at the high threshold or above and all later ones were above the low one, or when it was
      flapping before and all were above the low one. */
  lemma {:induction false} Hysteresis(flapping: bool, percents: seq<real>, low: real, high: real)
    requires low < high
    ensures Flag(flapping, percents, low, high) <==>
      HasStarted(percents, low, high) || (flapping && StaysAbove(percents, 0, low))
    decreases |percents|
  {
    if percents != [] {
      var n := |percents| - 1;
      Hysteresis(flapping, percents[..n], low, high);
      HasStartedStep(percents, low, high);
      assert forall j :: 0 <= j < n ==> percents[..n][j] == percents[j];
      assert StaysAbove(percents, 0, low) ==> percents[n] > low;
      assert StaysAbove(percents, 0, low) ==> StaysAbove(percents[..n], 0, low);
    }
  }

  lemma HasStartedStep(percents: seq<real>, low: real, high: real)
    requires percents != []
    ensures var n := |percents| - 1;
      HasStarted(percents, low, high) <==>
        percents[n] >= high || (HasStarted(percents[..n], low, high) && percents[n] > low)
  {
    var n := |percents| - 1;
    if percents[n] >= high {
      assert StaysAbove(percents, n + 1, low);
    }
    if HasStarted(percents[..n], low, high) && percents[n] > low {
      var i :| 0 <= i < n && percents[..n][i] >= high && StaysAbove(percents[..n], i + 1, low);
      assert forall j :: 0 <= j < n ==> percents[..n][j] == percents[j];
      assert StaysAbove(percents, i + 1, low);
    }
    if HasStarted(percents, low, high) && percents[n] < high {
      var i :| 0 <= i < |percents| && percents[i] >= high && StaysAbove(percents, i + 1, low);
      assert i < n && percents[n] > low;
      assert forall j :: 0 <= j < n ==> percents[..n][j] == percents[j];
      assert percents[..n][i] >= high && StaysAbove(percents[..n], i + 1, low);
    }
  }

  /** Starts and stops take turns. */
  lemma {:induction false} ActionsAlternate(flapping: bool, percents: seq<real>, low: real, high: real)
    ensures var a := Actions(flapping, percents, low, high);
      && (forall i :: 0 < i < |a| ==> a[i] != a[i - 1])
      && (a != [] ==> (a[0] == Start <==> !flapping))
      && Flag(flapping, percents, low, high) == if a == [] then flapping else a[|a| - 1] == Start
    decreases |percents|
  {
    hide FlappingAfter, Flag, Actions;
    ActionsUnfold(flapping, percents, low, high);
    if percents != [] {
      ActionsAlternate(flapping, percents[..|percents| - 1], low, high);
    }
  }

  lemma ActionsUnfold(flapping: bool, percents: seq<real>, low: real, high: real)
    ensures percents == [] ==>
      Actions(flapping, percents, low, high) == [] && Flag(flapping, percents, low, high) == flapping
    ensures percents != [] ==>
      var front := percents[..|percents| - 1];
      var was, now := Flag(flapping, front, low, high), Flag(flapping, percents, low, high);
      Actions(flapping, percents, low, high) ==
        Actions(flapping, front, low, high) + Switching(was, now)
  {
  }

  /** The percentages while states are recorded one by one. */
  function Percents(w: seq<int>, states: seq<int>): (r: seq<real>)
    requires |w| >= 3
    ensures |r| == |states|
  {
    if states == [] then []
    else Percents(w, states[..|states| - 1]) + [Percent(SlideAll(w, states))]
  }

  /** A state that stays ends flapping: before the window is full of it, or just then. */
  lemma StableStateStops(w: seq<int>, states: seq<int>, flapping: bool, low: real, high: real)
    requires |w| >= 3 && 0.0 <= low < high && |states| == |w| - 1
    requires forall i :: 0 <= i < |states| ==> states[i] == w[|w| - 1]
    ensures !Flag(flapping, Percents(w, states), low, high)
  {
    RepeatsSettle(w, states);
    var p := Percents(w, states);
    assert p[|p| - 1] == 0.0;
  }

  /** And once it has ended it does not start again while the state stays. */
  lemma {:induction false} StableStateNeverStarts(w: seq<int>, states: seq<int>, low: real, high: real)
    requires |w| >= 3 && low < high && Percent(w) < high
    requires forall i :: 0 <= i < |states| ==> states[i] == w[|w| - 1]
    ensures !Flag(false, Percents(w, states), low, high)
    ensures Percent(SlideAll(w, states)) < high
    ensures SlideAll(w, states)[|w| - 1] == w[|w| - 1]
    decreases |states|
  {
    if states != [] {
      var front := states[..|states| - 1];
      StableStateNeverStarts(w, front, low, high);
      RepeatCalms(SlideAll(w, front));
      var p := Percents(w, states);
      assert p[..|p| - 1] == Percents(w, front);
    }
  }

  // ---------- the detector ----------

  datatype Notice = FlappingStart | FlappingStop | Recovery

  /** The notifications asked for when the flag goes from `was` to `now`. */
  function NoticesOf(was: bool, now: bool, allowStart: bool, recovered: bool): seq<Notice> {
    if was == now then []
    else if now then (if allowStart then [FlappingStart] else [])
    else if recovered then [FlappingStop, Recovery]
    else [FlappingStop]
  }

  datatype Settings = Settings(low: real, high: real, detectionEnabled: bool)

  /** What flap detection keeps of a host or service. */
  class Monitored {
    const stateHistory: array<int>
    const ignored: set<int>  // states with flap detection switched off
    const lowThreshold: real
    const highThreshold: real
    const detectionEnabled: bool
    var stateHistoryIndex: nat
    var lastHistoryUpdate: int
    var currentState: int
    var stateType: StateType
    var notificationNumber: nat
    var percentStateChange: real
    var isFlapping: bool
    var commentId: nat
    var checkRecovery: bool
    var comments: set<nat>  // the flapping comments there are
    var notices: seq<Notice>

    predicate Valid()
      reads this
    {
      3 <= stateHistory.Length && stateHistoryIndex < stateHistory.Length
    }

    /** A comment is there exactly while the object is flapping. */
    predicate Commented()
      reads this
    {
      if isFlapping then commentId != 0 && comments == {commentId}
      else commentId == 0 && comments == {} && !checkRecovery
    }

    constructor (size: nat, ignored: set<int>, lowThreshold: real, highThreshold: real, detectionEnabled: bool)
      requires size >= 3
      ensures Valid() && Commented() && !isFlapping && fresh(stateHistory)
      ensures Window() == seq(size, i => 0) && notices == []
    {
      stateHistory := new int[size](i => 0);
      this.ignored, this.detectionEnabled := ignored, detectionEnabled;
      this.lowThreshold, this.highThreshold := lowThreshold, highThreshold;
      stateHistoryIndex, lastHistoryUpdate, currentState, stateType, notificationNumber := 0, 0, 0, Hard, 0;
      percentStateChange, isFlapping, commentId, checkRecovery, comments, notices := 0.0, false, 0, false, {}, [];
    }

    /** The recorded states, oldest first. */
    function Window(): (w: seq<int>)
      requires Valid()
      reads this, stateHistory
      ensures |w| == stateHistory.Length
    {
      stateHistory[stateHistoryIndex..] + stateHistory[..stateHistoryIndex]
    }

    function Low(settings: Settings): real {
      if lowThreshold <= 0.0 then settings.low else lowThreshold
    }

    function High(settings: Settings): real {
      if highThreshold <= 0.0 then settings.high else highThreshold
    }

    method RecordState()
      requires Valid()
      modifies stateHistory, this`stateHistoryIndex
      ensures Valid() && Window() == Slide(old(Window()), currentState)
    {
      stateHistory[stateHistoryIndex] := currentState;
      stateHistoryIndex := stateHistoryIndex + 1;
      if stateHistoryIndex >= stateHistory.Length {
        stateHistoryIndex := 0;
      }
    }

    /** Goes through the ring once, from the oldest state on. */
    method CurvedPercentChange() returns (percent: real)
      requires Valid()
      ensures percent == Percent(Window())
    {
      var size, curvedChanges, last := stateHistory.Length, 0.0, 0;
      ghost var w := Window();
      var x, y := 0, stateHistoryIndex;
      while x < size
        invariant 0 <= x <= size && 0 <= y < size
        invariant y == if stateHistoryIndex + x < size then stateHistoryIndex + x else stateHistoryIndex + x - size
        invariant x > 0 ==> last == w[x - 1]
        invariant curvedChanges == Changes(w, x)
      {
        assert x < size ==> stateHistory[y] == w[x];
        if x > 0 && last != stateHistory[y] {
          curvedChanges := curvedChanges + ((x - 1) as real * (HIGH_CURVE - LOW_CURVE)) / (size - 2) as real
            + LOW_CURVE;
        }
        last := stateHistory[y];
        y := y + 1;
        if y >= size {
          y := 0;
        }
        x := x + 1;
      }
      percent := curvedChanges * 100.0 / (size - 1) as real;
    }

    /** `set_service_flap`, `set_host_flap`. */
    method SetFlap(allowStartNotification: bool, newCommentId: nat)
      requires newCommentId != 0
      modifies this`isFlapping, this`commentId, this`checkRecovery, this`comments, this`notices
      ensures isFlapping && commentId == newCommentId && comments == old(comments) + {newCommentId}
      ensures checkRecovery == (currentState != 0 && notificationNumber > 0)
      ensures notices == old(notices) + if allowStartNotification then [FlappingStart] else []
    {
      comments := comments + {newCommentId};
      commentId := newCommentId;
      isFlapping := true;
      if currentState != 0 && notificationNumber > 0 {
        checkRecovery := true;
      } else {
        checkRecovery := false;
      }
      if allowStartNotification {
        notices := notices + [FlappingStart];
      }
    }

    /** `clear_service_flap`, `clear_host_flap`. */
    method ClearFlap()
      modifies this`isFlapping, this`commentId, this`checkRecovery, this`comments, this`notices
      ensures !isFlapping && commentId == 0 && !checkRecovery
      ensures comments == if old(commentId) != 0 then old(comments) - {old(commentId)} else old(comments)
      ensures notices == old(notices) + [FlappingStop]
        + if old(checkRecovery) && currentState == 0 then [Recovery] else []
    {
      if commentId != 0 {
        comments := comments - {commentId};
      }
      commentId := 0;
      isFlapping := false;
      notices := notices + [FlappingStop];
      if checkRecovery && currentState == 0 {
        notices := notices + [Recovery];
      }
      checkRecovery := false;
    }

    /** What is common to both detectors: the percentage, then the decision. */
    method Detect(settings: Settings, allowStartNotification: bool, newCommentId: nat)
      requires Valid() && Commented() && newCommentId != 0
      modifies this`percentStateChange, this`isFlapping, this`commentId, this`checkRecovery, this`comments, this`notices
      ensures Valid() && Commented() && Window() == old(Window())
      ensures percentStateChange == Percent(Window())
      ensures var enabled := settings.detectionEnabled && detectionEnabled;
        var was, now := old(isFlapping), isFlapping;
        && now == (if enabled then FlappingAfter(was, Percent(Window()), Low(settings), High(settings)) else was)
        && notices == old(notices)
          + NoticesOf(was, now, allowStartNotification, old(checkRecovery) && currentState == 0)
      ensures var low, high := if lowThreshold > 0.0 then lowThreshold else settings.low,
          if highThreshold > 0.0 then highThreshold else settings.high;
        var enabled := settings.detectionEnabled && detectionEnabled;
        && (enabled && percentStateChange <= low ==> !isFlapping)
        && (enabled && low < percentStateChange && high <= percentStateChange ==> isFlapping)
        && (low < percentStateChange < high || !enabled ==> isFlapping == old(isFlapping))
      ensures old(isFlapping) == isFlapping ==> notices == old(notices)
      ensures !old(isFlapping) && isFlapping ==>
        notices == old(notices) + if allowStartNotification then [FlappingStart] else []
      ensures old(isFlapping) && !isFlapping ==>
        notices == old(notices) + [FlappingStop] + if old(checkRecovery) && currentState == 0 then [Recovery] else []
      ensures !old(isFlapping) && isFlapping ==> checkRecovery == (currentState != 0 && notificationNumber > 0)
      ensures old(isFlapping) && isFlapping ==> checkRecovery == old(checkRecovery) && commentId == old(commentId)
    {
      percentStateChange := CurvedPercentChange();
      if !settings.detectionEnabled {
        return;
      }
      if !detectionEnabled {
        return;
      }
      var low, high, flapping := Low(settings), High(settings), false;
      if percentStateChange > low && percentStateChange < high {
        return;
      } else if percentStateChange <= low {
        flapping := false;
      } else if percentStateChange >= high {
        flapping := true;
      }
      if flapping && !isFlapping {
        SetFlap(allowStartNotification, newCommentId);
      } else if !flapping && isFlapping {
        ClearFlap();
      }
    }

    /** `check_for_service_flapping`: soft problems are not looked at. */
    method CheckForServiceFlapping(update: bool, allowStartNotification: bool, settings: Settings, newCommentId: nat)
      requires Valid() && Commented() && newCommentId != 0
      modifies this, stateHistory
      ensures Valid() && Commented()
      ensures currentState == old(currentState) && stateType == old(stateType)
        && lastHistoryUpdate == old(lastHistoryUpdate)
      ensures stateType == Soft && currentState != 0 ==>
        Window() == old(Window()) && isFlapping == old(isFlapping) && notices == old(notices)
          && percentStateChange == old(percentStateChange)
      ensures stateType == Hard || currentState == 0 ==>
        && Window() == (if update && currentState !in ignored
                        then Slide(old(Window()), currentState) else old(Window()))
        && percentStateChange == Percent(Window())
        && isFlapping == (if settings.detectionEnabled && detectionEnabled
                          then FlappingAfter(old(isFlapping), Percent(Window()), Low(settings), High(settings))
                          else old(isFlapping))
        && notices == old(notices)
          + NoticesOf(old(isFlapping), isFlapping, allowStartNotification, old(checkRecovery) && currentState == 0)
    {
      if stateType == Soft && currentState != 0 {
        return;
      }
      if update && currentState !in ignored {
        RecordState();
      }
      Detect(settings, allowStartNotification, newCommentId);
    }

    /** `check_for_host_flapping`: without an actual check, states are only recorded now and then. */
    method CheckForHostFlapping(update: bool, actualCheck: bool, allowStartNotification: bool, settings: Settings,
                                currentTime: int, waitThreshold: nat, newCommentId: nat)
      requires Valid() && Commented() && newCommentId != 0
      modifies this, stateHistory
      ensures Valid() && Commented()
      ensures currentState == old(currentState)
      ensures var records := update && currentState !in ignored
        && (actualCheck || (currentTime - old(lastHistoryUpdate)) % WORD >= waitThreshold);
        && Window() == (if records then Slide(old(Window()), currentState) else old(Window()))
        && lastHistoryUpdate == (if records then currentTime else old(lastHistoryUpdate))
        && percentStateChange == Percent(Window())
        && isFlapping == (if settings.detectionEnabled && detectionEnabled
                          then FlappingAfter(old(isFlapping), Percent(Window()), Low(settings), High(settings))
                          else old(isFlapping))
        && notices == old(notices)
          + NoticesOf(old(isFlapping), isFlapping, allowStartNotification, old(checkRecovery) && currentState == 0)
    {
      var updateHistory := update;
      if updateHistory && currentState in ignored {
        updateHistory := false;
      }
      if updateHistory && !actualCheck && (currentTime - lastHistoryUpdate) % WORD < waitThreshold {
        updateHistory := false;
      }
      if updateHistory {
        lastHistoryUpdate := currentTime;
        RecordState();
      }
      Detect(settings, allowStartNotification, newCommentId);
    }
  }

  // ---------- whole runs ----------

  /** One call of a detector, with the state that the check before it has left. */
  datatype FlapCheck =
    | ServiceFlapCheck(state: int, stateType: StateType, notificationNumber: nat, update: bool, newCommentId: nat)
    | HostFlapCheck(state: int, notificationNumber: nat, update: bool, actualCheck: bool, currentTime: int,
                    waitThreshold: nat, newCommentId: nat)

  datatype History = History(window: seq<int>, lastUpdate: int)

  /** Soft problems of services are not looked at. */
  predicate IsSeen(c: FlapCheck) {
    c.ServiceFlapCheck? ==> c.stateType == Hard || c.state == 0
  }

  predicate IsRecorded(c: FlapCheck, lastUpdate: int, ignored: set<int>) {
    IsSeen(c) && c.update && c.state !in ignored
    && (c.HostFlapCheck? ==> c.actualCheck || (c.currentTime - lastUpdate) % WORD >= c.waitThreshold)
  }

  function HistoryAfter(h: History, c: FlapCheck, ignored: set<int>): (r: History)
    requires |h.window| >= 3
    ensures |r.window| == |h.window|
  {
    if IsRecorded(c, h.lastUpdate, ignored)
    then History(Slide(h.window, c.state), if c.HostFlapCheck? then c.currentTime else h.lastUpdate)
    else h
  }

  function HistoryRun(h: History, checks: seq<FlapCheck>, ignored: set<int>): (r: History)
    requires |h.window| >= 3
    ensures |r.window| == |h.window|
  {
    if checks == [] then h
    else HistoryAfter(HistoryRun(h, checks[..|checks| - 1], ignored), checks[|checks| - 1], ignored)
  }

  /** The percentages that the calls decide by. */
  function PercentsSeen(h: History, checks: seq<FlapCheck>, ignored: set<int>): seq<real>
    requires |h.window| >= 3
  {
    if checks == [] then []
    else
      var n := |checks| - 1;
      PercentsSeen(h, checks[..n], ignored) +
      if IsSeen(checks[n]) then [Percent(HistoryRun(h, checks, ignored).window)] else []
  }

  /** The starts and stops among the notices. */
  function StartsAndStops(notices: seq<Notice>): seq<Action> {
    if notices == [] then []
    else
      var last := notices[|notices| - 1];
      StartsAndStops(notices[..|notices| - 1]) +
      match last { case FlappingStart => [Start] case FlappingStop => [Stop] case Recovery => [] }
  }

  predicate Alternate(actions: seq<Action>, first: Action) {
    && (actions != [] ==> actions[0] == first)
    && forall i :: 0 < i < |actions| ==> actions[i] != actions[i - 1]
  }

  lemma StartsAndStopsAdded(notices: seq<Notice>, was: bool, now: bool, recovered: bool)
    ensures StartsAndStops(notices + NoticesOf(was, now, true, recovered)) ==
      StartsAndStops(notices) + Switching(was, now)
  {
    var added := NoticesOf(was, now, true, recovered);
    if added == [] {
      assert notices + added == notices;
    } else {
      assert (notices + [added[0]])[..|notices|] == notices;
      if |added| == 2 {
        assert (notices + added)[..|notices| + 1] == notices + [added[0]];
      }
    }
  }

  lemma RunStep(h: History, checks: seq<FlapCheck>, i: nat, ignored: set<int>)
    requires |h.window| >= 3 && i < |checks|
    ensures HistoryRun(h, checks[..i + 1], ignored)
      == HistoryAfter(HistoryRun(h, checks[..i], ignored), checks[i], ignored)
    ensures PercentsSeen(h, checks[..i + 1], ignored) == PercentsSeen(h, checks[..i], ignored) +
      if IsSeen(checks[i]) then [Percent(HistoryRun(h, checks[..i + 1], ignored).window)] else []
  {
    assert checks[..i + 1][..i] == checks[..i];
  }

  lemma FlagStep(flapping: bool, percents: seq<real>, p: real, low: real, high: real)
    ensures var was, now := Flag(flapping, percents, low, high),
      FlappingAfter(Flag(flapping, percents, low, high), p, low, high);
      && Flag(flapping, percents + [p], low, high) == now
      && Actions(flapping, percents + [p], low, high) ==
           Actions(flapping, percents, low, high) + Switching(was, now)
  {
    assert (percents + [p])[..|percents|] == percents;
  }

  /** One call of the detector in question. */
  method PerformCheck(m: Monitored, c: FlapCheck, settings: Settings)
    requires m.Valid() && m.Commented() && c.newCommentId != 0
    requires settings.detectionEnabled && m.detectionEnabled
    modifies m, m.stateHistory
    ensures m.Valid() && m.Commented()
    ensures History(m.Window(), m.lastHistoryUpdate)
      == HistoryAfter(old(History(m.Window(), m.lastHistoryUpdate)), c, m.ignored)
    ensures m.isFlapping == if IsSeen(c)
      then FlappingAfter(old(m.isFlapping), Percent(m.Window()), m.Low(settings), m.High(settings))
      else old(m.isFlapping)
    ensures exists recovered ::
      m.notices == old(m.notices) + NoticesOf(old(m.isFlapping), m.isFlapping, true, recovered)
  {
    hide Percent, FlappingAfter, Slide;
    m.currentState, m.notificationNumber := c.state, c.notificationNumber;
    ghost var recovered := m.checkRecovery && m.currentState == 0;
    ghost var before, was := m.notices, m.isFlapping;
    match c {
      case ServiceFlapCheck(_, stateType, _, update, newCommentId) =>
        m.stateType := stateType;
        m.CheckForServiceFlapping(update, true, settings, newCommentId);
      case HostFlapCheck(_, _, update, actualCheck, currentTime, waitThreshold, newCommentId) =>
        m.CheckForHostFlapping(update, actualCheck, true, settings, currentTime, waitThreshold, newCommentId);
    }
    assert m.notices == before + NoticesOf(was, m.isFlapping, true, recovered);
  }

  /** Any run of checks with detection enabled: the flag follows the percentages of the window by the
      law of hysteresis, and the start and stop notifications asked for take turns. */
  method PerformChecks(m: Monitored, checks: seq<FlapCheck>, settings: Settings)
    requires m.Valid() && m.Commented() && forall i :: 0 <= i < |checks| ==> checks[i].newCommentId != 0
    requires settings.detectionEnabled && m.detectionEnabled
    modifies m, m.stateHistory
    ensures m.Valid() && m.Commented() && old(m.notices) <= m.notices
    ensures var h := old(History(m.Window(), m.lastHistoryUpdate));
      var percents := PercentsSeen(h, checks, m.ignored);
      && m.Window() == HistoryRun(h, checks, m.ignored).window
      && m.isFlapping == Flag(old(m.isFlapping), percents, m.Low(settings), m.High(settings))
      && StartsAndStops(m.notices[|old(m.notices)|..])
        == Actions(old(m.isFlapping), percents, m.Low(settings), m.High(settings))
    ensures Alternate(StartsAndStops(m.notices[|old(m.notices)|..]), if old(m.isFlapping) then Stop else Start)
  {
    hide Percent, FlappingAfter, HistoryAfter, PercentsSeen, Actions, Flag, StartsAndStops, HistoryRun, NoticesOf;
    ghost var h, was := History(m.Window(), m.lastHistoryUpdate), m.isFlapping;
    ghost var low, high := m.Low(settings), m.High(settings);
    ghost var percents, added: seq<Notice> := [], [];
    NothingYet(h, was, m.ignored, low, high);
    assert checks[..0] == [];
    for i := 0 to |checks|
      invariant m.Valid() && m.Commented()
      invariant m.notices == old(m.notices) + added
      invariant History(m.Window(), m.lastHistoryUpdate) == HistoryRun(h, checks[..i], m.ignored)
      invariant percents == PercentsSeen(h, checks[..i], m.ignored)
      invariant m.isFlapping == Flag(was, percents, low, high)
      invariant StartsAndStops(added) == Actions(was, percents, low, high)
    {
      ghost var flag, notices := m.isFlapping, m.notices;
      RunStep(h, checks, i, m.ignored);
      PerformCheck(m, checks[i], settings);
      ghost var recovered :| m.notices == notices + NoticesOf(flag, m.isFlapping, true, recovered);
      StartsAndStopsAdded(added, flag, m.isFlapping, recovered);
      added := added + NoticesOf(flag, m.isFlapping, true, recovered);
      if IsSeen(checks[i]) {
        FlagStep(was, percents, Percent(m.Window()), low, high);
        percents := percents + [Percent(m.Window())];
      }
    }
    assert checks[..|checks|] == checks;
    assert m.notices[|old(m.notices)|..] == added;
    ActionsAlternate(was, percents, low, high);
  }

  lemma NothingYet(h: History, flapping: bool, ignored: set<int>, low: real, high: real)
    requires |h.window| >= 3
    ensures HistoryRun(h, [], ignored) == h && PercentsSeen(h, [], ignored) == []
    ensures Flag(flapping, [], low, high) == flapping && Actions(flapping, [], low, high) == []
      && StartsAndStops([]) == []
  {
  }
}
