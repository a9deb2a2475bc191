/** Service and host dependencies (`check_service_dependencies`, `check_host_dependencies`,
    base/checks.c). The two walk different tables in the same way; state 0 is OK or up. */
module Dependencies {
  import opened Common
  import opened CheckStates
  import opened Graphs

  datatype DependencyType = NotificationDependency | ExecutionDependency

  /** One dependency of an object on its master. `excluded` says that there is a dependency period
      and the current time is not in it. */
  datatype Dependency<T> = Dependency(kind: DependencyType, master: Option<T>, excluded: bool,
                                      failOn: set<int>, failOnPending: bool, inheritsParent: bool)

  /** What is looked at in a master. */
  datatype MasterState = MasterState(current: int, lastHard: int, stateType: StateType, hasBeenChecked: bool)

  /** All dependencies, by dependent object, in the order in which they are looked at. */
  type Table<T(==)> = map<T, seq<Dependency<T>>>

  // ---------- the meaning ----------

  predicate Relevant<T>(d: Dependency<T>, kind: DependencyType) {
    d.kind == kind && d.master.Some?
  }

  /** The state that counts: the last hard one for a soft state, unless soft ones are to be used. */
  function Effective(m: MasterState, softStates: bool): int {
    if m.stateType == Soft && !softStates then m.lastHard else m.current
  }

  /** Whether a state of the master fails a dependency; `checked` is false for a pending master. */
  predicate Catches<T>(d: Dependency<T>, state: int, checked: bool) {
    state in d.failOn || (state == 0 && !checked && d.failOnPending)
  }

  predicate FailsDirectly<T>(d: Dependency<T>, m: MasterState, softStates: bool) {
    Catches(d, Effective(m, softStates), m.hasBeenChecked)
  }

  /** What is done at a dependency outside its period: the code ends the whole check there, while
      its comment says that the dependency is skipped. */
  datatype Excluded = EndsTheCheck | IsSkipped

  /** The `i`-th dependency is looked at. */
  predicate Considered<T>(ds: seq<Dependency<T>>, i: nat, kind: DependencyType, rule: Excluded) {
    && i < |ds| && Relevant(ds[i], kind) && !ds[i].excluded
    && (rule.EndsTheCheck? ==> forall j :: 0 <= j < i && Relevant(ds[j], kind) ==> !ds[j].excluded)
  }

  /** Dependencies taken one after the other, every one but the last handing on to its master's
      dependencies. */
  ghost predicate IsChain<T>(g: Table<T>, o: T, p: seq<nat>, kind: DependencyType, rule: Excluded)
    decreases |p|
  {
    && p != [] && o in g && Considered(g[o], p[0], kind, rule)
    && (|p| > 1 ==> g[o][p[0]].inheritsParent && IsChain(g, g[o][p[0]].master.value, p[1..], kind, rule))
  }

  /** The last dependency of a chain. */
  ghost function EndOf<T>(g: Table<T>, o: T, p: seq<nat>, kind: DependencyType, rule: Excluded): (d: Dependency<T>)
    requires IsChain(g, o, p, kind, rule)
    ensures Relevant(d, kind)
    decreases |p|
  {
    if |p| == 1 then g[o][p[0]] else EndOf(g, g[o][p[0]].master.value, p[1..], kind, rule)
  }

  /** A chain whose last dependency fails. */
  ghost predicate FailingChain<T>(g: Table<T>, states: map<T, MasterState>, o: T, p: seq<nat>, kind: DependencyType,
                                  softStates: bool, rule: Excluded)
  {
    && IsChain(g, o, p, kind, rule)
    && var d := EndOf(g, o, p, kind, rule);
    d.master.value in states && FailsDirectly(d, states[d.master.value], softStates)
  }

  ghost predicate Fails<T>(g: Table<T>, states: map<T, MasterState>, o: T, kind: DependencyType, softStates: bool,
                           rule: Excluded) {
    exists p: seq<nat> :: FailingChain(g, states, o, p, kind, softStates, rule)
  }

  // ---------- the graph the recursion follows ----------

  function Inherited<T>(ds: seq<Dependency<T>>, kind: DependencyType): seq<T> {
    if ds == [] then []
    else
      var d := ds[|ds| - 1];
      Inherited(ds[..|ds| - 1], kind) + if Relevant(d, kind) && d.inheritsParent then [d.master.value] else []
  }

  ghost function LinksOf<T>(g: Table<T>, kind: DependencyType): Links<T> {
    map o | o in g :: Inherited(g[o], kind)
  }

  ghost predicate MastersKnown<T>(g: Table<T>) {
    forall o, i {:trigger g[o][i]} :: o in g && 0 <= i < |g[o]| && g[o][i].master.Some? ==> g[o][i].master.value in g
  }

  lemma {:induction false} InheritedMembers<T>(ds: seq<Dependency<T>>, kind: DependencyType)
    ensures forall i :: 0 <= i < |ds| && Relevant(ds[i], kind) && ds[i].inheritsParent ==>
      ds[i].master.value in Inherited(ds, kind)
    ensures forall c :: c in Inherited(ds, kind) ==>
      exists i :: 0 <= i < |ds| && Relevant(ds[i], kind) && ds[i].inheritsParent && ds[i].master.value == c
    decreases |ds|
  {
    if ds != [] {
      var front := ds[..|ds| - 1];
      InheritedMembers(front, kind);
      assert forall i :: 0 <= i < |front| ==> front[i] == ds[i];
      forall c | c in Inherited(front, kind)
        ensures exists i :: 0 <= i < |ds| && Relevant(ds[i], kind) && ds[i].inheritsParent && ds[i].master.value == c
      {
        var i :| 0 <= i < |front| && Relevant(front[i], kind) && front[i].inheritsParent && front[i].master.value == c;
        assert ds[i] == front[i];
      }
    }
  }

  lemma LinksClosed<T>(g: Table<T>, kind: DependencyType)
    requires MastersKnown(g)
    ensures Closed(LinksOf(g, kind))
  {
    forall o, c | o in g && c in Inherited(g[o], kind) ensures c in g {
      InheritedMembers(g[o], kind);
      var i :| 0 <= i < |g[o]| && Relevant(g[o][i], kind) && g[o][i].inheritsParent && g[o][i].master.value == c;
      assert g[o][i].master.value in g;
    }
  }

  /** Following an inherited dependency gets closer to the end of an acyclic graph. */
  lemma RecursionShrinks<T>(g: Table<T>, o: T, i: nat, kind: DependencyType)
    requires MastersKnown(g) && o in g && i < |g[o]| && Relevant(g[o][i], kind) && g[o][i].inheritsParent
    requires !ReachesCycle(LinksOf(g, kind), o)
    ensures var m := g[o][i].master.value;
      m in g && !ReachesCycle(LinksOf(g, kind), m)
        && Descendants(LinksOf(g, kind), m) < Descendants(LinksOf(g, kind), o)
  {
    LinksClosed(g, kind);
    InheritedMembers(g[o], kind);
    var d := g[o][i];
    DescendantsShrink(LinksOf(g, kind), o, d.master.value);
  }

  // ---------- the check ----------

  class Node {
    const dependencies: seq<Dependency<Node>>
    var currentState: int
    var lastHardState: int
    var stateType: StateType
    var hasBeenChecked: bool

    constructor (dependencies: seq<Dependency<Node>>)
      ensures this.dependencies == dependencies
    {
      this.dependencies := dependencies;
      currentState, lastHardState, stateType, hasBeenChecked := 0, 0, Hard, false;
    }

    function GetState(): MasterState
      reads this
    {
      MasterState(currentState, lastHardState, stateType, hasBeenChecked)
    }
  }

  ghost function StatesOf(nodes: set<Node>): map<Node, MasterState>
    reads nodes
  {
    map n | n in nodes :: n.GetState()
  }

  ghost predicate Configured(g: Table<Node>) {
    MastersKnown<Node>(g) && forall n :: n in g ==> n.dependencies == g[n]
  }

  /** What one dependency contributes to the chains from its object. */
  lemma ChainsThrough<T>(g: Table<T>, states: map<T, MasterState>, o: T, i: nat, kind: DependencyType, softStates: bool)
    requires o in g && Considered(g[o], i, kind, EndsTheCheck) && g[o][i].master.value in states
    ensures var d := g[o][i];
      (exists p: seq<nat> :: p != [] && p[0] == i && FailingChain(g, states, o, p, kind, softStates, EndsTheCheck)) <==>
        || FailsDirectly(d, states[d.master.value], softStates)
        || (d.inheritsParent && Fails(g, states, d.master.value, kind, softStates, EndsTheCheck))
  {
    var d := g[o][i];
    if FailsDirectly(d, states[d.master.value], softStates) {
      var p: seq<nat> := [i];
      assert FailingChain(g, states, o, p, kind, softStates, EndsTheCheck);
    }
    if p: seq<nat> :| p != [] && p[0] == i && FailingChain(g, states, o, p, kind, softStates, EndsTheCheck) && |p| > 1 {
      assert FailingChain(g, states, d.master.value, p[1..], kind, softStates, EndsTheCheck);
    }
    if d.inheritsParent && Fails(g, states, d.master.value, kind, softStates, EndsTheCheck) {
      var q: seq<nat> :| FailingChain(g, states, d.master.value, q, kind, softStates, EndsTheCheck);
      var p: seq<nat> := [i] + q;
      assert p[1..] == q;
      assert FailingChain(g, states, o, p, kind, softStates, EndsTheCheck);
    }
  }

  /** No chain starts with one of the first `i` dependencies. */
  ghost predicate NoneBefore<T>(g: Table<T>, states: map<T, MasterState>, o: T, i: nat, kind: DependencyType,
                                softStates: bool) {
    forall p: seq<nat> :: p != [] && p[0] < i ==> !FailingChain(g, states, o, p, kind, softStates, EndsTheCheck)
  }

  ghost predicate NoneExcludedBefore<T>(ds: seq<Dependency<T>>, i: nat, kind: DependencyType)
    requires i <= |ds|
  {
    forall j :: 0 <= j < i && Relevant(ds[j], kind) ==> !ds[j].excluded
  }

  /** A dependency that is passed over, or ends the check, starts no chain. */
  lemma NotConsidered<T>(g: Table<T>, states: map<T, MasterState>, o: T, i: nat, kind: DependencyType, softStates: bool)
    requires o in g && i < |g[o]| && NoneBefore(g, states, o, i, kind, softStates)
    ensures !Relevant(g[o][i], kind) ==> NoneBefore(g, states, o, i + 1, kind, softStates)
    ensures Relevant(g[o][i], kind) && g[o][i].excluded ==> !Fails(g, states, o, kind, softStates, EndsTheCheck)
  {
    forall p: seq<nat> | p != [] && p[0] >= i && Relevant(g[o][i], kind) && g[o][i].excluded
      ensures !FailingChain(g, states, o, p, kind, softStates, EndsTheCheck)
    {
      assert !Considered(g[o], p[0], kind, EndsTheCheck);
    }
  }

  /** After the last dependency. */
  lemma NoneAtAll<T>(g: Table<T>, states: map<T, MasterState>, o: T, kind: DependencyType, softStates: bool)
    requires o in g && NoneBefore(g, states, o, |g[o]|, kind, softStates)
    ensures !Fails(g, states, o, kind, softStates, EndsTheCheck)
  {
  }

  /** The dependencies of `o` itself, from the fields of their masters: a soft state counts only when soft
      states are to be used, the pending rule needs state 0, and nothing counts behind an excluded
      dependency of the kind. When none is inherited, nothing else fails `o`. */
  lemma DirectFailures(o: Node, kind: DependencyType, softStates: bool, g: Table<Node>)
    requires Configured(g) && o in g
    ensures
      var ds := o.dependencies;
      var fails := Fails<Node>(g, StatesOf(g.Keys), o, kind, softStates, EndsTheCheck);
      var direct := exists i | 0 <= i < |ds| :: (
        && ds[i].kind == kind && ds[i].master.Some?
        && (forall j :: 0 <= j <= i && ds[j].kind == kind && ds[j].master.Some? ==> !ds[j].excluded)
        && (var m, pendingFails := ds[i].master.value, ds[i].failOnPending && !ds[i].master.value.hasBeenChecked;
            if m.stateType == Soft && !softStates
            then m.lastHardState in ds[i].failOn || (m.lastHardState == 0 && pendingFails)
            else m.currentState in ds[i].failOn || (m.currentState == 0 && pendingFails)));
      (direct ==> fails) && ((forall d :: d in ds ==> !d.inheritsParent) ==> (fails ==> direct))
  {
    hide FailingChain, ReachesCycle;
    var ds, states := o.dependencies, StatesOf(g.Keys);
    forall i | 0 <= i < |ds| && Considered(ds, i, kind, EndsTheCheck)
        && FailsDirectly(ds[i], states[ds[i].master.value], softStates)
      ensures Fails<Node>(g, states, o, kind, softStates, EndsTheCheck)
    {
      ChainsThrough<Node>(g, states, o, i, kind, softStates);
      FailsThrough<Node>(g, states, o, i, kind, softStates);
    }
    if Fails<Node>(g, states, o, kind, softStates, EndsTheCheck) && (forall d :: d in ds ==> !d.inheritsParent) {
      var p: seq<nat> :| FailingChain<Node>(g, states, o, p, kind, softStates, EndsTheCheck);
      FirstOfChain<Node>(g, states, o, p, kind, softStates);
      ChainsThrough<Node>(g, states, o, p[0], kind, softStates);
      assert FailsDirectly(ds[p[0]], states[ds[p[0]].master.value], softStates);
    }
  }

  lemma FirstOfChain<T>(g: Table<T>, states: map<T, MasterState>, o: T, p: seq<nat>, kind: DependencyType,
                        softStates: bool)
    requires FailingChain(g, states, o, p, kind, softStates, EndsTheCheck)
    ensures p != [] && o in g && Considered(g[o], p[0], kind, EndsTheCheck)
  {
  }

  /** `check_service_dependencies`, `check_host_dependencies`. */
  method CheckDependencies(o: Node, kind: DependencyType, softStates: bool, ghost g: Table<Node>) returns (failed: bool)
    requires Configured(g) && o in g && !ReachesCycle<Node>(LinksOf<Node>(g, kind), o)
    ensures failed <==> Fails<Node>(g, StatesOf(g.Keys), o, kind, softStates, EndsTheCheck)
    decreases Descendants<Node>(LinksOf<Node>(g, kind), o)
  {
    hide ReachesCycle, Descendants, LinksOf, FailingChain, Fails, NoneBefore;
    ghost var states := StatesOf(g.Keys);
    NoneAtStart<Node>(g, states, o, kind, softStates);
    for i := 0 to |o.dependencies|
      invariant NoneBefore<Node>(g, states, o, i, kind, softStates)
      invariant NoneExcludedBefore<Node>(g[o], i, kind)
    {
      var d := o.dependencies[i];
      NotConsidered<Node>(g, states, o, i, kind, softStates);
      if d.kind == kind && d.master.Some? {
        var master: Node := d.master.value;
        if d.excluded {
          return false;
        }
        assert states[master] == master.GetState();
        ChainsThrough<Node>(g, states, o, i, kind, softStates);
        var state := if master.stateType == Soft && !softStates then master.lastHardState else master.currentState;
        if state in d.failOn {
          FailsThrough<Node>(g, states, o, i, kind, softStates);
          return true;
        }
        if state == 0 && !master.hasBeenChecked && d.failOnPending {
          FailsThrough<Node>(g, states, o, i, kind, softStates);
          return true;
        }
        if d.inheritsParent {
          RecursionShrinks<Node>(g, o, i, kind);
          var parentFailed := CheckDependencies(master, kind, softStates, g);
          if parentFailed {
            FailsThrough<Node>(g, states, o, i, kind, softStates);
            return true;
          }
        }
        PassedBy<Node>(g, states, o, i, kind, softStates);
      }
    }
    NoneAtAll<Node>(g, states, o, kind, softStates);
    return false;
  }

  lemma NoneAtStart<T>(g: Table<T>, states: map<T, MasterState>, o: T, kind: DependencyType, softStates: bool)
    ensures NoneBefore(g, states, o, 0, kind, softStates)
  {
  }

  lemma FailsThrough<T>(g: Table<T>, states: map<T, MasterState>, o: T, i: nat, kind: DependencyType, softStates: bool)
    requires exists p: seq<nat> :: p != [] && p[0] == i && FailingChain(g, states, o, p, kind, softStates, EndsTheCheck)
    ensures Fails(g, states, o, kind, softStates, EndsTheCheck)
  {
  }

  lemma PassedBy<T>(g: Table<T>, states: map<T, MasterState>, o: T, i: nat, kind: DependencyType, softStates: bool)
    requires NoneBefore(g, states, o, i, kind, softStates)
    requires forall p: seq<nat> ::
      p != [] && p[0] == i ==> !FailingChain(g, states, o, p, kind, softStates, EndsTheCheck)
    ensures NoneBefore(g, states, o, i + 1, kind, softStates)
  {
  }

  // ---------- excluded dependencies ----------

  /** Some chain from `o` ends at a dependency on `m` that this state of `m` fails. */
  ghost predicate Caught<T>(g: Table<T>, o: T, kind: DependencyType, m: T, state: int, checked: bool, rule: Excluded) {
    exists p: seq<nat> :: IsChain(g, o, p, kind, rule)
      && EndOf(g, o, p, kind, rule).master.value == m && Catches(EndOf(g, o, p, kind, rule), state, checked)
  }

  /** Every state that `m` can be in is caught: the check fails whatever happens. */
  ghost predicate AlwaysCaught<T>(g: Table<T>, o: T, kind: DependencyType, m: T, valid: set<int>) {
    forall state, checked :: state in valid ==> Caught(g, o, kind, m, state, checked, EndsTheCheck)
  }

  /** The configuration loses no failure: all that is caught by skipping is also caught by ending
      the check, or the check always fails anyway. */
  ghost predicate Covered<T>(g: Table<T>, o: T, kind: DependencyType, valid: set<int>) {
    || (exists m :: m in g && AlwaysCaught(g, o, kind, m, valid))
    || (forall m, state, checked :: m in g && state in valid && Caught(g, o, kind, m, state, checked, IsSkipped) ==>
          Caught(g, o, kind, m, state, checked, EndsTheCheck))
  }

  /** Every master has a state, and only states that there are; `valid` is 0 to 3 for services and
      0 to 2 for hosts. */
  ghost predicate Possible<T>(g: Table<T>, states: map<T, MasterState>, valid: set<int>) {
    && states.Keys == g.Keys
    && forall m {:trigger states[m]} :: m in states ==> states[m].current in valid && states[m].lastHard in valid
  }

  /** Failing, seen from the masters: some master is in a state that is caught. */
  lemma FailsByMaster<T>(g: Table<T>, states: map<T, MasterState>, o: T, kind: DependencyType, softStates: bool,
                         rule: Excluded)
    ensures Fails(g, states, o, kind, softStates, rule) <==>
      exists m :: m in states && Caught(g, o, kind, m, Effective(states[m], softStates), states[m].hasBeenChecked, rule)
  {
    if Fails(g, states, o, kind, softStates, rule) {
      var p: seq<nat> :| FailingChain(g, states, o, p, kind, softStates, rule);
      var m := EndOf(g, o, p, kind, rule).master.value;
      assert Caught(g, o, kind, m, Effective(states[m], softStates), states[m].hasBeenChecked, rule);
    }
    if m :| m in states && Caught(g, o, kind, m, Effective(states[m], softStates), states[m].hasBeenChecked, rule) {
      var p: seq<nat> :| IsChain(g, o, p, kind, rule) && EndOf(g, o, p, kind, rule).master.value == m
        && Catches(EndOf(g, o, p, kind, rule), Effective(states[m], softStates), states[m].hasBeenChecked);
      assert FailingChain(g, states, o, p, kind, softStates, rule);
    }
  }

  /** Ending the check follows no chain that skipping does not. */
  lemma {:induction false} EndingIsSkipping<T>(g: Table<T>, o: T, p: seq<nat>, kind: DependencyType)
    requires IsChain(g, o, p, kind, EndsTheCheck)
    ensures IsChain(g, o, p, kind, IsSkipped) && EndOf(g, o, p, kind, IsSkipped) == EndOf(g, o, p, kind, EndsTheCheck)
    decreases |p|
  {
    if |p| > 1 { EndingIsSkipping(g, g[o][p[0]].master.value, p[1..], kind); }
  }

  /** Ending the check at an excluded dependency never adds a failure. */
  lemma EndingAddsNoFailure<T>(g: Table<T>, states: map<T, MasterState>, o: T, kind: DependencyType, softStates: bool)
    requires Fails(g, states, o, kind, softStates, EndsTheCheck)
    ensures Fails(g, states, o, kind, softStates, IsSkipped)
  {
    var p: seq<nat> :| FailingChain(g, states, o, p, kind, softStates, EndsTheCheck);
    EndingIsSkipping(g, o, p, kind);
    assert FailingChain(g, states, o, p, kind, softStates, IsSkipped);
  }

  /** A state of `n` that the check lets pass. */
  ghost function PassingState<T>(g: Table<T>, o: T, kind: DependencyType, n: T, valid: set<int>): (s: MasterState)
    requires !AlwaysCaught(g, o, kind, n, valid)
    ensures s.stateType == Hard && s.current == s.lastHard && s.current in valid
    ensures !Caught(g, o, kind, n, s.current, s.hasBeenChecked, EndsTheCheck)
  {
    var state, checked :| state in valid && !Caught(g, o, kind, n, state, checked, EndsTheCheck);
    MasterState(state, state, Hard, checked)
  }

  /** A failure that is lost: one master is in the state in question, all others in one that passes. */
  lemma LosingStates<T>(g: Table<T>, o: T, kind: DependencyType, softStates: bool, valid: set<int>, m: T, state: int,
                        checked: bool)
      returns (states: map<T, MasterState>)
    requires m in g && state in valid && forall n :: n in g ==> !AlwaysCaught(g, o, kind, n, valid)
    requires Caught(g, o, kind, m, state, checked, IsSkipped) && !Caught(g, o, kind, m, state, checked, EndsTheCheck)
    ensures Possible(g, states, valid)
    ensures Fails(g, states, o, kind, softStates, IsSkipped) && !Fails(g, states, o, kind, softStates, EndsTheCheck)
  {
    hide Caught, AlwaysCaught, Fails;
    var lost := MasterState(state, state, Hard, checked);
    states := map n | n in g :: if n == m then lost else PassingState(g, o, kind, n, valid);
    FailsByMaster(g, states, o, kind, softStates, IsSkipped);
    FailsByMaster(g, states, o, kind, softStates, EndsTheCheck);
    assert states[m] == lost;
  }

  /** When ending the check at an excluded dependency comes to the same as skipping it, whatever the
      states: exactly when the configuration loses no failure. */
  lemma EndingIsSkippingExactly<T>(g: Table<T>, o: T, kind: DependencyType, softStates: bool, valid: set<int>)
    ensures (forall states :: Possible(g, states, valid) ==>
        (Fails(g, states, o, kind, softStates, EndsTheCheck) <==> Fails(g, states, o, kind, softStates, IsSkipped)))
      <==> Covered(g, o, kind, valid)
  {
    hide Caught, Fails;
    if Covered(g, o, kind, valid) {
      forall states | Possible(g, states, valid)
        ensures Fails(g, states, o, kind, softStates, EndsTheCheck) <==>
          Fails(g, states, o, kind, softStates, IsSkipped)
      {
        CoveredLosesNothing(g, states, o, kind, softStates, valid);
      }
    } else {
      var m, state, checked :| m in g && state in valid
        && Caught(g, o, kind, m, state, checked, IsSkipped) && !Caught(g, o, kind, m, state, checked, EndsTheCheck);
      var states := LosingStates(g, o, kind, softStates, valid, m, state, checked);
    }
  }

  lemma CoveredLosesNothing<T>(g: Table<T>, states: map<T, MasterState>, o: T, kind: DependencyType, softStates: bool,
                               valid: set<int>)
    requires Covered(g, o, kind, valid) && Possible(g, states, valid)
    ensures Fails(g, states, o, kind, softStates, EndsTheCheck) <==> Fails(g, states, o, kind, softStates, IsSkipped)
  {
    hide Caught, Fails;
    FailsByMaster(g, states, o, kind, softStates, IsSkipped);
    FailsByMaster(g, states, o, kind, softStates, EndsTheCheck);
    if Fails(g, states, o, kind, softStates, EndsTheCheck) { EndingAddsNoFailure(g, states, o, kind, softStates); }
    if m :| m in g && AlwaysCaught(g, o, kind, m, valid) {
      assert Caught(g, o, kind, m, Effective(states[m], softStates), states[m].hasBeenChecked, EndsTheCheck);
    }
  }

  /** Behind an excluded dependency of the type in question there is none that is not. */
  ghost predicate ExcludedLast<T>(g: Table<T>, kind: DependencyType) {
    forall o, i, j {:trigger g[o][i], g[o][j]} ::
      o in g && 0 <= i < j < |g[o]| && Relevant(g[o][i], kind) && Relevant(g[o][j], kind) && g[o][i].excluded
      ==> g[o][j].excluded
  }

  lemma {:induction false} SkippingIsEnding<T>(g: Table<T>, o: T, p: seq<nat>, kind: DependencyType)
    requires ExcludedLast(g, kind) && IsChain(g, o, p, kind, IsSkipped)
    ensures IsChain(g, o, p, kind, EndsTheCheck)
      && EndOf(g, o, p, kind, EndsTheCheck) == EndOf(g, o, p, kind, IsSkipped)
    decreases |p|
  {
    if |p| > 1 { SkippingIsEnding(g, g[o][p[0]].master.value, p[1..], kind); }
  }

  /** So nothing is lost in particular when the excluded dependencies come last, or there are none. */
  lemma ExcludedLastIsCovered<T>(g: Table<T>, o: T, kind: DependencyType, valid: set<int>)
    requires ExcludedLast(g, kind)
    ensures Covered(g, o, kind, valid)
  {
    forall m, state, checked | Caught(g, o, kind, m, state, checked, IsSkipped)
      ensures Caught(g, o, kind, m, state, checked, EndsTheCheck)
    {
      var p: seq<nat> :| IsChain(g, o, p, kind, IsSkipped) && EndOf(g, o, p, kind, IsSkipped).master.value == m
        && Catches(EndOf(g, o, p, kind, IsSkipped), state, checked);
      SkippingIsEnding(g, o, p, kind);
    }
  }

  /** A failure can be lost: an excluded dependency in front of one that fails. */
  lemma FailureLost()
    ensures var g: Table<nat> := map[0 := [Dependency(NotificationDependency, Some(1), true, {}, false, false),
                                           Dependency(NotificationDependency, Some(1), false, {2}, false, false)],
                                     1 := []];
      var states := map[0 := MasterState(0, 0, Hard, true), 1 := MasterState(2, 2, Hard, true)];
      && !Fails<nat>(g, states, 0, NotificationDependency, false, EndsTheCheck)
      && Fails<nat>(g, states, 0, NotificationDependency, false, IsSkipped)
  {
    var g: Table<nat> := map[0 := [Dependency(NotificationDependency, Some(1), true, {}, false, false),
                                   Dependency(NotificationDependency, Some(1), false, {2}, false, false)],
                             1 := []];
    var states := map[0 := MasterState(0, 0, Hard, true), 1 := MasterState(2, 2, Hard, true)];
    forall p: seq<nat> ensures !FailingChain<nat>(g, states, 0, p, NotificationDependency, false, EndsTheCheck) {
      if p != [] {
        assert Relevant(g[0][0], NotificationDependency) && g[0][0].excluded;
        assert !Considered(g[0], p[0], NotificationDependency, EndsTheCheck);
      }
    }
    var p: seq<nat> := [1];
    assert FailingChain<nat>(g, states, 0, p, NotificationDependency, false, IsSkipped);
  }
}
