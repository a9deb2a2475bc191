/** Down and unreachable over the whole host graph (`determine_host_reachability`, base/checks.c). */
module Outages {
  import opened CheckStates
  import opened Graphs

  /** Every host that is not up has been found unreachable exactly when it has parents and none of them
      is up; `parents` lists the parents of every host. */
  ghost predicate Evaluated<T>(parents: Links<T>, states: map<T, HostState>) {
    && Closed(parents) && states.Keys == parents.Keys
    && forall h {:trigger states[h]} :: h in parents && states[h] != Up ==>
         (states[h] == Unreachable <==> parents[h] != [] && forall p :: p in parents[h] ==> states[p] != Up)
  }

  /** A way up through hosts none of which is up. */
  ghost predicate BlockedPath<T>(parents: Links<T>, states: map<T, HostState>, h: T, p: seq<nat>, a: T)
    decreases |p|
  {
    && h in parents && h in states && states[h] != Up
    && if p == [] then h == a
       else p[0] < |parents[h]| && BlockedPath(parents, states, parents[h][p[0]], p[1..], a)
  }

  /** Unreachable is what is behind something that is down: an unreachable host has an ancestor that
      is down, and nothing is up on the way there. */
  lemma {:induction false} UnreachableBehindDown<T>(parents: Links<T>, states: map<T, HostState>, h: T)
      returns (p: seq<nat>, a: T)
    requires Evaluated(parents, states) && h in parents && states[h] == Unreachable && !ReachesCycle(parents, h)
    ensures p != [] && BlockedPath(parents, states, h, p, a) && a in states && states[a] == Down
    decreases Descendants(parents, h)
  {
    var parent := parents[h][0];
    DescendantsShrink(parents, h, parent);
    assert parent in parents[h];
    if states[parent] == Down {
      p, a := [0], parent;
      assert BlockedPath(parents, states, parent, p[1..], a);
    } else {
      var q;
      q, a := UnreachableBehindDown(parents, states, parent);
      p := [0] + q;
      assert p[1..] == q;
    }
  }

  /** In particular it has an ancestor that is down. */
  lemma UnreachableHasDownAncestor<T>(parents: Links<T>, states: map<T, HostState>, h: T)
    requires Evaluated(parents, states) && h in parents && states[h] == Unreachable && !ReachesCycle(parents, h)
    ensures exists a :: a in parents && Below(parents, h, a) && states[a] == Down
  {
    var p, a := UnreachableBehindDown(parents, states, h);
    BlockedIsPath(parents, states, h, p, a);
    var c := parents[h][p[0]];
    BlockedIsPath(parents, states, c, p[1..], a);
    LinkPathStaysInside(parents, h, p, a);
    assert Reaches(parents, c, a);
    assert c in parents[h] && Below(parents, h, a);
  }

  lemma {:induction false} BlockedIsPath<T>(parents: Links<T>, states: map<T, HostState>, h: T, p: seq<nat>, a: T)
    requires BlockedPath(parents, states, h, p, a)
    ensures IsLinkPath(parents, h, p, a)
    decreases |p|
  {
    if p != [] { BlockedIsPath(parents, states, parents[h][p[0]], p[1..], a); }
  }

  /** A host that is not up and has no parents, or one that is up, is down. */
  lemma DownAtTheEdge<T>(parents: Links<T>, states: map<T, HostState>, h: T)
    requires Evaluated(parents, states) && h in parents && states[h] != Up
    ensures states[h] == Down <==> parents[h] == [] || exists p :: p in parents[h] && states[p] == Up
  {
  }

  /** On a cycle there may be nobody to be down: two hosts that are each other's parents. */
  lemma CycleOfUnreachables()
    ensures var parents: Links<nat> := map[1 := [2], 2 := [1]];
      var states := map[1 := Unreachable, 2 := Unreachable];
      Evaluated(parents, states) && forall h :: h in states ==> states[h] != Down
  {
  }
}
