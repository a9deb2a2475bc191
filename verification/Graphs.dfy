/** Directed graphs given by ordered lists of child links, as `host.child_hosts` is.

    A node may list the same child more than once, so a way down the graph is described by
    the positions of the links taken (a link path) and not by the nodes it visits.
  */
module Graphs {

  /** The child links of every node, in list order. */
  type Links<T(==)> = map<T, seq<T>>

  /** No link leaves the graph. */
  ghost predicate Closed<T>(g: Links<T>) {
    forall h, c :: h in g && c in g[h] ==> c in g
  }

  /** Taking the links numbered `p`, one after the other, leads from `a` to `b`. */
  ghost predicate IsLinkPath<T>(g: Links<T>, a: T, p: seq<nat>, b: T)
    decreases |p|
  {
    if p == [] then a == b
    else a in g && p[0] < |g[a]| && IsLinkPath(g, g[a][p[0]], p[1..], b)
  }

  /** `b` can be reached from `a` by zero or more links. */
  ghost predicate Reaches<T>(g: Links<T>, a: T, b: T) {
    exists p: seq<nat> :: IsLinkPath(g, a, p, b)
  }

  /** `b` is a proper descendant of `a`: it can be reached by one or more links. */
  ghost predicate Below<T>(g: Links<T>, a: T, b: T) {
    a in g && exists c :: c in g[a] && Reaches(g, c, b)
  }

  ghost predicate OnCycle<T>(g: Links<T>, h: T) {
    Below(g, h, h)
  }

  ghost predicate ReachesCycle<T>(g: Links<T>, h: T) {
    exists x :: x in g && Reaches(g, h, x) && OnCycle(g, x)
  }

  ghost predicate HasCycle<T>(g: Links<T>) {
    exists x :: x in g && OnCycle(g, x)
  }

  ghost predicate HasParent<T>(g: Links<T>, h: T) {
    exists q :: q in g && h in g[q]
  }

  lemma ReachesSelf<T>(g: Links<T>, a: T)
    ensures Reaches(g, a, a)
  {
    assert IsLinkPath(g, a, [], a);
  }

  lemma {:induction false} LinkPathConcat<T>(g: Links<T>, a: T, p: seq<nat>, b: T, q: seq<nat>, c: T)
    requires IsLinkPath(g, a, p, b) && IsLinkPath(g, b, q, c)
    ensures IsLinkPath(g, a, p + q, c)
    decreases |p|
  {
    if p == [] {
      assert p + q == q;
    } else {
      LinkPathConcat(g, g[a][p[0]], p[1..], b, q, c);
      assert (p + q)[1..] == p[1..] + q;
    }
  }

  lemma ReachesTransitive<T>(g: Links<T>, a: T, b: T, c: T)
    requires Reaches(g, a, b) && Reaches(g, b, c)
    ensures Reaches(g, a, c)
  {
    var p: seq<nat> :| IsLinkPath(g, a, p, b);
    var q: seq<nat> :| IsLinkPath(g, b, q, c);
    LinkPathConcat(g, a, p, b, q, c);
  }

  lemma ReachesChild<T>(g: Links<T>, a: T, c: T)
    requires a in g && c in g[a]
    ensures Reaches(g, a, c)
  {
    var i :| 0 <= i < |g[a]| && g[a][i] == c;
    assert IsLinkPath(g, g[a][i], [i as nat][1..], c);
    assert IsLinkPath(g, a, [i as nat], c);
  }

  /** Everything reached is the node itself or a proper descendant. */
  lemma ReachesSplit<T>(g: Links<T>, a: T, b: T)
    ensures Reaches(g, a, b) <==> a == b || Below(g, a, b)
  {
    if Reaches(g, a, b) && a != b {
      var p: seq<nat> :| IsLinkPath(g, a, p, b);
      var c := g[a][p[0]];
      assert c in g[a] && IsLinkPath(g, c, p[1..], b);
    }
    if a == b {
      ReachesSelf(g, a);
    }
    if Below(g, a, b) {
      var c :| c in g[a] && Reaches(g, c, b);
      ReachesChild(g, a, c);
      ReachesTransitive(g, a, c, b);
    }
  }

  lemma BelowTransitive<T>(g: Links<T>, a: T, b: T, c: T)
    requires Below(g, a, b) && Below(g, b, c)
    ensures Below(g, a, c)
  {
    var d :| d in g[a] && Reaches(g, d, b);
    ReachesSplit(g, b, c);
    ReachesTransitive(g, d, b, c);
  }

  lemma {:induction false} LinkPathStaysInside<T>(g: Links<T>, a: T, p: seq<nat>, b: T)
    requires Closed(g) && a in g && IsLinkPath(g, a, p, b)
    ensures b in g
    decreases |p|
  {
    if p != [] {
      LinkPathStaysInside(g, g[a][p[0]], p[1..], b);
    }
  }

  /** The last link of a path leaves from a node that the path reaches as well. */
  lemma {:induction false} LastLink<T>(g: Links<T>, a: T, p: seq<nat>, b: T) returns (q: T)
    requires Closed(g) && a in g && p != [] && IsLinkPath(g, a, p, b)
    ensures q in g && b in g[q] && Reaches(g, a, q)
    decreases |p|
  {
    var c := g[a][p[0]];
    if |p| == 1 {
      ReachesSelf(g, a);
      q := a;
    } else {
      q := LastLink(g, c, p[1..], b);
      ReachesChild(g, a, c);
      ReachesTransitive(g, a, c, q);
    }
  }

  /** A proper descendant has a parent that is reached too. */
  lemma ParentOfDescendant<T>(g: Links<T>, a: T, b: T) returns (q: T)
    requires Closed(g) && Below(g, a, b)
    ensures q in g && b in g[q] && Reaches(g, a, q) && HasParent(g, b)
  {
    var c :| c in g[a] && Reaches(g, c, b);
    var p: seq<nat> :| IsLinkPath(g, c, p, b);
    if p == [] {
      ReachesSelf(g, a);
      q := a;
    } else {
      q := LastLink(g, c, p, b);
      ReachesChild(g, a, c);
      ReachesTransitive(g, a, c, q);
    }
  }

  /** Every node on a cycle has a parent, and reaches a cycle. */
  lemma OnCycleFacts<T>(g: Links<T>, h: T)
    requires Closed(g) && h in g && OnCycle(g, h)
    ensures HasParent(g, h) && ReachesCycle(g, h) && HasCycle(g)
  {
    var _ := ParentOfDescendant(g, h, h);
    ReachesSelf(g, h);
  }

  /** A node reaches a cycle exactly when one of its children does. */
  lemma ReachesCycleByChild<T>(g: Links<T>, h: T)
    requires Closed(g) && h in g
    ensures ReachesCycle(g, h) <==> exists c :: c in g[h] && ReachesCycle(g, c)
  {
    if ReachesCycle(g, h) {
      var x :| x in g && Reaches(g, h, x) && OnCycle(g, x);
      ReachesSplit(g, h, x);
      assert Below(g, h, x);
      var c :| c in g[h] && Reaches(g, c, x);
      assert ReachesCycle(g, c);
    }
    if c :| c in g[h] && ReachesCycle(g, c) {
      var x :| x in g && Reaches(g, c, x) && OnCycle(g, x);
      ReachesChild(g, h, c);
      ReachesTransitive(g, h, c, x);
    }
  }

  /** A graph with a cycle is one some node of which reaches a cycle. */
  lemma HasCycleWhenReached<T>(g: Links<T>)
    requires Closed(g)
    ensures HasCycle(g) <==> exists h :: h in g && ReachesCycle(g, h)
  {
    if HasCycle(g) {
      var x :| x in g && OnCycle(g, x);
      ReachesSelf(g, x);
      assert ReachesCycle(g, x);
    }
  }

  /** Without a cycle no node reaches one. */
  lemma AcyclicEverywhere<T>(g: Links<T>, h: T)
    requires !HasCycle(g)
    ensures !ReachesCycle(g, h)
  {
  }

  /** The proper descendants of a node. */
  ghost function Descendants<T>(g: Links<T>, h: T): set<T> {
    set d | d in g && Below(g, h, d)
  }

  /** Below an acyclic node the set of descendants shrinks with every link, which is what makes
      recursion over child links terminate. */
  lemma DescendantsShrink<T>(g: Links<T>, h: T, c: T)
    requires Closed(g) && h in g && c in g[h] && !ReachesCycle(g, h)
    ensures Descendants(g, c) < Descendants(g, h)
    ensures !ReachesCycle(g, c)
  {
    ReachesCycleByChild(g, h);
    ReachesSelf(g, c);
    assert Below(g, h, c);
    forall d | d in Descendants(g, c) ensures d in Descendants(g, h) {
      BelowTransitive(g, h, c, d);
    }
    assert c !in Descendants(g, c);
  }
}
