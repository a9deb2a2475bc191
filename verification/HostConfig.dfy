/** The parent/child cycle check of the pre-flight configuration check (base/config.c).

    The search paints every host with one of five colours and repaints hosts it has already
    left. The invariants are stated about the painting as a value, so that each repainting is
    one small lemma and the method only has to carry it out.
  */
module HostConfig {
  import opened Common
  import opened Graphs

  datatype DfsStatus =
    | Unchecked    // default value
    | TempChecked  // entered, not left yet
    | Ok           // no problem
    | NearLoop     // has trouble sons
    | Loopy        // is in trouble and is somebody's son

  class Host {
    const name: string
    var childHosts: seq<Host>
    var circularPathChecked: DfsStatus

    constructor (name: string)
      ensures this.name == name && childHosts == [] && circularPathChecked == Unchecked
    {
      this.name := name;
      childHosts := [];
      circularPathChecked := Unchecked;
    }
  }

  // ---------- the painting ----------

  type Colours<T(==)> = map<T, DfsStatus>

  /** What is known of a host whose children are being looked at. */
  ghost predicate ActiveFacts<T>(g: Links<T>, col: Colours<T>, h: T)
    requires h in col
  {
    && (col[h] == TempChecked || col[h] == NearLoop || col[h] == Loopy)
    && (col[h] != TempChecked ==> ReachesCycle(g, h))
    && (col[h] == Loopy ==> HasParent(g, h))
  }

  /** What is known of a host the search has left. */
  ghost predicate FinishedFacts<T>(g: Links<T>, col: Colours<T>, h: T)
    requires Closed(g) && col.Keys == g.Keys && h in g
  {
    && (col[h] == Ok || col[h] == NearLoop || col[h] == Loopy)
    && (col[h] == Ok <==> !ReachesCycle(g, h))
    && (col[h] == Loopy ==> HasParent(g, h))
    && forall c {:trigger col[c]} :: c in g[h] ==> col[c] == Ok || col[c] == Loopy
  }

  /** The invariant of the search; `active` are the hosts it has entered and not left. */
  ghost predicate SearchInvariant<T>(g: Links<T>, col: Colours<T>, active: set<T>) {
    && Closed(g)
    && col.Keys == g.Keys
    && active <= g.Keys
    && (forall h {:trigger col[h]} :: h in active ==> ActiveFacts(g, col, h))
    && (forall h {:trigger col[h]} :: h in g && h !in active && col[h] != Unchecked ==> FinishedFacts(g, col, h))
  }

  /** How a search may repaint: nothing becomes unchecked again, OK and LOOPY are final. */
  ghost predicate Repainted<T>(col: Colours<T>, col': Colours<T>) {
    && col.Keys == col'.Keys
    && forall h {:trigger col'[h]} :: h in col ==>
      && (col[h] != Unchecked ==> col'[h] != Unchecked)
      && (col[h] != Unchecked && col'[h] == TempChecked ==> col[h] == TempChecked)
      && (col[h] == Ok || col[h] == Loopy ==> col'[h] == col[h])
  }

  /** The exact meaning of the colours once every host has been left. */
  ghost predicate ColoursTellCycles<T>(g: Links<T>, col: Colours<T>) {
    && col.Keys == g.Keys
    && forall h :: h in g ==>
      col[h] == if !ReachesCycle(g, h) then Ok else if HasParent(g, h) then Loopy else NearLoop
  }

  ghost function UncheckedIn<T>(col: Colours<T>): set<T> {
    set h | h in col && col[h] == Unchecked
  }

  ghost predicate AllReach<T>(g: Links<T>, active: set<T>, root: T) {
    forall a {:trigger Reaches(g, a, root)} :: a in active ==> Reaches(g, a, root)
  }

  lemma EnterHost<T>(g: Links<T>, col: Colours<T>, active: set<T>, root: T)
    requires SearchInvariant(g, col, active) && root in g && col[root] == Unchecked
    ensures SearchInvariant(g, col[root := TempChecked], active + {root})
    ensures root !in active
  {
    var col' := col[root := TempChecked];
    forall h | h in g && h !in active + {root} && col'[h] != Unchecked ensures FinishedFacts(g, col', h) {
      assert FinishedFacts(g, col, h);
    }
    forall h | h in active + {root} ensures ActiveFacts(g, col', h) {
      assert h in active ==> ActiveFacts(g, col, h);
    }
  }

  /** The painting after one child has been looked at. */
  function PaintChild<T>(col: Colours<T>, root: T, child: T): Colours<T>
    requires root in col && child in col
  {
    if col[child] == TempChecked then col[child := Loopy][root := Loopy]
    else if col[child] == NearLoop || col[child] == Loopy then
      col[root := if col[root] == Loopy then Loopy else NearLoop][child := Loopy]
    else col
  }

  /** A host known to reach a cycle may be painted LOOPY when it is somebody's child, and
      NEAR_LOOP while it is active. */
  lemma PaintKeepsInvariant<T>(g: Links<T>, col: Colours<T>, active: set<T>, h: T, status: DfsStatus)
    requires SearchInvariant(g, col, active)
    requires h in g && col[h] != Unchecked && ReachesCycle(g, h)
    requires (status == Loopy && HasParent(g, h)) || (status == NearLoop && h in active && col[h] != Loopy)
    ensures SearchInvariant(g, col[h := status], active)
    ensures Repainted(col, col[h := status])
  {
    var col' := col[h := status];
    assert h !in active ==> FinishedFacts(g, col, h);
    forall x | x in g && x !in active && col'[x] != Unchecked ensures FinishedFacts(g, col', x) {
      assert FinishedFacts(g, col, x);
    }
    forall x | x in active ensures ActiveFacts(g, col', x) {
      assert ActiveFacts(g, col, x);
    }
  }

  /** Looking at a child that is still being searched closes a cycle through both ends of the link. */
  lemma ActiveChildClosesCycle<T>(g: Links<T>, root: T, child: T)
    requires Closed(g) && root in g && child in g[root] && Reaches(g, child, root)
    ensures HasParent(g, root) && ReachesCycle(g, root) && ReachesCycle(g, child)
  {
    assert Below(g, root, root);
    OnCycleFacts(g, root);
    assert ReachesCycle(g, child);
  }

  lemma PaintChildKeepsInvariant<T>(g: Links<T>, col: Colours<T>, active: set<T>, root: T, child: T)
    requires SearchInvariant(g, col, active)
    requires root in active && child in g[root] && col[child] != Unchecked
    requires AllReach(g, active, root)
    ensures SearchInvariant(g, PaintChild(col, root, child), active)
    ensures Repainted(col, PaintChild(col, root, child))
  {
    hide ReachesCycle;
    assert HasParent(g, child);
    if col[child] == TempChecked {
      assert child in active by {
        assert child !in active ==> FinishedFacts(g, col, child);
      }
      ActiveChildClosesCycle(g, root, child);
      PaintKeepsInvariant(g, col, active, child, Loopy);
      assert ActiveFacts(g, col, root);
      PaintKeepsInvariant(g, col[child := Loopy], active, root, Loopy);
    } else if col[child] == NearLoop || col[child] == Loopy {
      assert ReachesCycle(g, child) by {
        assert if child in active then ActiveFacts(g, col, child) else FinishedFacts(g, col, child);
      }
      ReachesCycleByChild(g, root);
      assert ActiveFacts(g, col, root);
      var col' := if col[root] == Loopy then col else col[root := NearLoop];
      if col[root] != Loopy { PaintKeepsInvariant(g, col, active, root, NearLoop); }
      PaintKeepsInvariant(g, col', active, child, Loopy);
      assert col'[child := Loopy] == PaintChild(col, root, child);
    }
  }

  /** What looking at a child tells: it ends OK or LOOPY, and the parent stays unsuspected only
      if it ends OK. */
  lemma PaintChildProgress<T>(g: Links<T>, col: Colours<T>, active: set<T>, root: T, child: T)
    requires SearchInvariant(g, col, active)
    requires root in active && child in g[root] && col[child] != Unchecked
    ensures var col' := PaintChild(col, root, child);
      && (col'[child] == Ok || col'[child] == Loopy)
      && (col'[root] == TempChecked ==> col[root] == TempChecked && col'[child] == Ok)
  {
    assert ActiveFacts(g, col, root);
  }

  lemma LeaveHost<T>(g: Links<T>, col: Colours<T>, active: set<T>, root: T)
    requires SearchInvariant(g, col, active) && root in active
    requires forall c :: c in g[root] ==> col[c] == Ok || col[c] == Loopy
    requires col[root] == TempChecked ==> forall c :: c in g[root] ==> col[c] == Ok
    ensures SearchInvariant(g, if col[root] == TempChecked then col[root := Ok] else col, active - {root})
  {
    var col' := if col[root] == TempChecked then col[root := Ok] else col;
    ReachesCycleByChild(g, root);
    assert ActiveFacts(g, col, root);
    if col[root] == TempChecked {
      forall c | c in g[root] ensures !ReachesCycle(g, c) {
        assert c !in active;
        assert FinishedFacts(g, col, c);
      }
    }
    forall h | h in g && h !in active - {root} && col'[h] != Unchecked ensures FinishedFacts(g, col', h) {
      if h != root { assert FinishedFacts(g, col, h); }
    }
    forall h | h in active - {root} ensures ActiveFacts(g, col', h) {
      assert ActiveFacts(g, col, h);
    }
  }

  /** When nothing is active and nothing is unchecked, every colour has its exact meaning. */
  lemma FinalColours<T>(g: Links<T>, col: Colours<T>)
    requires SearchInvariant(g, col, {})
    requires forall h :: h in g ==> col[h] != Unchecked
    ensures ColoursTellCycles(g, col)
  {
    forall h | h in g
      ensures col[h] == if !ReachesCycle(g, h) then Ok else if HasParent(g, h) then Loopy else NearLoop
    {
      assert FinishedFacts(g, col, h);
      if HasParent(g, h) {
        var q :| q in g && h in g[q];
        assert FinishedFacts(g, col, q);
      }
    }
  }

  // ---------- the search ----------

  /** `g` is the graph the child links of `hosts` span. */
  ghost predicate Spans(g: Links<Host>, hosts: set<Host>)
    reads hosts`childHosts
  {
    && g.Keys == hosts
    && forall h {:trigger h.childHosts} :: h in hosts ==> h.childHosts == g[h]
  }

  /** `col` is the painting the hosts show. */
  ghost predicate Shows(col: Colours<Host>, hosts: set<Host>)
    reads hosts`circularPathChecked
  {
    && col.Keys == hosts
    && forall h {:trigger h.circularPathChecked} :: h in hosts ==> h.circularPathChecked == col[h]
  }

  /** The children looked at so far have left their traces. */
  ghost predicate ChildrenSeen<T>(col: Colours<T>, root: T, seen: seq<T>) {
    root in col &&
    forall k :: 0 <= k < |seen| ==>
      && seen[k] in col
      && (col[seen[k]] == Ok || (col[seen[k]] == Loopy && col[root] != TempChecked))
  }

  lemma ChildrenSeenKept<T>(col: Colours<T>, col': Colours<T>, root: T, seen: seq<T>)
    requires ChildrenSeen(col, root, seen) && Repainted(col, col')
    requires col[root] != Unchecked
    ensures ChildrenSeen(col', root, seen)
  {
  }

  lemma RepaintedTransitive<T>(a: Colours<T>, b: Colours<T>, c: Colours<T>)
    requires Repainted(a, b) && Repainted(b, c)
    ensures Repainted(a, c)
  {
  }

  method DfsHostPath(start: Host?, ghost hosts: set<Host>, ghost g: Links<Host>, ghost active: set<Host>,
                     ghost col0: Colours<Host>)
      returns (status: DfsStatus, ghost col: Colours<Host>)
    requires Spans(g, hosts) && Shows(col0, hosts)
    requires start != null ==> start in hosts && AllReach<Host>(g, active, start)
    requires SearchInvariant<Host>(g, col0, active)
    modifies hosts`circularPathChecked
    ensures Shows(col, hosts)
    ensures start == null ==> status == NearLoop && col == col0
    ensures start != null ==> status == col[start] != Unchecked
    ensures SearchInvariant<Host>(g, col, active)
    ensures Repainted<Host>(col0, col)
    decreases UncheckedIn<Host>(col0), 0
  {
    hide ReachesCycle, HasParent, Reaches;
    col := col0;
    if start == null {
      return NearLoop, col;
    }
    var root: Host := start;
    if root.circularPathChecked != Unchecked {
      return root.circularPathChecked, col;
    }
    ghost var inside := active + {root};
    EnterHost<Host>(g, col0, active, root);
    EnteredReach<Host>(g, active, root);
    root.circularPathChecked := TempChecked;
    col := col0[root := TempChecked];
    var children := root.childHosts;
    var i := 0;
    while i < |children|
      invariant i <= |children|
      invariant Spans(g, hosts) && Shows(col, hosts)
      invariant SearchInvariant<Host>(g, col, inside)
      invariant Repainted<Host>(col0, col)
      invariant col[root] != Unchecked
      invariant ChildrenSeen<Host>(col, root, children[..i])
    {
      UncheckedShrink<Host>(col0, col, root);
      col := SearchChild(root, i, hosts, g, inside, col0, col);
      i := i + 1;
    }
    assert children[..i] == children;
    AllChildrenSeen<Host>(g, col, root);
    LeaveHost<Host>(g, col, inside, root);
    assert inside - {root} == active;
    if root.circularPathChecked == TempChecked {
      root.circularPathChecked := Ok;
      col := col[root := Ok];
    }
    return root.circularPathChecked, col;
  }

  /** One turn of the loop over the children: the search of the `i`-th child, and what it tells. */
  method SearchChild(root: Host, i: nat, ghost hosts: set<Host>, ghost g: Links<Host>, ghost active: set<Host>,
                     ghost col0: Colours<Host>, ghost col: Colours<Host>)
      returns (ghost col': Colours<Host>)
    requires Spans(g, hosts) && Shows(col, hosts) && root in active && root in hosts && i < |root.childHosts|
    requires SearchInvariant<Host>(g, col, active) && AllReach<Host>(g, active, root)
    requires Repainted<Host>(col0, col) && col[root] != Unchecked
    requires ChildrenSeen<Host>(col, root, root.childHosts[..i])
    modifies hosts`circularPathChecked
    ensures Shows(col', hosts) && SearchInvariant<Host>(g, col', active)
    ensures Repainted<Host>(col0, col') && col'[root] != Unchecked
    ensures ChildrenSeen<Host>(col', root, root.childHosts[..i + 1])
    decreases UncheckedIn<Host>(col), 1
  {
    hide ReachesCycle, HasParent, Reaches, AllReach, SearchInvariant, ChildrenSeen, UncheckedIn;
    var child := root.childHosts[i];
    ChildKnown(g, hosts, active, col, root, i);
    var childStatus := child.circularPathChecked;
    ghost var col1 := col;
    if childStatus == Unchecked {
      ActiveReachChild<Host>(g, active, root, child);
      childStatus, col1 := DfsHostPath(child, hosts, g, active, col);
    }
    LookedAtChild<Host>(g, col0, col, col1, active, root, i);
    PaintTroubledChild(root, child, childStatus, hosts, col1);
    col' := PaintChild<Host>(col1, root, child);
  }

  lemma ChildKnown(g: Links<Host>, hosts: set<Host>, active: set<Host>, col: Colours<Host>, root: Host, i: nat)
    requires Spans(g, hosts) && SearchInvariant<Host>(g, col, active) && root in hosts && i < |root.childHosts|
    ensures root in g && g[root] == root.childHosts && root in col
    ensures root.childHosts[i] in hosts && root.childHosts[i] in col && Closed<Host>(g) && col.Keys == g.Keys
  {
    assert root.childHosts[i] in g[root];
  }

  /** The repainting of one turn of the loop: `status` is what the child was found to be. */
  method PaintTroubledChild(root: Host, child: Host, status: DfsStatus, ghost hosts: set<Host>,
                            ghost col: Colours<Host>)
    requires Shows(col, hosts) && root in hosts && child in hosts && status == col[child]
    modifies root`circularPathChecked, child`circularPathChecked
    ensures Shows(PaintChild<Host>(col, root, child), hosts)
  {
    if status == TempChecked {
      child.circularPathChecked := Loopy;
      root.circularPathChecked := Loopy;
    }
    if status == NearLoop || status == Loopy {
      if root.circularPathChecked != Loopy {
        root.circularPathChecked := NearLoop;
      }
      child.circularPathChecked := Loopy;
    }
  }

  lemma AllChildrenSeen<T>(g: Links<T>, col: Colours<T>, root: T)
    requires root in g && ChildrenSeen(col, root, g[root])
    requires Closed(g) && col.Keys == g.Keys
    ensures forall c :: c in g[root] ==> col[c] == Ok || col[c] == Loopy
    ensures col[root] == TempChecked ==> forall c :: c in g[root] ==> col[c] == Ok
  {
  }

  /** One turn of the loop: a possible recursive search from `col` to `col1`, then the repainting. */
  lemma LookedAtChild<T>(g: Links<T>, col0: Colours<T>, col: Colours<T>, col1: Colours<T>, active: set<T>, root: T,
                         i: nat)
    requires Repainted(col0, col) && Repainted(col, col1)
    requires SearchInvariant(g, col1, active)
    requires root in active && i < |g[root]|
    requires g[root][i] in col && col1[g[root][i]] != Unchecked
    requires col[root] != Unchecked && ChildrenSeen(col, root, g[root][..i])
    requires AllReach(g, active, root)
    ensures var col' := PaintChild(col1, root, g[root][i]);
      && SearchInvariant(g, col', active)
      && Repainted(col0, col')
      && col'[root] != Unchecked
      && ChildrenSeen(col', root, g[root][..i + 1])
  {
    hide ReachesCycle, HasParent, AllReach;
    var child := g[root][i];
    var col' := PaintChild(col1, root, child);
    PaintChildKeepsInvariant(g, col1, active, root, child);
    PaintChildProgress(g, col1, active, root, child);
    RepaintedTransitive(col0, col, col1);
    RepaintedTransitive(col0, col1, col');
    ChildrenSeenKept(col, col1, root, g[root][..i]);
    ChildrenSeenKept(col1, col', root, g[root][..i]);
    assert g[root][..i + 1] == g[root][..i] + [child];
  }

  lemma EnteredReach<T>(g: Links<T>, active: set<T>, root: T)
    requires AllReach(g, active, root)
    ensures AllReach(g, active + {root}, root)
  {
    ReachesSelf(g, root);
  }

  lemma ActiveReachChild<T>(g: Links<T>, active: set<T>, root: T, child: T)
    requires root in g && child in g[root]
    requires AllReach(g, active, root)
    ensures AllReach(g, active, child)
  {
    ReachesChild(g, root, child);
    forall a | a in active ensures Reaches(g, a, child) {
      ReachesTransitive(g, a, root, child);
    }
  }

  lemma UncheckedShrink<T>(col0: Colours<T>, col: Colours<T>, root: T)
    requires Repainted(col0, col) && root in col0 && col0[root] == Unchecked && col[root] != Unchecked
    ensures UncheckedIn(col) < UncheckedIn(col0)
  {
    assert root in UncheckedIn(col0) && root !in UncheckedIn(col);
  }

  // ---------- the host pass of the pre-flight check ----------

  /** Without active hosts the checked hosts are closed under links. */
  lemma {:induction false} CheckedDownwards<T>(g: Links<T>, col: Colours<T>, a: T, p: seq<nat>, b: T)
    requires SearchInvariant(g, col, {}) && a in g && col[a] != Unchecked && IsLinkPath(g, a, p, b)
    ensures b in g && col[b] != Unchecked
    decreases |p|
  {
    if p != [] {
      assert FinishedFacts(g, col, a);
      var c := g[a][p[0]];
      assert c in g && col[c] != Unchecked;
      CheckedDownwards(g, col, c, p[1..], b);
    }
  }

  /** Every host on a cycle is LOOPY by the time its own search returns. */
  lemma OnCycleIsLoopy<T>(g: Links<T>, col: Colours<T>, h: T)
    requires SearchInvariant(g, col, {}) && h in g && col[h] != Unchecked && OnCycle(g, h)
    ensures col[h] == Loopy
  {
    OnCycleFacts(g, h);
    var q := ParentOfDescendant(g, h, h);
    var p: seq<nat> :| IsLinkPath(g, h, p, q);
    CheckedDownwards(g, col, h, p, q);
    assert FinishedFacts(g, col, q) && FinishedFacts(g, col, h);
    assert col[h] != Ok;
  }

  /** The hosts painted LOOPY, in list order: those the pass complains about. */
  ghost function LoopyHosts<T>(col: Colours<T>, list: seq<T>): seq<T> {
    if list == [] then []
    else
      var h := list[|list| - 1];
      LoopyHosts(col, list[..|list| - 1]) + if h in col && col[h] == Loopy then [h] else []
  }

  /** The pass complains about exactly the hosts that reach a cycle and have a parent. */
  lemma {:induction false} ReportedExactly<T>(g: Links<T>, col: Colours<T>, list: seq<T>, h: T)
    requires ColoursTellCycles(g, col) && forall x :: x in list ==> x in g
    ensures h in LoopyHosts(col, list) <==> h in list && ReachesCycle(g, h) && HasParent(g, h)
    decreases |list|
  {
    hide ReachesCycle, HasParent;
    if list != [] {
      ReportedExactly(g, col, list[..|list| - 1], h);
      assert list == list[..|list| - 1] + [list[|list| - 1]];
    }
  }

  /** What one top-level search adds to the error flag. */
  lemma SearchResultTellsCycle<T>(g: Links<T>, col: Colours<T>, h: T)
    requires SearchInvariant(g, col, {}) && h in g && col[h] != Unchecked
    ensures col[h] == Loopy ==> HasCycle(g)
    ensures OnCycle(g, h) ==> col[h] == Loopy
  {
    assert FinishedFacts(g, col, h);
    if col[h] == Loopy { HasCycleWhenReached(g); }
    if OnCycle(g, h) { OnCycleIsLoopy(g, col, h); }
  }

  /** What the error flag says after searching from the hosts in `done`. */
  ghost predicate FlagTells<T>(g: Links<T>, done: seq<T>, errors: int) {
    && (errors == 0 || errors == 1)
    && (errors == 1 ==> HasCycle(g))
    && (errors == 0 ==> forall j :: 0 <= j < |done| ==> !OnCycle(g, done[j]))
  }

  lemma FlagStep<T>(g: Links<T>, col: Colours<T>, done: seq<T>, h: T, errors: int)
    requires FlagTells(g, done, errors)
    requires SearchInvariant(g, col, {}) && h in g && col[h] != Unchecked
    ensures FlagTells(g, done + [h], if col[h] == Loopy then 1 else errors)
  {
    SearchResultTellsCycle(g, col, h);
  }

  lemma FlagDone<T>(g: Links<T>, list: seq<T>, errors: int)
    requires FlagTells(g, list, errors) && forall h :: h in g <==> h in list
    ensures errors == if HasCycle(g) then 1 else 0
  {
  }

  ghost predicate AllChecked<T>(col: Colours<T>, done: seq<T>) {
    forall j :: 0 <= j < |done| ==> done[j] in col && col[done[j]] != Unchecked
  }

  lemma AllCheckedStep<T>(col: Colours<T>, col': Colours<T>, done: seq<T>, h: T)
    requires AllChecked(col, done) && Repainted(col, col') && h in col' && col'[h] != Unchecked
    ensures AllChecked(col', done + [h])
  {
  }

  /** Cleans the status left by a previous check. */
  method ClearStatus(hostList: seq<Host>)
    modifies (set h | h in hostList)`circularPathChecked
    ensures forall h :: h in hostList ==> h.circularPathChecked == Unchecked
  {
    for i := 0 to |hostList|
      invariant forall j :: 0 <= j < i ==> hostList[j].circularPathChecked == Unchecked
    {
      hostList[i].circularPathChecked := Unchecked;
    }
  }

  /** Searches from every host. */
  method SearchAll(hostList: seq<Host>, ghost hosts: set<Host>, ghost g: Links<Host>)
      returns (errors: int, ghost verdict: Colours<Host>)
    requires hosts == (set h | h in hostList) && Spans(g, hosts) && Closed<Host>(g)
    requires forall h :: h in hostList ==> h.circularPathChecked == Unchecked
    modifies hosts`circularPathChecked
    ensures Shows(verdict, hosts)
    ensures ColoursTellCycles<Host>(g, verdict)
    ensures errors == if HasCycle<Host>(g) then 1 else 0
  {
    hide ReachesCycle, HasParent, HasCycle, OnCycle;
    errors, verdict := 0, map h | h in hosts :: Unchecked;
    for i := 0 to |hostList|
      invariant Spans(g, hosts) && Shows(verdict, hosts)
      invariant SearchInvariant<Host>(g, verdict, {})
      invariant AllChecked<Host>(verdict, hostList[..i])
      invariant FlagTells<Host>(g, hostList[..i], errors)
    {
      ghost var before, flag := verdict, errors;
      var status;
      status, verdict := DfsHostPath(hostList[i], hosts, g, {}, verdict);
      if status == Loopy {
        errors := 1;
      }
      assert hostList[..i + 1] == hostList[..i] + [hostList[i]];
      AllCheckedStep<Host>(before, verdict, hostList[..i], hostList[i]);
      FlagStep<Host>(g, verdict, hostList[..i], hostList[i], flag);
    }
    assert hostList[..|hostList|] == hostList;
    FlagDone<Host>(g, hostList, errors);
    FinalColours<Host>(g, verdict);
  }

  /** Complains about the LOOPY hosts and cleans up. */
  method ReportAndClear(hostList: seq<Host>, ghost hosts: set<Host>, ghost verdict: Colours<Host>)
        returns (reported: seq<Host>)
    requires Distinct<Host>(hostList) && hosts == (set h | h in hostList) && Shows(verdict, hosts)
    modifies hosts`circularPathChecked
    ensures reported == LoopyHosts<Host>(verdict, hostList)
    ensures forall h :: h in hostList ==> h.circularPathChecked == Unchecked
  {
    reported := [];
    for i := 0 to |hostList|
      invariant reported == LoopyHosts<Host>(verdict, hostList[..i])
      invariant forall j :: 0 <= j < i ==> hostList[j].circularPathChecked == Unchecked
      invariant forall j :: i <= j < |hostList| ==> hostList[j].circularPathChecked == verdict[hostList[j]]
    {
      assert hostList[..i + 1][..i] == hostList[..i];
      if hostList[i].circularPathChecked == Loopy {
        reported := reported + [hostList[i]];
      }
      hostList[i].circularPathChecked := Unchecked;
    }
    assert hostList[..|hostList|] == hostList;
  }

  /** The host part of the pre-flight check: it ends with an error exactly when the graph has a
      cycle; `verdict` is the painting it complained from before cleaning up. */
  method PreFlightHostCircularCheck(verifyCircularPaths: bool, hostList: seq<Host>, ghost g: Links<Host>)
      returns (errors: int, reported: seq<Host>, ghost verdict: Colours<Host>)
    requires Distinct<Host>(hostList)
    requires Spans(g, set h | h in hostList) && Closed<Host>(g)
    modifies (set h | h in hostList)`circularPathChecked
    ensures !verifyCircularPaths ==> errors == 0 && reported == [] && unchanged(set h | h in hostList)
    ensures verifyCircularPaths ==>
      && errors == (if HasCycle<Host>(g) then 1 else 0)
      && ColoursTellCycles<Host>(g, verdict)
      && reported == LoopyHosts<Host>(verdict, hostList)
      && forall h :: h in hostList ==> h.circularPathChecked == Unchecked
  {
    errors, reported, verdict := 0, [], map[];
    if !verifyCircularPaths {
      return;
    }
    ghost var hosts := set h | h in hostList;
    ClearStatus(hostList);
    errors, verdict := SearchAll(hostList, hosts, g);
    reported := ReportAndClear(hostList, hosts, verdict);
  }

  /** Every host on a cycle is complained about. */
  lemma CycleMembersReported<T>(g: Links<T>, col: Colours<T>, list: seq<T>, h: T)
    requires Closed(g) && ColoursTellCycles(g, col) && forall x :: x in list ==> x in g
    requires h in list && OnCycle(g, h)
    ensures h in LoopyHosts(col, list)
  {
    OnCycleFacts(g, h);
    ReportedExactly(g, col, list, h);
  }

  /** The complaint reads "is part of a circular parent/child chain"; a host that merely leads
      into one gets it too once it has a parent: here `2` has parent `1` and leads to the loop
      at `3`. */
  lemma BystanderReported(col: Colours<int>)
    requires ColoursTellCycles(map[1 := [2], 2 := [3], 3 := [3]], col)
    ensures 2 in LoopyHosts(col, [1, 2, 3]) && !OnCycle(map[1 := [2], 2 := [3], 3 := [3]], 2)
  {
    var g: Links<int> := map[1 := [2], 2 := [3], 3 := [3]];
    ReachesSelf(g, 3);
    assert 3 in g[3] && OnCycle(g, 3);
    ReachesChild(g, 2, 3);
    assert ReachesCycle(g, 2);
    assert 2 in g[1];
    ReportedExactly(g, col, [1, 2, 3], 2);
    if OnCycle(g, 2) {
      assert Reaches(g, 3, 2);
      var p: seq<nat> :| IsLinkPath(g, 3, p, 2);
      OnlySelf(g, p);
    }
  }

  lemma {:induction false} OnlySelf(g: Links<int>, p: seq<nat>)
    requires 3 in g && g[3] == [3]
    ensures !IsLinkPath(g, 3, p, 2)
    decreases |p|
  {
    if p != [] && p[0] == 0 { OnlySelf(g, p[1..]); }
  }
}
