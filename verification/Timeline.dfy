/** Sequences kept in order of time: the abstract value of an event list.

    `time` gives the run time of every element; elements are told apart by identity, so that
    elements due at the same time keep the order in which they came.
  */
module Timeline {
  import opened Common

  ghost predicate TimesKnown<T>(s: seq<T>, time: map<T, int>) {
    forall i :: 0 <= i < |s| ==> s[i] in time
  }

  ghost predicate Sorted<T>(s: seq<T>, time: map<T, int>)
    requires TimesKnown(s, time)
  {
    forall i, j :: 0 <= i < j < |s| ==> time[s[i]] <= time[s[j]]
  }

  function InsertAt<T>(s: seq<T>, k: nat, e: T): seq<T>
    requires k <= |s|
  {
    s[..k] + [e] + s[k..]
  }

  function RemoveAt<T>(s: seq<T>, k: nat): seq<T>
    requires k < |s|
  {
    s[..k] + s[k + 1..]
  }

  /** Inserting behind everything due no later, looking from the end. */
  ghost function InsertByTime<T>(s: seq<T>, e: T, time: map<T, int>): seq<T>
    requires TimesKnown(s, time) && e in time
  {
    if s == [] then [e]
    else
      var last := s[|s| - 1];
      if time[last] <= time[e] then s + [e] else InsertByTime(s[..|s| - 1], e, time) + [last]
  }

  /** Re-inserting the elements of `s` one by one into an empty list. */
  ghost function SortByTime<T>(s: seq<T>, time: map<T, int>): seq<T>
    requires TimesKnown(s, time)
    ensures TimesKnown(SortByTime(s, time), time)
  {
    if s == [] then []
    else
      var r := SortByTime(s[..|s| - 1], time);
      InsertedKnown(r, s[|s| - 1], time);
      InsertByTime(r, s[|s| - 1], time)
  }

  /** The elements due at time `v`, in order. */
  ghost function DueAt<T>(s: seq<T>, time: map<T, int>, v: int): seq<T>
    requires TimesKnown(s, time)
  {
    if s == [] then []
    else DueAt(s[..|s| - 1], time, v) + if time[s[|s| - 1]] == v then [s[|s| - 1]] else []
  }

  lemma {:induction false} InsertedKnown<T>(s: seq<T>, e: T, time: map<T, int>)
    requires TimesKnown(s, time) && e in time
    ensures TimesKnown(InsertByTime(s, e, time), time)
    ensures |InsertByTime(s, e, time)| == |s| + 1
    decreases |s|
  {
    if s != [] { InsertedKnown(s[..|s| - 1], e, time); }
  }

  /** Where an insertion goes: behind the last element due no later. */
  lemma {:induction false} InsertByTimePosition<T>(s: seq<T>, k: nat, e: T, time: map<T, int>)
    requires TimesKnown(s, time) && e in time && k <= |s|
    requires k > 0 ==> time[s[k - 1]] <= time[e]
    requires forall j :: k <= j < |s| ==> time[e] < time[s[j]]
    ensures InsertByTime(s, e, time) == InsertAt(s, k, e)
    decreases |s|
  {
    if k < |s| {
      InsertByTimePosition(s[..|s| - 1], k, e, time);
      assert s == s[..|s| - 1] + [s[|s| - 1]];
    }
  }

  lemma {:induction false} InsertedSorted<T>(s: seq<T>, e: T, time: map<T, int>)
    requires TimesKnown(s, time) && e in time && Sorted(s, time)
    ensures TimesKnown(InsertByTime(s, e, time), time) && Sorted(InsertByTime(s, e, time), time)
    ensures multiset(InsertByTime(s, e, time)) == multiset(s) + multiset{e}
    decreases |s|
  {
    InsertedKnown(s, e, time);
    if s != [] {
      var last := s[|s| - 1];
      var front := s[..|s| - 1];
      assert s == front + [last];
      if time[last] > time[e] {
        InsertedSorted(front, e, time);
        BeforeLast(InsertByTime(front, e, time), s, e, time);
      }
    }
  }

  lemma BeforeLast<T>(r: seq<T>, s: seq<T>, e: T, time: map<T, int>)
    requires s != [] && TimesKnown(s, time) && Sorted(s, time) && e in time && time[e] <= time[s[|s| - 1]]
    requires TimesKnown(r, time) && Sorted(r, time) && multiset(r) == multiset(s[..|s| - 1]) + multiset{e}
    ensures TimesKnown(r + [s[|s| - 1]], time) && Sorted(r + [s[|s| - 1]], time)
  {
    var last := s[|s| - 1];
    forall i | 0 <= i < |r| ensures time[r[i]] <= time[last] {
      assert r[i] in multiset(r);
      if r[i] != e {
        assert r[i] in multiset(s[..|s| - 1]);
        var k :| 0 <= k < |s| - 1 && s[k] == r[i];
      }
    }
  }

  lemma {:induction false} InsertedDueAt<T>(s: seq<T>, e: T, time: map<T, int>, v: int)
    requires TimesKnown(s, time) && e in time
    ensures TimesKnown(InsertByTime(s, e, time), time)
    ensures Sorted(s, time) ==>
      DueAt(InsertByTime(s, e, time), time, v) == DueAt(s, time, v) + if time[e] == v then [e] else []
    decreases |s|
  {
    InsertedKnown(s, e, time);
    if s != [] && Sorted(s, time) {
      var last := s[|s| - 1];
      var front := s[..|s| - 1];
      if time[last] > time[e] {
        InsertedDueAt(front, e, time, v);
        var r := InsertByTime(front, e, time);
        assert (r + [last])[..|r|] == r;
      } else {
        assert (s + [e])[..|s|] == s;
      }
    }
  }

  /** Re-sorting is a stable sort: ordered, the same elements, and elements due at the same time
      in their old order. */
  lemma {:induction false} SortIsStable<T>(s: seq<T>, time: map<T, int>, v: int)
    requires TimesKnown(s, time)
    ensures Sorted(SortByTime(s, time), time)
    ensures multiset(SortByTime(s, time)) == multiset(s)
    ensures DueAt(SortByTime(s, time), time, v) == DueAt(s, time, v)
    decreases |s|
  {
    if s != [] {
      var front, last := s[..|s| - 1], s[|s| - 1];
      assert s == front + [last];
      SortIsStable(front, time, v);
      InsertedSorted(SortByTime(front, time), last, time);
      InsertedDueAt(SortByTime(front, time), last, time, v);
    }
  }

  /** There is only one way to sort stably: order and the groups of equal time fix the result. */
  lemma {:induction false} StableSortIsUnique<T>(a: seq<T>, b: seq<T>, time: map<T, int>)
    requires TimesKnown(a, time) && TimesKnown(b, time)
    requires Sorted(a, time) && Sorted(b, time)
    requires forall v :: DueAt(a, time, v) == DueAt(b, time, v)
    ensures a == b
    decreases |a|
  {
    hide DueAt;
    if a == [] {
      if b != [] { SameLastTime(b, a, time); }
    } else {
      SameLastTime(a, b, time);
      SameLastTime(b, a, time);
      var fa, fb := a[..|a| - 1], b[..|b| - 1];
      forall v ensures DueAt(fa, time, v) == DueAt(fb, time, v) {
        DueAtFront(a, b, time, v);
      }
      DueAtFront(a, b, time, time[a[|a| - 1]]);
      StableSortIsUnique(fa, fb, time);
      assert a == fa + [a[|a| - 1]];
      assert b == fb + [b[|b| - 1]];
    }
  }

  lemma SameLastTime<T>(a: seq<T>, b: seq<T>, time: map<T, int>)
    requires TimesKnown(a, time) && TimesKnown(b, time) && Sorted(b, time) && a != []
    requires DueAt(a, time, time[a[|a| - 1]]) == DueAt(b, time, time[a[|a| - 1]])
    ensures b != [] && time[b[|b| - 1]] >= time[a[|a| - 1]]
  {
    assert DueAt(a, time, time[a[|a| - 1]]) != [];
    DueAtMember(b, time, time[a[|a| - 1]]);
  }

  lemma LastOfEqual<T>(x: seq<T>, p: T, y: seq<T>, q: T)
    requires x + [p] == y + [q]
    ensures x == y && p == q
  {
    assert |x + [p]| == |y + [q]|;
    assert x == (x + [p])[..|x|] && y == (y + [q])[..|y|];
    assert (x + [p])[|x|] == (y + [q])[|y|];
  }

  lemma DueAtLast<T>(s: seq<T>, time: map<T, int>, v: int)
    requires TimesKnown(s, time) && s != []
    ensures time[s[|s| - 1]] == v ==> DueAt(s, time, v) == DueAt(s[..|s| - 1], time, v) + [s[|s| - 1]]
    ensures time[s[|s| - 1]] != v ==> DueAt(s, time, v) == DueAt(s[..|s| - 1], time, v)
  {
  }

  /** Equal groups, equal last times: the groups agree without the last elements as well. */
  lemma DueAtFront<T>(a: seq<T>, b: seq<T>, time: map<T, int>, v: int)
    requires TimesKnown(a, time) && TimesKnown(b, time) && a != [] && b != []
    requires time[a[|a| - 1]] == time[b[|b| - 1]] && DueAt(a, time, v) == DueAt(b, time, v)
    ensures DueAt(a[..|a| - 1], time, v) == DueAt(b[..|b| - 1], time, v)
    ensures v == time[a[|a| - 1]] ==> a[|a| - 1] == b[|b| - 1]
  {
    hide DueAt;
    DueAtLast(a, time, v);
    DueAtLast(b, time, v);
    var x, y := DueAt(a[..|a| - 1], time, v), DueAt(b[..|b| - 1], time, v);
    if v == time[a[|a| - 1]] {
      LastOfEqual(x, a[|a| - 1], y, b[|b| - 1]);
    }
  }

  /** Something is due at `v` only if some element is; then the last element is due no earlier. */
  lemma {:induction false} DueAtMember<T>(s: seq<T>, time: map<T, int>, v: int)
    requires TimesKnown(s, time) && Sorted(s, time) && DueAt(s, time, v) != []
    ensures s != [] && time[s[|s| - 1]] >= v
    decreases |s|
  {
    if s != [] && time[s[|s| - 1]] != v {
      DueAtMember(s[..|s| - 1], time, v);
    }
  }

  /** A list that is in order already stays as it is. */
  lemma {:induction false} SortSorted<T>(s: seq<T>, time: map<T, int>)
    requires TimesKnown(s, time) && Sorted(s, time)
    ensures SortByTime(s, time) == s
    decreases |s|
  {
    if s != [] {
      SortSorted(s[..|s| - 1], time);
      InsertByTimePosition(s[..|s| - 1], |s| - 1, s[|s| - 1], time);
      assert s == s[..|s| - 1] + [s[|s| - 1]];
    }
  }

  lemma RemoveAtDistinct<T>(s: seq<T>, k: nat)
    requires Distinct(s) && k < |s|
    ensures Distinct(RemoveAt(s, k))
    ensures multiset(RemoveAt(s, k)) == multiset(s) - multiset{s[k]}
  {
    assert s == s[..k] + [s[k]] + s[k + 1..];
  }
}
