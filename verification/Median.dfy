/**
 Sorting a window of times and taking its middle element, and what that element means by
 counting. `CBlockIndex.GetMedianTimePast` is the only user.
 */
module Median {

  function CountBelow(window: seq<nat>, t: nat): (n: nat)
    ensures n <= |window|
  {
    if window == [] then 0 else (if window[0] < t then 1 else 0) + CountBelow(window[1..], t)
  }

  /** At most half of the window lies below `m`, and more than half lies at or below it. */
  predicate IsMedian(window: seq<nat>, m: nat) {
    CountBelow(window, m) <= |window| / 2 < CountBelow(window, m + 1)
  }

  predicate Ordered(s: seq<nat>) {
    forall i, j :: 0 <= i < j < |s| ==> s[i] <= s[j]
  }

  function Insert(x: nat, s: seq<nat>): (r: seq<nat>)
    ensures |r| == |s| + 1
  {
    if s == [] || x <= s[0] then [x] + s else [s[0]] + Insert(x, s[1..])
  }

  /** `std::sort`: any sorting procedure gives this list, which has the same counts and is ordered. */
  function Sorted(s: seq<nat>): (r: seq<nat>)
    ensures |r| == |s|
  {
    if s == [] then [] else Insert(s[0], Sorted(s[1..]))
  }

  lemma {:induction false} InsertKeepsOrder(x: nat, s: seq<nat>)
    requires Ordered(s)
    ensures Ordered(Insert(x, s))
    ensures forall k :: 0 <= k < |Insert(x, s)| ==> Insert(x, s)[k] == x || Insert(x, s)[k] in s
  {
    if s != [] && x > s[0] {
      InsertKeepsOrder(x, s[1..]);
      assert forall k :: 0 < k < |Insert(x, s)| ==> Insert(x, s)[k] == Insert(x, s[1..])[k - 1];
    }
  }

  lemma {:induction false} SortedIsOrdered(s: seq<nat>)
    ensures Ordered(Sorted(s))
  {
    if s != [] {
      SortedIsOrdered(s[1..]);
      InsertKeepsOrder(s[0], Sorted(s[1..]));
    }
  }

  lemma {:induction false} InsertCounts(x: nat, s: seq<nat>, t: nat)
    ensures CountBelow(Insert(x, s), t) == CountBelow(s, t) + if x < t then 1 else 0
  {
    if s == [] || x <= s[0] {
      assert Insert(x, s)[1..] == s;
    } else {
      InsertCounts(x, s[1..], t);
      assert Insert(x, s)[1..] == Insert(x, s[1..]);
    }
  }

  lemma {:induction false} SortedCounts(s: seq<nat>, t: nat)
    ensures CountBelow(Sorted(s), t) == CountBelow(s, t)
  {
    if s != [] {
      SortedCounts(s[1..], t);
      InsertCounts(s[0], Sorted(s[1..]), t);
    }
  }

  /** In an ordered list, the elements below `t` are the ones before the first that is not. */
  lemma {:induction false} OrderedCounts(s: seq<nat>, k: nat, t: nat)
    requires Ordered(s) && k <= |s|
    requires k < |s| ==> s[k] >= t
    ensures CountBelow(s, t) <= k
  {
    if s != [] && k > 0 {
      OrderedCounts(s[1..], k - 1, t);
    } else if s != [] {
      OrderedCounts(s[1..], 0, t);
    }
  }

  lemma {:induction false} OrderedCountsFrom(s: seq<nat>, k: nat, t: nat)
    requires Ordered(s) && k < |s| && s[k] < t
    ensures CountBelow(s, t) > k
  {
    if k > 0 {
      OrderedCountsFrom(s[1..], k - 1, t);
      assert s[0] <= s[k];
    }
  }

  lemma {:induction false} CountMonotone(s: seq<nat>, t: nat, u: nat)
    requires t <= u
    ensures CountBelow(s, t) <= CountBelow(s, u)
  {
    if s != [] {
      CountMonotone(s[1..], t, u);
    }
  }

  lemma {:induction false} CountAppend(s: seq<nat>, x: nat, t: nat)
    ensures CountBelow(s + [x], t) == CountBelow(s, t) + if x < t then 1 else 0
  {
    if s == [] {
      assert s + [x] == [x] && [x][1..] == [];
    } else {
      CountAppend(s[1..], x, t);
      assert (s + [x])[1..] == s[1..] + [x];
    }
  }

  /** The middle of the sorted window is its one and only median. */
  lemma {:induction false} MiddleIsTheMedian(window: seq<nat>, m: nat)
    requires window != []
    ensures IsMedian(window, m) <==> m == Sorted(window)[|window| / 2]
  {
    var s, k := Sorted(window), |window| / 2;
    SortedIsOrdered(window);
    SortedCounts(window, m);
    SortedCounts(window, m + 1);
    if m <= s[k] {
      OrderedCounts(s, k, m);
    } else {
      OrderedCountsFrom(s, k, m);
    }
    if m + 1 <= s[k] {
      OrderedCounts(s, k, m + 1);
    } else {
      OrderedCountsFrom(s, k, m + 1);
    }
  }

  /** A window that gains a time above its median, and perhaps loses one time, does not get a lower median. */
  lemma {:induction false} MedianDoesNotFall(window: seq<nat>, m: nat, t: nat, dropped: nat, m': nat)
    requires IsMedian(window, m) && m < t && dropped <= 1 && dropped <= |window|
    requires IsMedian(window[dropped..] + [t], m')
    ensures m <= m'
  {
    CountAppend(window[dropped..], t, m);
    CountAppend(window[dropped..], t, m' + 1);
    assert CountBelow(window[dropped..], m) <= CountBelow(window, m);
    if m' < m {
      CountMonotone(window[dropped..] + [t], m' + 1, m);
    }
  }
}
