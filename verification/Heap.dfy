/**
 Binary heaps in a vector, as `make_heap`, `push_heap` and `pop_heap` keep them: no element is
 less than one of its two children, in the order of a comparer that may hold different elements
 for equal.
 */
module Heap {
  /** Not smaller in either direction is an equivalence: what the standard algorithms ask of a comparer. */
  ghost predicate IsOrder<T(!new)>(less: (T, T) -> bool) {
    && (forall a, b :: less(a, b) ==> !less(b, a))
    && (forall a, b, c :: !less(a, b) && !less(b, c) ==> !less(a, c))
  }

  function Up(i: nat): nat
    requires i > 0
  {
    (i - 1) / 2
  }

  /** No element is greater than the one above it. */
  ghost predicate IsHeap<T(!new)>(v: seq<T>, less: (T, T) -> bool) {
    forall i :: 0 < i < |v| ==> !less(v[Up(i)], v[i])
  }

  /** The front is a greatest element: what makes the vector a priority queue. */
  lemma {:induction false} FrontIsGreatest<T(!new)>(v: seq<T>, less: (T, T) -> bool, i: nat)
    requires IsOrder(less) && IsHeap(v, less) && i < |v|
    ensures !less(v[0], v[i])
  {
    if i > 0 {
      FrontIsGreatest(v, less, Up(i));
    }
  }

  function Swapped<T>(v: seq<T>, i: nat, j: nat): (r: seq<T>)
    requires i < |v| && j < |v|
    ensures |r| == |v| && r[i] == v[j] && r[j] == v[i]
    ensures forall k :: 0 <= k < |v| && k != i && k != j ==> r[k] == v[k]
  {
    v[i := v[j]][j := v[i]]
  }

  lemma {:induction false} SwapPermutes<T>(v: seq<T>, i: nat, j: nat)
    requires i < |v| && j < |v|
    ensures multiset(Swapped(v, i, j)) == multiset(v)
  {
  }

  /** A heap but for position `i`, which may be greater than what is above it; what is below it fits above it, too. */
  ghost predicate MayRise<T(!new)>(v: seq<T>, less: (T, T) -> bool, i: nat) {
    && i < |v|
    && (forall j :: 0 < j < |v| && j != i ==> !less(v[Up(j)], v[j]))
    && (i > 0 ==> forall j :: 0 < j < |v| && Up(j) == i ==> !less(v[Up(i)], v[j]))
  }

  /** A heap but for position `i`, which may be smaller than what is below it; what is below it fits above it, too. */
  ghost predicate MaySink<T(!new)>(v: seq<T>, less: (T, T) -> bool, i: nat) {
    && i < |v|
    && (forall j :: 0 < j < |v| && Up(j) != i ==> !less(v[Up(j)], v[j]))
    && (i > 0 ==> forall j :: 0 < j < |v| && Up(j) == i ==> !less(v[Up(i)], v[j]))
  }

  lemma {:induction false} Rises<T(!new)>(v: seq<T>, less: (T, T) -> bool, i: nat)
    requires IsOrder(less) && MayRise(v, less, i) && i > 0 && less(v[Up(i)], v[i])
    ensures MayRise(Swapped(v, i, Up(i)), less, Up(i))
  {
    var p := Up(i);
    var r := Swapped(v, i, p);
    forall j | 0 < j < |r| && j != p ensures !less(r[Up(j)], r[j]) {
      if Up(j) == p && j != i {
        assert !less(v[p], v[j]) && !less(v[i], v[p]);
      }
    }
    if p > 0 {
      forall j | 0 < j < |r| && Up(j) == p ensures !less(r[Up(p)], r[j]) {
        assert !less(v[Up(p)], v[p]);
        if j != i {
          assert !less(v[p], v[j]);
        }
      }
    }
  }

  /** `push_heap`: the last element joins the heap in front of it. */
  method PushHeap<T(!new)>(v: seq<T>, less: (T, T) -> bool) returns (h: seq<T>)
    requires IsOrder(less) && v != [] && IsHeap(v[..|v| - 1], less)
    ensures IsHeap(h, less) && multiset(h) == multiset(v)
  {
    hide IsOrder, IsHeap, MayRise, Swapped;
    h := v;
    var i: nat := |v| - 1;
    LastMayRise(v, less);
    while i > 0 && less(h[Up(i)], h[i])
      invariant i < |h| && MayRise(h, less, i) && multiset(h) == multiset(v)
    {
      Rises(h, less, i);
      SwapPermutes(h, i, Up(i));
      h := Swapped(h, i, Up(i));
      i := Up(i);
    }
    Risen(h, less, i);
  }

  lemma {:induction false} LastMayRise<T(!new)>(v: seq<T>, less: (T, T) -> bool)
    requires v != [] && IsHeap(v[..|v| - 1], less)
    ensures MayRise(v, less, |v| - 1)
  {
    forall j | 0 < j < |v| - 1 ensures !less(v[Up(j)], v[j]) {
      assert v[..|v| - 1][j] == v[j] && v[..|v| - 1][Up(j)] == v[Up(j)];
    }
  }

  lemma {:induction false} Risen<T(!new)>(v: seq<T>, less: (T, T) -> bool, i: nat)
    requires MayRise(v, less, i) && (i > 0 ==> !less(v[Up(i)], v[i]))
    ensures IsHeap(v, less)
  {
  }

  /** The child to exchange with: the greater one, if there are two. */
  function Below<T>(v: seq<T>, less: (T, T) -> bool, i: nat): (j: nat)
    requires 2 * i + 1 < |v|
    ensures 0 < j < |v| && Up(j) == i
  {
    if 2 * i + 2 < |v| && less(v[2 * i + 1], v[2 * i + 2]) then 2 * i + 2 else 2 * i + 1
  }

  lemma {:induction false} BelowIsGreater<T(!new)>(v: seq<T>, less: (T, T) -> bool, i: nat, j: nat)
    requires IsOrder(less) && 2 * i + 1 < |v| && 0 < j < |v| && Up(j) == i
    ensures !less(v[Below(v, less, i)], v[j])
  {
    assert j == 2 * i + 1 || j == 2 * i + 2;
  }

  lemma {:induction false} Sinks<T(!new)>(v: seq<T>, less: (T, T) -> bool, i: nat)
    requires IsOrder(less) && MaySink(v, less, i) && 2 * i + 1 < |v| && less(v[i], v[Below(v, less, i)])
    ensures MaySink(Swapped(v, i, Below(v, less, i)), less, Below(v, less, i))
  {
    hide Below;
    var c := Below(v, less, i);
    var r := Swapped(v, i, c);
    forall j | 0 < j < |r| && Up(j) != c ensures !less(r[Up(j)], r[j]) {
      if Up(j) == i {
        BelowIsGreater(v, less, i, j);
      }
    }
    forall j | 0 < j < |r| && Up(j) == c ensures !less(r[Up(c)], r[j]) {
      assert !less(v[Up(j)], v[j]);
    }
  }

  lemma {:induction false} Sunk<T(!new)>(v: seq<T>, less: (T, T) -> bool, i: nat)
    requires IsOrder(less) && MaySink(v, less, i)
    requires 2 * i + 1 < |v| ==> !less(v[i], v[Below(v, less, i)])
    ensures IsHeap(v, less)
  {
    hide Below;
    forall j | 0 < j < |v| && Up(j) == i ensures !less(v[i], v[j]) {
      BelowIsGreater(v, less, i, j);
    }
  }

  /** `pop_heap` and `pop_back`: the front leaves, the last element takes its place and sinks. */
  method PopHeap<T(!new)>(v: seq<T>, less: (T, T) -> bool) returns (top: T, rest: seq<T>)
    requires IsOrder(less) && v != [] && IsHeap(v, less)
    ensures top == v[0] && IsHeap(rest, less) && multiset(rest) == multiset(v[1..])
    ensures forall x :: x in v ==> !less(top, x)
  {
    hide IsOrder, IsHeap, MaySink, Swapped, Below, Up;
    top := v[0];
    forall i | 0 <= i < |v| ensures !less(top, v[i]) {
      FrontIsGreatest(v, less, i);
    }
    if |v| == 1 {
      rest := [];
      NothingIsHeap(less);
      return;
    }
    rest := [v[|v| - 1]] + v[1..|v| - 1];
    LastToFront(v, less);
    var i: nat := 0;
    while 2 * i + 1 < |rest| && less(rest[i], rest[Below(rest, less, i)])
      invariant i < |rest| && MaySink(rest, less, i) && multiset(rest) == multiset(v[1..])
      decreases |rest| - i
    {
      var j := Below(rest, less, i);
      BelowIsFurther(rest, less, i);
      Sinks(rest, less, i);
      SwapPermutes(rest, i, j);
      rest := Swapped(rest, i, j);
      i := j;
    }
    Sunk(rest, less, i);
  }

  lemma {:induction false} BelowIsFurther<T>(v: seq<T>, less: (T, T) -> bool, i: nat)
    requires 2 * i + 1 < |v|
    ensures Below(v, less, i) > i
  {
  }

  lemma {:induction false} NothingIsHeap<T(!new)>(less: (T, T) -> bool)
    ensures IsHeap([], less)
  {
  }

  lemma {:induction false} LastToFront<T(!new)>(v: seq<T>, less: (T, T) -> bool)
    requires |v| > 1 && IsHeap(v, less)
    ensures var r := [v[|v| - 1]] + v[1..|v| - 1]; MaySink(r, less, 0) && multiset(r) == multiset(v[1..])
  {
    var r := [v[|v| - 1]] + v[1..|v| - 1];
    assert v[1..] == v[1..|v| - 1] + [v[|v| - 1]];
    forall j | 0 < j < |r| && Up(j) != 0 ensures !less(r[Up(j)], r[j]) {
      assert r[j] == v[j] && r[Up(j)] == v[Up(j)];
    }
  }

  /** `make_heap`. */
  method MakeHeap<T(!new)>(v: seq<T>, less: (T, T) -> bool) returns (h: seq<T>)
    requires IsOrder(less)
    ensures IsHeap(h, less) && multiset(h) == multiset(v)
  {
    hide IsOrder, IsHeap;
    h := [];
    NothingIsHeap(less);
    for i := 0 to |v|
      invariant IsHeap(h, less) && multiset(h) == multiset(v[..i])
    {
      assert (h + [v[i]])[..|h|] == h;
      assert v[..i + 1] == v[..i] + [v[i]];
      h := PushHeap(h + [v[i]], less);
    }
    assert v[..|v|] == v;
  }
}
