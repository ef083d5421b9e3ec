/**
 The block tree and `CChain`, the index of the active chain by height. A block index entry
 never changes its parent or height, so these are constants of the object.
 */
module Chain {
  import opened Median
  import opened Powers

  const MEDIAN_TIME_SPAN := 11
  const TIME_LIMIT := 0x1_0000_0000

  class CBlockIndex {
    const pprev: CBlockIndex?
    const nHeight: nat
    const nTime: nat

    constructor (pprev: CBlockIndex?, nTime: nat)
      requires pprev != null ==> pprev.InTree()
      ensures this.pprev == pprev && this.nTime == nTime && InTree()
    {
      this.pprev, this.nTime := pprev, nTime;
      this.nHeight := if pprev == null then 0 else pprev.nHeight + 1;
    }

    /** Heights count the way down to a genesis block. */
    ghost predicate InTree()
      decreases nHeight
    {
      if nHeight == 0 then pprev == null else pprev != null && pprev.nHeight == nHeight - 1 && pprev.InTree()
    }

    /** The ancestors from genesis to this block, by height. */
    ghost function Path(): (path: seq<CBlockIndex?>)
      requires InTree()
      ensures |path| == nHeight + 1 && path[nHeight] == this
      decreases nHeight
    {
      if pprev == null then [this] else pprev.Path() + [this]
    }

    lemma {:induction false} PathAt(height: nat)
      requires InTree() && height <= nHeight
      ensures Path()[height] != null && Path()[height].nHeight == height && Path()[height].InTree()
      decreases nHeight
    {
      if height < nHeight {
        pprev.PathAt(height);
      }
    }

    /** `GetAncestor`: by repeated `pprev`, or nothing for a height it does not have. */
    function GetAncestor(height: int): (ancestor: CBlockIndex?)
      requires InTree()
      ensures 0 <= height <= nHeight ==> ancestor != null && ancestor.nHeight == height && ancestor.InTree()
      decreases nHeight
    {
      if height < 0 || height > nHeight then null
      else if height == nHeight then this
      else pprev.GetAncestor(height)
    }

    lemma {:induction false} AncestorIsOnPath(height: nat)
      requires InTree() && height <= nHeight
      ensures GetAncestor(height) == Path()[height]
      decreases nHeight
    {
      if height < nHeight {
        pprev.AncestorIsOnPath(height);
      }
    }

    /** The path of an ancestor is the front of the path. */
    lemma {:induction false} PathOfAncestor(height: nat)
      requires InTree() && height <= nHeight
      ensures Path()[height] != null && Path()[height].nHeight == height && Path()[height].InTree()
      ensures Path()[height].Path() == Path()[..height + 1]
      decreases nHeight
    {
      if height < nHeight {
        pprev.PathOfAncestor(height);
        assert Path()[..height + 1] == pprev.Path()[..height + 1];
      } else {
        assert Path()[..nHeight + 1] == Path();
      }
    }

    /** The times of the last `n` blocks up to this one, or of all there are, oldest first. */
    ghost function Window(n: nat): (window: seq<nat>)
      requires InTree()
      ensures |window| == if n <= nHeight then n else nHeight + 1
      decreases nHeight
    {
      if n == 0 then [] else if pprev == null then [nTime] else pprev.Window(n - 1) + [nTime]
    }

    ghost function MedianTimePast(): nat
      requires InTree()
    {
      Sorted(Window(MEDIAN_TIME_SPAN))[|Window(MEDIAN_TIME_SPAN)| / 2]
    }

    /** A window grows by one time at the old end when there is a block for it. */
    lemma {:induction false} WindowStep(n: nat)
      requires InTree()
      ensures Window(n) == if n <= nHeight then Window(n + 1)[1..] else Window(n + 1)
      decreases nHeight
    {
      if n > 0 && pprev != null {
        pprev.WindowStep(n - 1);
      }
    }

    lemma {:induction false} WindowBeforeRest(n: nat, rest: seq<nat>)
      requires InTree() && n > 0
      ensures pprev != null ==> pprev.InTree()
      ensures Window(n) + rest == (if pprev == null then [] else pprev.Window(n - 1)) + ([nTime] + rest)
    {
    }

    /** The window is filled from its end while walking down, then sorted. */
    method GetMedianTimePast() returns (median: nat)
      requires InTree()
      ensures median == MedianTimePast()
    {
      hide Sorted, Path, GetAncestor, Window;
      var pmedian := new nat[MEDIAN_TIME_SPAN];
      var pbegin, pindex: CBlockIndex? := MEDIAN_TIME_SPAN, this;
      ghost var window := Window(MEDIAN_TIME_SPAN);
      while pbegin > 0 && pindex != null
        invariant 0 <= pbegin <= MEDIAN_TIME_SPAN && (pindex != null ==> pindex.InTree())
        invariant window == (if pindex == null then [] else pindex.Window(pbegin)) + pmedian[pbegin..]
        invariant pbegin == MEDIAN_TIME_SPAN ==> pindex == this
        decreases pbegin
      {
        pindex.WindowBeforeRest(pbegin, pmedian[pbegin..]);
        ghost var rest := pmedian[pbegin..];
        pbegin := pbegin - 1;
        pmedian[pbegin] := pindex.nTime;
        assert pmedian[pbegin..] == [pindex.nTime] + rest;
        pindex := pindex.pprev;
      }
      assert window == pmedian[pbegin..];
      median := Sorted(pmedian[pbegin..])[(MEDIAN_TIME_SPAN - pbegin) / 2];
    }

    /** The header check on the timestamp: later than the median of the parent. */
    ghost predicate TimeIsNotTooOld()
      requires InTree()
    {
      pprev != null ==> nTime > pprev.MedianTimePast()
    }

    /** One header that passes keeps the median from falling, also while the window is still filling up. */
    lemma {:induction false} MedianDoesNotFallBelowParents()
      requires InTree() && pprev != null && TimeIsNotTooOld()
      ensures pprev.MedianTimePast() <= MedianTimePast()
    {
      var window := pprev.Window(MEDIAN_TIME_SPAN);
      pprev.WindowStep(MEDIAN_TIME_SPAN - 1);
      var dropped := if MEDIAN_TIME_SPAN - 1 <= pprev.nHeight then 1 else 0;
      assert Window(MEDIAN_TIME_SPAN) == window[dropped..] + [nTime];
      MiddleIsTheMedian(window, pprev.MedianTimePast());
      MiddleIsTheMedian(window[dropped..] + [nTime], MedianTimePast());
      MedianDoesNotFall(window, pprev.MedianTimePast(), nTime, dropped, MedianTimePast());
    }

    /** Along a branch whose headers all pass the check, the median never falls. */
    lemma {:induction false} MedianNeverFalls(height: nat)
      requires InTree() && height <= nHeight
      requires forall h :: height < h <= nHeight ==> GetAncestor(h).TimeIsNotTooOld()
      ensures GetAncestor(height).MedianTimePast() <= MedianTimePast()
      decreases nHeight
    {
      if height < nHeight {
        assert GetAncestor(nHeight) == this;
        forall h | height < h <= pprev.nHeight
          ensures pprev.GetAncestor(h).TimeIsNotTooOld()
        {
          assert pprev.GetAncestor(h) == GetAncestor(h);
        }
        pprev.MedianNeverFalls(height);
        MedianDoesNotFallBelowParents();
      }
    }
  }

  /**
   The time a miner puts into a header, stored in 32 bits. While the clock fits them it is the least time that
   passes the check and is not in the past, unless the median is the last 32-bit time already; a clock that
   does not fit passes exactly if what is left of it does.
   */
  method UpdateTime(pindexPrev: CBlockIndex, now: int) returns (nTime: nat)
    requires pindexPrev.InTree()
    ensures nTime < TIME_LIMIT
    ensures nTime > pindexPrev.MedianTimePast() <==>
      if now < TIME_LIMIT then pindexPrev.MedianTimePast() < TIME_LIMIT - 1
      else now % TIME_LIMIT > pindexPrev.MedianTimePast()
    ensures now < TIME_LIMIT && pindexPrev.MedianTimePast() < TIME_LIMIT - 1 ==>
      nTime >= now && (nTime == now || nTime == pindexPrev.MedianTimePast() + 1)
  {
    var median := pindexPrev.GetMedianTimePast();
    nTime := (if median + 1 >= now then median + 1 else now) % TIME_LIMIT;
  }

  /** Such a median: on top of one block at the last 32-bit time, no clock leads to a time that passes. */
  method LastTimeBlocksMining(now: int) returns (genesis: CBlockIndex, nTime: nat)
    ensures fresh(genesis) && genesis.InTree() && genesis.nTime < TIME_LIMIT
    ensures genesis.MedianTimePast() == TIME_LIMIT - 1 && nTime <= genesis.MedianTimePast()
  {
    genesis := new CBlockIndex(null, TIME_LIMIT - 1);
    assert genesis.Window(MEDIAN_TIME_SPAN) == [TIME_LIMIT - 1];
    nTime := UpdateTime(genesis, now);
  }

  /** One block down the path. */
  lemma {:induction false} ParentOnPath(tip: CBlockIndex, b: CBlockIndex)
    requires tip.InTree() && b.nHeight <= tip.nHeight && tip.Path()[b.nHeight] == b
    ensures b.InTree() && (b.nHeight == 0 <==> b.pprev == null)
    ensures b.nHeight > 0 ==> tip.Path()[b.nHeight - 1] == b.pprev
  {
    tip.PathOfAncestor(b.nHeight);
    if b.nHeight > 0 {
      assert b.Path()[b.nHeight - 1] == tip.Path()[b.nHeight - 1];
      b.AncestorIsOnPath(b.nHeight - 1);
    }
  }

  function AtLeastZero(x: int): nat {
    if x < 0 then 0 else x
  }

  /** How far below the start a locator's entry lies: ten single steps, then doubling ones. */
  function Back(i: nat): nat {
    if i <= 10 then i else 9 + Pow(2, i - 10)
  }

  lemma {:induction false} BackIsExponential(i: nat)
    ensures i < Back(i + 1) && Back(i) < Back(i + 1)
    ensures Back(i + 2) - Back(i + 1) == if i + 1 > 10 then 2 * (Back(i + 1) - Back(i)) else 1
    ensures i >= 10 ==> Back(i + 1) == 2 * Back(i) - 9
  {
    if i <= 10 {
      assert Pow(2, 0) == 1 && Pow(2, 1) == 2 && Pow(2, 2) == 4;
    } else {
      BackIsExponential(i - 1);
      PowPositive(2, i - 10);
    }
  }

  /** Entry `i` is the ancestor at distance `Back(i)`; the list goes on until genesis, and ends there. */
  ghost predicate IsLocator(vHave: seq<CBlockIndex>, start: CBlockIndex)
    requires start.InTree()
  {
    && vHave != []
    && Back(|vHave| - 1) >= start.nHeight
    && (|vHave| > 1 ==> Back(|vHave| - 2) < start.nHeight)
    && forall i :: 0 <= i < |vHave| ==> vHave[i] == start.Path()[AtLeastZero(start.nHeight - Back(i))]
  }

  lemma {:induction false} BackIsMonotone(i: nat, j: nat)
    requires i < j
    ensures Back(i) < Back(j)
  {
    BackIsExponential(j - 1);
    if i < j - 1 {
      BackIsMonotone(i, j - 1);
    }
  }

  /** The heights in a locator fall strictly, from the start to zero. */
  lemma {:induction false} LocatorHeightsFall(vHave: seq<CBlockIndex>, start: CBlockIndex, i: nat, j: nat)
    requires start.InTree() && IsLocator(vHave, start) && i < j < |vHave|
    ensures vHave[0] == start && vHave[|vHave| - 1].nHeight == 0
    ensures vHave[i].nHeight > vHave[j].nHeight
  {
    BackIsMonotone(i, j);
    if j < |vHave| - 1 {
      BackIsMonotone(j, |vHave| - 1);
    }
    if i < |vHave| - 2 {
      BackIsMonotone(i, |vHave| - 2);
    }
    start.PathAt(0);
    start.PathAt(AtLeastZero(start.nHeight - Back(i)));
    start.PathAt(AtLeastZero(start.nHeight - Back(j)));
  }

  /** A locator has at most 12 + log2(h) entries, well within 13 + log2(h + 1). */
  lemma {:induction false} LocatorIsShort(vHave: seq<CBlockIndex>, start: CBlockIndex)
    requires start.InTree() && IsLocator(vHave, start)
    ensures |vHave| <= 12 || Pow(2, |vHave| - 12) <= start.nHeight
  {
  }

  /**
   A peer that knows the ancestors up to height `fork` finds its first known entry `i` at the start,
   or at less than twice the distance of the fork below it.
   */
  lemma {:induction false} LocatorIsNearFork(vHave: seq<CBlockIndex>, start: CBlockIndex, fork: nat, i: nat)
    requires start.InTree() && IsLocator(vHave, start) && fork <= start.nHeight
    requires i < |vHave| && vHave[i].nHeight <= fork && (i > 0 ==> vHave[i - 1].nHeight > fork)
    ensures start.nHeight - vHave[i].nHeight <= 2 * (start.nHeight - fork)
    ensures i > 0 ==> start.nHeight - vHave[i].nHeight < 2 * (start.nHeight - fork)
  {
    start.PathAt(AtLeastZero(start.nHeight - Back(i)));
    if i > 0 {
      start.PathAt(AtLeastZero(start.nHeight - Back(i - 1)));
      BackIsExponential(i - 1);
    }
  }

  lemma {:induction false} OneMoreInPlace<T>(old': seq<T>, path: seq<T>, done: nat)
    requires done <= |path| == |old'|
    ensures done > 0 ==>
      (old'[..done] + path[done..])[done - 1 := path[done - 1]] == old'[..done - 1] + path[done - 1..]
    ensures old'[..done] == path[..done] ==> old'[..done] + path[done..] == path
  {
  }

  class CChain {
    var vChain: seq<CBlockIndex?>

    /** The index is the path of its tip. */
    ghost predicate Valid()
      reads this
    {
      IsPath(vChain)
    }

    static ghost predicate IsPath(chain: seq<CBlockIndex?>) {
      chain == [] || (var last := chain[|chain| - 1]; last != null && last.InTree() && chain == last.Path())
    }

    constructor ()
      ensures vChain == [] && Valid()
    {
      vChain := [];
    }

    function Tip(): CBlockIndex?
      reads this
    {
      if |vChain| > 0 then vChain[|vChain| - 1] else null
    }

    function Height(): int
      reads this
    {
      |vChain| - 1
    }

    function At(nHeight: int): CBlockIndex?
      reads this
    {
      if nHeight < 0 || nHeight >= |vChain| then null else vChain[nHeight]
    }

    predicate Contains(pindex: CBlockIndex)
      reads this
    {
      At(pindex.nHeight) == pindex
    }

    /** In a valid index, a block is contained exactly when it is an ancestor of the tip, or the tip. */
    lemma {:induction false} ContainsIffAncestorOfTip(pindex: CBlockIndex)
      requires Valid() && pindex.InTree()
      ensures Contains(pindex) <==> Tip() != null && Tip().InTree() && Tip().GetAncestor(pindex.nHeight) == pindex
      ensures Contains(pindex) ==> vChain[..pindex.nHeight + 1] == pindex.Path()
    {
      if Tip() != null && pindex.nHeight <= Tip().nHeight {
        Tip().AncestorIsOnPath(pindex.nHeight);
        Tip().PathOfAncestor(pindex.nHeight);
      }
    }

    /** The loop stops at the first block that is already in place; below it everything is. */
    method SetTip(pindexIn: CBlockIndex?)
      requires Valid() && (pindexIn != null ==> pindexIn.InTree())
      modifies this
      ensures Valid()
      ensures pindexIn == null ==> vChain == []
      ensures pindexIn != null ==> vChain == pindexIn.Path()
    {
      hide CBlockIndex.InTree, CBlockIndex.Path;
      if pindexIn == null {
        vChain := [];
        return;
      }
      ghost var path, before := pindexIn.Path(), vChain;
      Resize(pindexIn.nHeight + 1);
      ghost var resized := vChain;
      var pindex: CBlockIndex? := pindexIn;
      ghost var done := |path|;
      while pindex != null && vChain[pindex.nHeight] != pindex
        invariant done <= |path| == |resized| && done == if pindex == null then 0 else pindex.nHeight + 1
        invariant pindex != null ==> path[pindex.nHeight] == pindex
        invariant vChain == resized[..done] + path[done..]
        decreases done
      {
        ParentOnPath(pindexIn, pindex);
        OneMoreInPlace(resized, path, done);
        vChain := vChain[pindex.nHeight := pindex];
        pindex := pindex.pprev;
        done := done - 1;
      }
      if pindex != null {
        StopIsRight(before, resized, pindexIn, pindex);
      }
      OneMoreInPlace(resized, path, done);
    }

    /** `vChain.resize`: cut off, or filled up with nulls. */
    method Resize(size: nat)
      modifies this
      ensures |vChain| == size
      ensures forall h :: 0 <= h < size ==> vChain[h] == if h < |old(vChain)| then old(vChain)[h] else null
    {
      vChain := if size <= |vChain| then vChain[..size] else vChain + seq(size - |vChain|, _ => null);
    }

    /** Where an old index has a block, it has all its ancestors, so the loop may stop there. */
    static lemma {:induction false} StopIsRight(before: seq<CBlockIndex?>, resized: seq<CBlockIndex?>,
            tip: CBlockIndex, pindex: CBlockIndex)
      requires tip.InTree() && pindex.nHeight <= tip.nHeight && tip.Path()[pindex.nHeight] == pindex
      requires IsPath(before) && |resized| == tip.nHeight + 1
      requires forall h :: 0 <= h < |resized| ==> resized[h] == if h < |before| then before[h] else null
      requires resized[pindex.nHeight] == pindex
      ensures resized[..pindex.nHeight + 1] == tip.Path()[..pindex.nHeight + 1]
    {
      hide CBlockIndex.InTree, CBlockIndex.Path;
      tip.PathOfAncestor(pindex.nHeight);
      before[|before| - 1].PathOfAncestor(pindex.nHeight);
      assert resized[..pindex.nHeight + 1] == before[..pindex.nHeight + 1];
    }

    /** Nothing above `fork` is common to the active chain and the branch of `pindex`. */
    ghost predicate NoneAbove(pindex: CBlockIndex, fork: CBlockIndex?)
      requires pindex.InTree()
      reads this
    {
      forall h :: (if fork == null then 0 else fork.nHeight + 1) <= h <= pindex.nHeight && h < |vChain| ==>
        pindex.Path()[h] != vChain[h]
    }

    /** The successor of a block in this chain. */
    function Next(pindex: CBlockIndex): CBlockIndex?
      reads this
    {
      if Contains(pindex) then At(pindex.nHeight + 1) else null
    }

    /** `Next` gives a child on the active chain, and gives nothing only for the tip and for blocks elsewhere. */
    lemma {:induction false} NextIsTheActiveChild(pindex: CBlockIndex)
      requires Valid() && pindex.InTree()
      ensures Next(pindex) == null <==> !Contains(pindex) || pindex == Tip()
      ensures Next(pindex) != null ==> Next(pindex).pprev == pindex && Contains(Next(pindex))
    {
      if Contains(pindex) && pindex != Tip() {
        Tip().PathAt(pindex.nHeight + 1);
        ParentOnPath(Tip(), vChain[pindex.nHeight + 1]);
      }
    }

    /**
     A locator starting at `pindex`, or at the tip. Entry `i` is the ancestor `Back(i)` blocks below
     the start, whichever way it was looked up; the last entry is the genesis block.
     */
    method GetTheRightLocator(pindex: CBlockIndex?) returns (vHave: seq<CBlockIndex>)
      requires Valid() && (pindex != null ==> pindex.InTree())
      ensures pindex == null && vChain == [] ==> vHave == []
      ensures pindex != null ==> IsLocator(vHave, pindex)
      ensures pindex == null && vChain != [] ==> IsLocator(vHave, Tip())
    {
      hide CBlockIndex.Path, CBlockIndex.InTree, CBlockIndex.GetAncestor, Pow;
      vHave := [];
      var from := if pindex == null then Tip() else pindex;
      if from == null {
        return;
      }
      ghost var start: CBlockIndex := from;
      var nStep, at: CBlockIndex := 1, from;
      while true
        invariant start.InTree() && at.InTree() && at.nHeight <= start.nHeight
        invariant at.nHeight == AtLeastZero(start.nHeight - Back(|vHave|)) && start.Path()[at.nHeight] == at
        invariant nStep == Back(|vHave| + 1) - Back(|vHave|)
        invariant forall i :: 0 <= i < |vHave| ==>
          start.nHeight > Back(i) && vHave[i] == start.Path()[start.nHeight - Back(i)]
        decreases at.nHeight
      {
        vHave := vHave + [at];
        if at.nHeight == 0 {
          break;
        }
        var nHeight := AtLeastZero(at.nHeight - nStep);
        BackIsExponential(|vHave| - 1);
        EitherLookupIsRight(start, at, nHeight);
        at := if Contains(at) then At(nHeight) else at.GetAncestor(nHeight);
        if |vHave| > 10 {
          nStep := nStep * 2;
        }
      }
    }

    /** The index and the walk down give the same ancestor. */
    lemma {:induction false} EitherLookupIsRight(start: CBlockIndex, at: CBlockIndex, height: nat)
      requires Valid() && start.InTree() && height <= at.nHeight <= start.nHeight && start.Path()[at.nHeight] == at
      ensures at.InTree() && at.GetAncestor(height) == start.Path()[height]
      ensures Contains(at) ==> At(height) == start.Path()[height]
      ensures start.Path()[height] != null && start.Path()[height].nHeight == height && start.Path()[height].InTree()
    {
      hide CBlockIndex.Path, CBlockIndex.InTree, CBlockIndex.GetAncestor;
      start.PathOfAncestor(at.nHeight);
      at.AncestorIsOnPath(height);
      ContainsIffAncestorOfTip(at);
      start.PathAt(height);
      assert at.Path()[height] == start.Path()[..at.nHeight + 1][height];
      if Contains(at) {
        assert vChain[..at.nHeight + 1][height] == vChain[height];
      }
    }

    /** The highest block that the active chain shares with the branch of `pindexIn`, if any. */
    method FindFork(pindexIn: CBlockIndex) returns (fork: CBlockIndex?)
      requires Valid() && pindexIn.InTree()
      ensures fork != null ==>
        fork.nHeight <= pindexIn.nHeight && pindexIn.Path()[fork.nHeight] == fork && Contains(fork)
      ensures NoneAbove(pindexIn, fork)
    {
      hide CBlockIndex.Path;
      fork := pindexIn;
      if pindexIn.nHeight > Height() {
        fork := pindexIn.GetAncestor(Height());
        if Height() >= 0 {
          pindexIn.AncestorIsOnPath(Height());
          pindexIn.PathAt(Height());
        }
      }
      while fork != null && !Contains(fork)
        invariant fork != null ==>
          fork.nHeight <= pindexIn.nHeight && fork.nHeight < |vChain| && pindexIn.Path()[fork.nHeight] == fork
        invariant NoneAbove(pindexIn, fork)
        decreases if fork == null then 0 else fork.nHeight + 1
      {
        ParentOnPath(pindexIn, fork);
        fork := fork.pprev;
      }
    }
  }

  /** Two branches that agree at a height agree at all heights below it: the fork is the last common block. */
  lemma {:induction false} AgreementIsDownwardClosed(a: CBlockIndex, b: CBlockIndex, h: nat, g: nat)
    requires a.InTree() && b.InTree() && g <= h <= a.nHeight && h <= b.nHeight && a.Path()[h] == b.Path()[h]
    ensures a.Path()[g] == b.Path()[g]
  {
    a.PathOfAncestor(h);
    b.PathOfAncestor(h);
    assert a.Path()[g] == a.Path()[..h + 1][g] && b.Path()[g] == b.Path()[..h + 1][g];
  }
}
