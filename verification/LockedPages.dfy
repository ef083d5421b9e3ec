/**
 `LockedPageManagerBase`: a count for each memory page of how many locked ranges touch it.
 The operating system's lock on a page is a member of `locked`. Addresses are words that
 wrap around at `limit`; the loops over the pages of a range are those of the source,
 and end unless the range reaches the last page. The live ranges are followed beside the
 counts: a page is locked as long as one of them touches it, and no longer.
 */
module LockedPages {
  import opened Powers

  type PageSize = n: nat | n > 0 witness 1

  datatype Range = Range(base: nat, size: nat)

  type Histogram = map<nat, nat>

  function PageOf(pageSize: PageSize, addr: nat): (page: nat) {
    addr - addr % pageSize
  }

  predicate IsPage(pageSize: PageSize, page: nat)
  {
    page % pageSize == 0
  }

  /** Some byte of the range lies in the page. */
  predicate Touches(pageSize: PageSize, r: Range, page: nat)
  {
    IsPage(pageSize, page) && page < r.base + r.size && r.base < page + pageSize && r.size > 0
  }

  function LocksOn(histogram: Histogram, page: nat): nat {
    if page in histogram then histogram[page] else 0
  }

  /** The range's pages are those from the page of its first byte to the page of its last. */
  lemma {:induction false} TouchedPages(pageSize: PageSize, r: Range, page: nat)
    requires r.size > 0
    ensures Touches(pageSize, r, page) <==>
      IsPage(pageSize, page) && PageOf(pageSize, r.base) <= page <= PageOf(pageSize, r.base + r.size - 1)
    ensures IsPage(pageSize, PageOf(pageSize, r.base))
  {
    PageOfIsPage(pageSize, r.base);
    PageOfIsPage(pageSize, r.base + r.size - 1);
    if IsPage(pageSize, page) && page < PageOf(pageSize, r.base) {
      PagesAreApart(pageSize, page, PageOf(pageSize, r.base));
    } else if IsPage(pageSize, page) && page > PageOf(pageSize, r.base + r.size - 1) {
      PagesAreApart(pageSize, PageOf(pageSize, r.base + r.size - 1), page);
    }
  }

  lemma {:induction false} PageOfIsPage(pageSize: PageSize, addr: nat)
    ensures IsPage(pageSize, PageOf(pageSize, addr)) &&
      PageOf(pageSize, addr) <= addr < PageOf(pageSize, addr) + pageSize
  {
    assert addr == pageSize * (addr / pageSize) + addr % pageSize;
    Multiple(pageSize, addr / pageSize);
  }

  lemma {:induction false} Multiple(d: nat, q: nat)
    requires d > 0
    ensures d * q % d == 0
  {
    assert q * d == d * q;
    QuotientIs(d * q, d, q, 0);
    assert d * q == d * (d * q / d) + d * q % d;
  }

  /** Different pages are at least a page apart. */
  lemma {:induction false} PagesAreApart(pageSize: PageSize, a: nat, b: nat)
    requires IsPage(pageSize, a) && IsPage(pageSize, b) && a < b
    ensures a + pageSize <= b
  {
    var p, q := a / pageSize, b / pageSize;
    assert a == pageSize * p && b == pageSize * q;
    if q < p + 1 {
      MulMonotone(pageSize, q, p);
    } else {
      MulMonotone(pageSize, p + 1, q);
      assert pageSize * (p + 1) == pageSize * p + pageSize;
    }
  }

  lemma {:induction false} NextPage(pageSize: PageSize, a: nat)
    requires IsPage(pageSize, a)
    ensures IsPage(pageSize, a + pageSize)
  {
    var p := a / pageSize;
    assert a + pageSize == pageSize * (p + 1);
    Multiple(pageSize, p + 1);
  }

  // Addresses are machine words: there are `limit` of them, a whole number of pages, and sums wrap around.

  lemma {:induction false} NextBelowLimit(pageSize: PageSize, limit: nat, page: nat, endPage: nat)
    requires page <= endPage < limit - pageSize
    ensures (page + pageSize) % limit == page + pageSize
  {
    DivMod(0, limit, page + pageSize);
  }

  /** The loop variable after `n` rounds. */
  function PageAfter(pageSize: PageSize, limit: nat, page: nat, n: nat): nat
    requires limit > 0
  {
    if n == 0 then page else (PageAfter(pageSize, limit, page, n - 1) + pageSize) % limit
  }

  /** For a range that reaches the last page of all, the test of the loop never fails: it has no end. */
  lemma {:induction false} LastPageIsNeverPassed(pageSize: PageSize, limit: nat, page: nat, n: nat)
    requires IsPage(pageSize, page) && IsPage(pageSize, limit) && page < limit
    ensures var after := PageAfter(pageSize, limit, page, n);
            IsPage(pageSize, after) && after <= limit - pageSize
  {
    hide IsPage;
    if n == 0 {
      PagesAreApart(pageSize, page, limit);
    } else {
      LastPageIsNeverPassed(pageSize, limit, page, n - 1);
      var before := PageAfter(pageSize, limit, page, n - 1);
      NextPage(pageSize, before);
      NextOrZero(pageSize, limit, before);
    }
  }

  lemma {:induction false} NextOrZero(pageSize: PageSize, limit: nat, page: nat)
    requires IsPage(pageSize, page + pageSize) && IsPage(pageSize, limit) && page <= limit - pageSize
    ensures var next := (page + pageSize) % limit; IsPage(pageSize, next) && next <= limit - pageSize
  {
    hide IsPage;
    if page + pageSize < limit {
      DivMod(0, limit, page + pageSize);
      PagesAreApart(pageSize, page + pageSize, limit);
    } else {
      DivMod(1, limit, 0);
      ZeroIsPage(pageSize);
    }
  }

  lemma {:induction false} ZeroIsPage(pageSize: PageSize)
    ensures IsPage(pageSize, 0)
  {
  }

  /** The memory lies within the addresses, and not in the last page: what the loops need to come to an end. */
  predicate Ends(pageSize: PageSize, limit: nat, r: Range) {
    r.base + r.size <= limit && (r.size > 0 ==> PageOf(pageSize, r.base + r.size - 1) < limit - pageSize)
  }

  class LockedPageManagerBase {
    const pageSize: PageSize
    const limit: nat
    var histogram: Histogram
    var locked: set<nat>

    /** A page is locked exactly when its count is positive. */
    ghost predicate Valid()
      reads this
    {
      && IsPage(pageSize, limit) && limit > 0
      && locked == histogram.Keys
      && forall page: nat :: page in histogram ==> histogram[page] > 0 && IsPage(pageSize, page)
    }

    constructor (pageSize: PageSize, limit: nat)
      requires IsPage(pageSize, limit) && limit > 0
      ensures Valid() && histogram == map[] && this.pageSize == pageSize && this.limit == limit
    {
      this.pageSize, this.limit, histogram, locked := pageSize, limit, map[], {};
    }

    /** Each page of the range is counted once more, and locked if it was not. */
    method LockRange(p: nat, size: nat)
      requires Valid() && Ends(pageSize, limit, Range(p, size))
      modifies this
      ensures Valid() && Changed(pageSize, old(histogram), histogram, Range(p, size), 1)
    {
      hide IsPage, PageOf, Touches, ChangedBelow, Changed;
      if size == 0 {
        NothingTouched(pageSize, histogram, Range(p, size), 1);
        return;
      }
      ghost var r, before := Range(p, size), histogram;
      var page, endPage := PageOf(pageSize, p), PageOf(pageSize, p + size - 1);
      FirstPage(pageSize, before, r, 1);
      PageOfIsPage(pageSize, p + size - 1);
      while page <= endPage
        invariant Valid() && IsPage(pageSize, page) && PageOf(pageSize, p) <= page
        invariant ChangedBelow(pageSize, before, histogram, r, 1, page)
        decreases endPage + 1 - page
      {
        ghost var h := histogram;
        if page !in histogram {
          locked := locked + {page};
          histogram := histogram[page := 1];
        } else {
          histogram := histogram[page := histogram[page] + 1];
        }
        OnePageMore(pageSize, before, h, histogram, r, 1, page);
        NextBelowLimit(pageSize, limit, page, endPage);
        page := (page + pageSize) % limit;
      }
      NoPageMissed(pageSize, before, histogram, r, 1, page);
    }

    /** Each page of the range is counted once less; the last one unlocks it. */
    method UnlockRange(p: nat, size: nat)
      requires Valid() && Ends(pageSize, limit, Range(p, size))
      requires forall page: nat :: Touches(pageSize, Range(p, size), page) ==> page in histogram
      modifies this
      ensures Valid() && Changed(pageSize, old(histogram), histogram, Range(p, size), -1)
    {
      hide IsPage, PageOf, Touches, ChangedBelow, Changed;
      if size == 0 {
        NothingTouched(pageSize, histogram, Range(p, size), -1);
        return;
      }
      ghost var r, before := Range(p, size), histogram;
      var page, endPage := PageOf(pageSize, p), PageOf(pageSize, p + size - 1);
      FirstPage(pageSize, before, r, -1);
      PageOfIsPage(pageSize, p + size - 1);
      while page <= endPage
        invariant Valid() && IsPage(pageSize, page) && PageOf(pageSize, p) <= page
        invariant ChangedBelow(pageSize, before, histogram, r, -1, page)
        decreases endPage + 1 - page
      {
        StillCounted(pageSize, before, histogram, r, page);
        ghost var h := histogram;
        if histogram[page] == 1 {
          locked := locked - {page};
          histogram := histogram - {page};
        } else {
          histogram := histogram[page := histogram[page] - 1];
        }
        OnePageMore(pageSize, before, h, histogram, r, -1, page);
        NextBelowLimit(pageSize, limit, page, endPage);
        page := (page + pageSize) % limit;
      }
      NoPageMissed(pageSize, before, histogram, r, -1, page);
    }
  }

  /** The counts of exactly the pages that the range touches differ by `delta`. */
  ghost predicate Changed(pageSize: PageSize, before: Histogram, after: Histogram, r: Range, delta: int) {
    forall page: nat :: LocksOn(after, page) == LocksOn(before, page) + if Touches(pageSize, r, page) then delta else 0
  }

  /** So far, for pages below `limit`. */
  ghost predicate ChangedBelow(pageSize: PageSize, before: Histogram, after: Histogram, r: Range, delta: int,
      limit: nat) {
    forall page: nat ::
      LocksOn(after, page) == LocksOn(before, page) + if Touches(pageSize, r, page) && page < limit then delta else 0
  }

  lemma {:induction false} NothingTouched(pageSize: PageSize, histogram: Histogram, r: Range, delta: int)
    requires r.size == 0
    ensures Changed(pageSize, histogram, histogram, r, delta)
  {
  }

  lemma {:induction false} FirstPage(pageSize: PageSize, histogram: Histogram, r: Range, delta: int)
    requires r.size > 0
    ensures IsPage(pageSize, PageOf(pageSize, r.base))
    ensures ChangedBelow(pageSize, histogram, histogram, r, delta, PageOf(pageSize, r.base))
  {
    hide IsPage, PageOf, Touches, LocksOn;
    PageOfIsPage(pageSize, r.base);
    forall q: nat ensures Touches(pageSize, r, q) ==> q >= PageOf(pageSize, r.base) {
      TouchedPages(pageSize, r, q);
    }
  }

  lemma {:induction false} OnePageMore(pageSize: PageSize, before: Histogram, h: Histogram, h': Histogram, r: Range,
          delta: int, page: nat)
    requires r.size > 0 && ChangedBelow(pageSize, before, h, r, delta, page) && IsPage(pageSize, page)
    requires PageOf(pageSize, r.base) <= page <= PageOf(pageSize, r.base + r.size - 1)
    requires LocksOn(h', page) == LocksOn(h, page) + delta
    requires forall q: nat :: q != page ==> LocksOn(h', q) == LocksOn(h, q)
    ensures IsPage(pageSize, page + pageSize)
    ensures ChangedBelow(pageSize, before, h', r, delta, page + pageSize)
  {
    hide IsPage, PageOf, Touches, LocksOn;
    TouchedPages(pageSize, r, page);
    StepToNextPage(pageSize, r, page);
  }

  lemma {:induction false} NoPageMissed(pageSize: PageSize, before: Histogram, after: Histogram, r: Range, delta: int,
          limit: nat)
    requires r.size > 0 && ChangedBelow(pageSize, before, after, r, delta, limit)
    requires limit > PageOf(pageSize, r.base + r.size - 1)
    ensures Changed(pageSize, before, after, r, delta)
  {
    hide IsPage, PageOf, Touches, LocksOn;
    forall q: nat ensures Touches(pageSize, r, q) ==> q < limit {
      TouchedPages(pageSize, r, q);
    }
  }

  lemma {:induction false} StillCounted(pageSize: PageSize, before: Histogram, h: Histogram, r: Range, page: nat)
    requires r.size > 0 && ChangedBelow(pageSize, before, h, r, -1, page) && IsPage(pageSize, page)
    requires PageOf(pageSize, r.base) <= page <= PageOf(pageSize, r.base + r.size - 1)
    requires forall q: nat :: Touches(pageSize, r, q) ==> q in before
    requires forall q: nat :: q in before ==> before[q] > 0
    ensures page in h
  {
    hide IsPage, PageOf, Touches;
    TouchedPages(pageSize, r, page);
    assert LocksOn(h, page) == LocksOn(before, page);
  }

  /** No page of the range is skipped. */
  lemma {:induction false} StepToNextPage(pageSize: PageSize, r: Range, page: nat)
    requires IsPage(pageSize, page)
    ensures IsPage(pageSize, page + pageSize)
    ensures forall q: nat :: Touches(pageSize, r, q) && page < q ==> page + pageSize <= q
  {
    NextPage(pageSize, page);
    forall q: nat | Touches(pageSize, r, q) && page < q ensures page + pageSize <= q {
      PagesAreApart(pageSize, page, q);
    }
  }

  /** How many of the live ranges touch the page. */
  function CountLive(pageSize: PageSize, live: seq<Range>, page: nat): nat
  {
    if live == [] then 0 else
      CountLive(pageSize, live[..|live| - 1], page) + if Touches(pageSize, live[|live| - 1], page) then 1 else 0
  }

  ghost predicate Matches(pageSize: PageSize, histogram: Histogram, live: seq<Range>)
  {
    forall page: nat :: LocksOn(histogram, page) == CountLive(pageSize, live, page)
  }

  lemma {:induction false} LockKeepsMatch(pageSize: PageSize, before: Histogram, after: Histogram, live: seq<Range>,
          r: Range)
    requires Matches(pageSize, before, live)
    requires Changed(pageSize, before, after, r, 1)
    ensures Matches(pageSize, after, live + [r])
  {
    hide Touches, LocksOn;
    assert (live + [r])[..|live|] == live;
  }

  lemma {:induction false} CountWithout(pageSize: PageSize, live: seq<Range>, i: nat, page: nat)
    requires i < |live|
    ensures CountLive(pageSize, live, page) ==
      CountLive(pageSize, live[..i] + live[i + 1..], page) + if Touches(pageSize, live[i], page) then 1 else 0
  {
    hide Touches;
    var last := |live| - 1;
    var rest := live[..i] + live[i + 1..];
    if i < last {
      CountWithout(pageSize, live[..last], i, page);
      assert rest[..|rest| - 1] == live[..last][..i] + live[..last][i + 1..];
      assert rest[|rest| - 1] == live[last];
    } else {
      assert rest == live[..last];
    }
  }

  /** A live range can be unlocked: all its pages are counted. */
  lemma {:induction false} LiveRangeIsCounted(pageSize: PageSize, histogram: Histogram, live: seq<Range>, i: nat,
      page: nat)
    requires Matches(pageSize, histogram, live) && i < |live| && Touches(pageSize, live[i], page)
    ensures page in histogram
  {
    hide Touches;
    CountWithout(pageSize, live, i, page);
    assert LocksOn(histogram, page) == CountLive(pageSize, live, page);
  }

  /** Afterwards the counts are those of the other live ranges. */
  lemma {:induction false} UnlockKeepsMatch(pageSize: PageSize, before: Histogram, after: Histogram, live: seq<Range>,
          i: nat)
    requires Matches(pageSize, before, live) && i < |live|
    requires Changed(pageSize, before, after, live[i], -1)
    ensures Matches(pageSize, after, live[..i] + live[i + 1..])
  {
    hide Touches;
    forall page: nat ensures CountLive(pageSize, live, page) ==
      CountLive(pageSize, live[..i] + live[i + 1..], page) + if Touches(pageSize, live[i], page) then 1 else 0 {
      CountWithout(pageSize, live, i, page);
    }
  }

  /** When every range has been unlocked no page is locked: the destructor's assertion holds. */
  lemma {:induction false} NothingLiveNothingLocked(pageSize: PageSize, histogram: Histogram)
    requires Matches(pageSize, histogram, [])
    requires forall page :: page in histogram ==> histogram[page] > 0
    ensures histogram == map[]
  {
    forall page | page in histogram ensures false {
      assert LocksOn(histogram, page) == CountLive(pageSize, [], page);
    }
  }
}
