/** The client-side pager of `usePagination`: a page number over a list of items. Page `p`
    shows the items `slice((p - 1) * k, (p - 1) * k + k)`; there are `ceil(n / k)` pages. */
module Pagination {
  import opened Js

  /** `itemsPerPage` when the caller gives none. */
  const DefaultPageSize: nat := 10

  function Max(a: int, b: int): int { if a >= b then a else b }
  function Min(a: int, b: int): int { if a <= b then a else b }

  /** `items.slice((page - 1) * k, (page - 1) * k + k)`. */
  function PageItems<T>(items: seq<T>, page: int, k: nat): (r: seq<T>)
    ensures |r| <= k
  {
    var start := (page - 1) * k;
    Slice(items, start, start + k)
  }

  /** The management pages' inline form of the same slice:
      `items.slice((currentPage - 1) * k, currentPage * k)`. */
  function InlinePage<T>(items: seq<T>, currentPage: int, k: nat): (r: seq<T>)
    ensures |r| <= |items|
  {
    Slice(items, (currentPage - 1) * k, currentPage * k)
  }

  /** `Math.ceil(items.length / k)`. */
  function TotalPages(n: nat, k: nat): (r: nat)
    requires k > 0
    ensures r * k >= n && (r == 0 || (r - 1) * k < n)
  {
    CeilDiv(n, k)
  }

  /** Pages `1..m` laid end to end. */
  function Pages<T>(items: seq<T>, k: nat, m: nat): seq<T> {
    if m == 0 then [] else Pages(items, k, m - 1) + PageItems(items, m, k)
  }

  // ---------------------------------------------------------------- lemmas

  /** From page 1 on, page `p` holds exactly the items at positions `(p - 1) * k` up to but
      not including `p * k`, cut off at the end of the list. */
  lemma PageContents<T>(items: seq<T>, page: int, k: nat)
    requires page >= 1
    ensures PageItems(items, page, k) == items[Min((page - 1) * k, |items|)..Min(page * k, |items|)]
  {
    var start := (page - 1) * k;
    assert start >= 0 by { MulMonotone(0, page - 1, k); }
    assert start + k == page * k;
    assert SliceIndex(start, |items|) == Min(start, |items|);
    assert SliceIndex(start + k, |items|) == Min(page * k, |items|);
  }

  /** The inline slice is the pager's page. */
  lemma InlinePageIsPage<T>(items: seq<T>, currentPage: int, k: nat)
    ensures InlinePage(items, currentPage, k) == PageItems(items, currentPage, k)
    ensures |InlinePage(items, currentPage, k)| <= k
  {
    assert (currentPage - 1) * k + k == currentPage * k;
  }

  /** Page 0, where "next" leads on an empty list, is empty whatever the items. */
  lemma PageZeroEmpty<T>(items: seq<T>, k: nat)
    ensures PageItems(items, 0, k) == []
  {
  }

  /** Pages past the last one are empty. */
  lemma PagePastEndEmpty<T>(items: seq<T>, page: int, k: nat)
    requires k > 0 && page > TotalPages(|items|, k)
    ensures PageItems(items, page, k) == []
  {
    PageContents(items, page, k);
    var t := TotalPages(|items|, k);
    assert (page - 1) * k >= t * k by {
      assert page - 1 >= t;
      MulMonotone(t, page - 1, k);
    }
  }

  lemma MulMonotone(a: nat, b: nat, k: nat)
    requires a <= b
    ensures a * k <= b * k
  {
  }

  /** Pages `1..m` together are the first `m * k` items. */
  lemma {:induction false} PagesPrefix<T>(items: seq<T>, k: nat, m: nat)
    ensures Pages(items, k, m) == items[..Min(m * k, |items|)]
  {
    if m > 0 {
      MulSucc(m, k);
      var lo := (m - 1) * k;
      PagesPrefix(items, k, m - 1);
      PagesStep(items, k, m, lo);
    }
  }

  /** Adding page `m` to the first `m - 1` pages extends the prefix by `k` items. */
  lemma PagesStep<T>(items: seq<T>, k: nat, m: nat, lo: nat)
    requires m > 0 && lo == (m - 1) * k
    requires Pages(items, k, m - 1) == items[..Min(lo, |items|)]
    ensures Pages(items, k, m) == items[..Min(lo + k, |items|)]
  {
    SliceContents(items, lo, k);
    PrefixSplit(items, Min(lo, |items|), Min(lo + k, |items|));
  }

  lemma PrefixSplit<T>(items: seq<T>, a: nat, b: nat)
    requires a <= b <= |items|
    ensures items[..a] + items[a..b] == items[..b]
  {
  }

  lemma SliceContents<T>(items: seq<T>, start: nat, k: nat)
    ensures Slice(items, start, start + k) == items[Min(start, |items|)..Min(start + k, |items|)]
  {
  }

  lemma MulSucc(m: nat, k: nat)
    requires m > 0
    ensures (m - 1) * k >= 0 && m * k == (m - 1) * k + k
  {
  }

  /** Laying every page end to end gives back the whole list, in order. */
  lemma PagesCoverItems<T>(items: seq<T>, k: nat)
    requires k > 0
    ensures Pages(items, k, TotalPages(|items|, k)) == items
  {
    PagesPrefix(items, k, TotalPages(|items|, k));
  }

  /** The page list of the pager: a page number that starts at 1, moved by "previous",
      "next" and the numbered links, over an item list that the caller may replace. Slicing
      never changes `items`. */
  class Pager<T> {
    var items: seq<T>
    var currentPage: int
    const pageSize: nat

    ghost predicate Valid()
      reads this
    {
      pageSize > 0 && currentPage >= 0
    }

    constructor (items: seq<T>, pageSize: nat)
      requires pageSize > 0
      ensures Valid() && this.items == items && this.pageSize == pageSize && currentPage == 1
    {
      this.items := items;
      this.pageSize := pageSize;
      currentPage := 1;
    }

    /** `usePagination(items)` without a page size: ten items a page, starting on page 1. */
    constructor WithDefaultSize(items: seq<T>)
      ensures Valid() && this.items == items && pageSize == DefaultPageSize && currentPage == 1
    {
      this.items := items;
      pageSize := DefaultPageSize;
      currentPage := 1;
    }

    function Total(): nat
      reads this
      requires Valid()
    {
      TotalPages(|items|, pageSize)
    }

    /** The items shown. */
    function Current(): seq<T>
      reads this
    {
      PageItems(items, currentPage, pageSize)
    }

    /** "Previous": `Math.max(prev - 1, 1)`. */
    method Previous()
      requires Valid()
      modifies this
      ensures Valid() && items == old(items)
      ensures currentPage == Max(old(currentPage) - 1, 1) && currentPage >= 1
    {
      currentPage := Max(currentPage - 1, 1);
    }

    /** "Next": `Math.min(prev + 1, totalPages)`; on an empty list this is page 0. */
    method Next()
      requires Valid()
      modifies this
      ensures Valid() && items == old(items)
      ensures currentPage == Min(old(currentPage) + 1, Total())
      ensures currentPage <= Total()
    {
      currentPage := Min(currentPage + 1, Total());
    }

    /** The numbered link `i + 1`, one for each `i` in `[0, totalPages)`. */
    method Jump(i: nat)
      requires Valid() && i < Total()
      modifies this
      ensures Valid() && items == old(items)
      ensures currentPage == i + 1 && Current() == items[i * pageSize..Min((i + 1) * pageSize, |items|)]
    {
      currentPage := i + 1;
      PageContents(items, currentPage, pageSize);
      assert i * pageSize < |items| by {
        assert i <= Total() - 1;
        MulMonotone(i, Total() - 1, pageSize);
      }
    }

    /** A new item list (the query refreshes): the page number is kept. */
    method SetItems(items: seq<T>)
      requires Valid()
      modifies this
      ensures Valid() && this.items == items && currentPage == old(currentPage)
    {
      this.items := items;
    }
  }

  /** Once "next" has been pressed on an empty list, the page is 0 and shows nothing. */
  method NextOnEmptyList<T>(k: nat) returns (page: int, shown: seq<T>)
    requires k > 0
    ensures page == 0 && shown == []
  {
    var pager := new Pager<T>([], k);
    pager.Next();
    page, shown := pager.currentPage, pager.Current();
  }
}
