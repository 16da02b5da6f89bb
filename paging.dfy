/**
 * The last stage of the document query pipeline: counting the surviving
 * records, the number of pages, the one-based page window cut out of the
 * sorted list, and the next/previous flags.
 */
module Paging {
  import opened JsBuiltins
  import opened ListQuery

  /** `Math.ceil(n / d)` for a count `n` and a positive page size `d`. */
  function CeilDiv(n: nat, d: nat): (r: nat)
    requires d >= 1
    ensures r * d >= n
    ensures r == 0 || (r - 1) * d < n
    ensures r == 0 <==> n == 0
  {
    if n % d == 0 then n / d else n / d + 1
  }

  /** The first index of one-based page `page`. */
  function PageStart(page: int, perPage: int): int
  {
    (page - 1) * perPage
  }

  /** `sorted.slice(start_index, start_index + per_page)`. */
  function Paginate<T>(sorted: seq<T>, page: int, perPage: int): seq<T>
  {
    Slice(sorted, PageStart(page, perPage), PageStart(page, perPage) + perPage)
  }

  /** The pagination metadata returned with a page of a `total`-record listing. */
  function PaginationFor(total: nat, page: int, perPage: int): (r: PaginationInfo)
    requires perPage >= 1
    ensures r.totalRecords == total && r.currentPage == page && r.perPage == perPage
    ensures r.totalPages * perPage >= total && (r.totalPages == 0 || (r.totalPages - 1) * perPage < total)
    ensures r.hasNext <==> page < r.totalPages
    ensures r.hasPrev <==> page > 1
  {
    var totalPages := CeilDiv(total, perPage);
    PaginationInfo(total, totalPages, page, perPage, page < totalPages, page > 1)
  }

  lemma MulMono(a: int, b: int, d: nat)
    requires a <= b
    ensures a * d <= b * d
  {
  }

  /**
   * For a page counted from 1, the page is the contiguous run of records
   * starting at `(page - 1) * perPage`, at most `perPage` long, and it is empty
   * exactly when the page lies past the last one.
   */
  lemma PageWindow<T>(sorted: seq<T>, page: int, perPage: int)
    requires perPage >= 1 && page >= 1
    ensures var start := PageStart(page, perPage);
      var data := Paginate(sorted, page, perPage);
      && |data| <= perPage
      && (start < |sorted| ==> data == sorted[start..if start + perPage < |sorted| then start + perPage else |sorted|])
      && (data == [] <==> page > CeilDiv(|sorted|, perPage))
  {
    var start := PageStart(page, perPage);
    var n := |sorted|;
    var tp := CeilDiv(n, perPage);
    MulMono(0, page - 1, perPage);
    if page > tp {
      MulMono(tp, page - 1, perPage);
    } else {
      MulMono(page - 1, tp - 1, perPage);
    }
  }

  /** Every record lies on exactly the page its index says: record `i` is entry `i % perPage` of page `i / perPage + 1`. */
  lemma PageOfIndex<T>(sorted: seq<T>, i: int, perPage: int)
    requires perPage >= 1 && 0 <= i < |sorted|
    ensures var data := Paginate(sorted, i / perPage + 1, perPage);
      i % perPage < |data| && data[i % perPage] == sorted[i]
  {
    var page, r := i / perPage + 1, i % perPage;
    IndexSplit(i, perPage);
    var start := PageStart(page, perPage);
    var end := if start + perPage < |sorted| then start + perPage else |sorted|;
    PageWindow(sorted, page, perPage);
    assert Paginate(sorted, page, perPage) == sorted[start..end];
  }

  /** Index `i` lies `i % perPage` entries into page `i / perPage + 1`. */
  lemma IndexSplit(i: int, perPage: int)
    requires perPage >= 1 && i >= 0
    ensures PageStart(i / perPage + 1, perPage) == i - i % perPage
    ensures 0 <= i % perPage < perPage
  {
    var q := i / perPage;
    assert PageStart(q + 1, perPage) == q * perPage;
  }

  /** Page 0 is always empty: its window `[-perPage, 0)` ends at index 0. */
  lemma PageZeroIsEmpty<T>(sorted: seq<T>, perPage: int)
    requires perPage >= 1
    ensures Paginate(sorted, 0, perPage) == []
  {
  }

  /**
   * A negative page counts from the end, as `slice` does with negative
   * indices: page `page < 0` is the run that ends `-page * perPage` records
   * before the end and starts `perPage` records earlier, clipped at the
   * front (so page -1 of 50 records, ten a page, holds records 30 to 39).
   */
  lemma NegativePageCountsFromEnd<T>(sorted: seq<T>, page: int, perPage: int)
    requires perPage >= 1 && page < 0
    ensures var from, to := |sorted| + (page - 1) * perPage, |sorted| + page * perPage;
      Paginate(sorted, page, perPage) == if to <= 0 then [] else sorted[(if from < 0 then 0 else from)..to]
  {
    var start := PageStart(page, perPage);
    MulMono(page, -1, perPage);
    assert page * perPage < 0;
    assert start == page * perPage - perPage;
    assert start + perPage == page * perPage;
  }
}
