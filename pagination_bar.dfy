/**
 * The pagination bar under each list: the "Showing first - last of total
 * entries" caption and the rows-per-page menu, whose choice is read back
 * with `parseInt(value, 10)`.
 */
module PaginationBar {
  import opened Wrappers
  import opened JsBuiltins
  import opened Paging

  /** The page sizes the menu offers when the caller gives none. */
  const RowsPerPageOptions: seq<int> := [10, 25, 50, 100]

  function Min(a: int, b: int): (r: int)
    ensures r <= a && r <= b && (r == a || r == b)
  {
    if a <= b then a else b
  }

  /** The caption: a range of one-based positions, or "No entries found". */
  datatype RangeLabel = NoEntries | Showing(first: int, last: int, total: int)

  /** The caption for `page` of `totalItems` items, `rowsPerPage` a page. */
  function RangeShown(page: int, rowsPerPage: int, totalItems: int): (r: RangeLabel)
    ensures r.NoEntries? <==> totalItems <= 0
    ensures r.Showing? ==> r.total == totalItems && r.first <= totalItems && r.last <= totalItems
  {
    if totalItems > 0 then
      Showing(Min((page - 1) * rowsPerPage + 1, totalItems), Min(page * rowsPerPage, totalItems), totalItems)
    else NoEntries
  }

  /** For a page counted from 1, the caption is a non-empty range of at most one page's worth of positions. */
  lemma RangeBounds(page: int, rowsPerPage: int, totalItems: int)
    requires page >= 1 && rowsPerPage >= 1 && totalItems > 0
    ensures var r := RangeShown(page, rowsPerPage, totalItems);
      1 <= r.first <= r.last <= totalItems && r.last - r.first + 1 <= rowsPerPage
  {
    MulMono(0, page - 1, rowsPerPage);
  }

  /**
   * Past the last page both ends clamp to the total, so the caption reads
   * "total - total of total" while the page itself holds nothing.
   */
  lemma RangePastLastPage<T>(items: seq<T>, page: int, rowsPerPage: int)
    requires rowsPerPage >= 1 && |items| > 0 && page > CeilDiv(|items|, rowsPerPage)
    ensures RangeShown(page, rowsPerPage, |items|) == Showing(|items|, |items|, |items|)
    ensures Paginate(items, page, rowsPerPage) == []
  {
    MulMono(CeilDiv(|items|, rowsPerPage), page - 1, rowsPerPage);
    PageWindow(items, page, rowsPerPage);
  }

  /**
   * On an existing page the caption names exactly the records the page
   * holds: the first is the one after the page's start index, and the range
   * is as long as the page.
   */
  lemma RangeMatchesPage<T>(items: seq<T>, page: int, rowsPerPage: int)
    requires rowsPerPage >= 1 && 1 <= page <= CeilDiv(|items|, rowsPerPage)
    ensures var data := Paginate(items, page, rowsPerPage);
      RangeShown(page, rowsPerPage, |items|)
        == Showing(PageStart(page, rowsPerPage) + 1, PageStart(page, rowsPerPage) + |data|, |items|)
  {
    var tp := CeilDiv(|items|, rowsPerPage);
    MulMono(page - 1, tp - 1, rowsPerPage);
    MulMono(0, page - 1, rowsPerPage);
    PageWindow(items, page, rowsPerPage);
  }

  /** `parseInt(event.target.value, 10)`: the menu's value, printed and read back. */
  function ParseRowsPerPage(option: int): Option<int>
  {
    ParseInt(NumToString(option))
  }

  /** A menu value, printed and read back, is itself again: every choice the menu offers round-trips. */
  lemma RowsPerPageChoicesRoundTrip(option: int)
    ensures ParseRowsPerPage(option) == Some(option)
  {
    ParseIntOfNumToString(option);
  }

  /** Every choice the menu offers is a valid page size, and the choices grow strictly. */
  lemma RowsPerPageOptionsArePageSizes()
    ensures forall i :: 0 <= i < |RowsPerPageOptions| ==> RowsPerPageOptions[i] >= 1
    ensures forall i, j :: 0 <= i < j < |RowsPerPageOptions| ==> RowsPerPageOptions[i] < RowsPerPageOptions[j]
  {
  }
}
