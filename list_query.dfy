/**
 * The query state a list view owns and the shapes exchanged with the record
 * source: filter clauses, the sort spec, pagination metadata, fetch
 * parameters and a fetched page. Shared by the document and user lists.
 */
module ListQuery {
  import opened Wrappers
  import opened JsValues

  /** `{ key, op, value }`; `op` is kept as the raw operator string the source switches on. */
  datatype Clause = Clause(key: string, op: string, value: Value)

  /** `{ sort_by, order }`; any `order` other than "asc" sorts descending. */
  datatype SortSpec = SortSpec(sortBy: string, order: string)

  /** `{ total_records, total_pages, current_page, per_page, has_next, has_prev }`. */
  datatype PaginationInfo = PaginationInfo(
    totalRecords: int,
    totalPages: int,
    currentPage: int,
    perPage: int,
    hasNext: bool,
    hasPrev: bool)

  /** A `setPagination` payload: only the keys it carries are overwritten. */
  datatype PaginationPatch = PaginationPatch(
    totalRecords: Option<int>,
    totalPages: Option<int>,
    currentPage: Option<int>,
    perPage: Option<int>,
    hasNext: Option<bool>,
    hasPrev: Option<bool>)

  /** The arguments `loadDocuments` passes to `fetchDocuments`. */
  datatype FetchParams = FetchParams(
    page: int,
    perPage: int,
    search: string,
    sortBy: string,
    order: string,
    filters: seq<Clause>)

  /** A fulfilled fetch: `{ data, pagination, sort, filters }`. */
  datatype Listing = Listing(
    data: seq<Record>,
    pagination: PaginationInfo,
    sort: SortSpec,
    filters: seq<Clause>)

  /** Both slices start on page 1 of an empty list, ten rows a page. */
  const InitialPagination := PaginationInfo(0, 0, 1, 10, false, false)

  /** Both slices start sorted by id, ascending. */
  const InitialSort := SortSpec("id", "asc")

  /** The thunk's destructuring defaults for a call that omits every parameter. */
  const DefaultFetchParams := FetchParams(1, 10, "", "id", "asc", [])

  /**
   * The state both list slices keep: the current page of records, the query
   * that produced it, the record open in a form, and the request flags.
   * `error` is None for `null` and for an `undefined` rejection payload.
   */
  datatype ListSnapshot = ListSnapshot(
    list: seq<Record>,
    pagination: PaginationInfo,
    sort: SortSpec,
    filters: seq<Clause>,
    search: string,
    selected: Option<Record>,
    isLoading: bool,
    isSubmitting: bool,
    error: Option<string>)

  /** The initial state both list slices start from. */
  const InitialList := ListSnapshot([], InitialPagination, InitialSort, [], "", None, false, false, None)

  function Pick<T>(o: Option<T>, current: T): T
  {
    match o
    case Some(v) => v
    case None => current
  }

  /** `{ ...pagination, ...patch }`. */
  function Merge(p: PaginationInfo, patch: PaginationPatch): (r: PaginationInfo)
    ensures patch.currentPage.Some? ==> r.currentPage == patch.currentPage.value
    ensures patch.currentPage.None? ==> r.currentPage == p.currentPage
    ensures patch.perPage.Some? ==> r.perPage == patch.perPage.value
    ensures patch.perPage.None? ==> r.perPage == p.perPage
    ensures patch.totalRecords.Some? ==> r.totalRecords == patch.totalRecords.value
    ensures patch.totalRecords.None? ==> r.totalRecords == p.totalRecords
    ensures patch.totalPages.Some? ==> r.totalPages == patch.totalPages.value
    ensures patch.totalPages.None? ==> r.totalPages == p.totalPages
    ensures patch.hasNext.Some? ==> r.hasNext == patch.hasNext.value
    ensures patch.hasNext.None? ==> r.hasNext == p.hasNext
    ensures patch.hasPrev.Some? ==> r.hasPrev == patch.hasPrev.value
    ensures patch.hasPrev.None? ==> r.hasPrev == p.hasPrev
  {
    PaginationInfo(
      Pick(patch.totalRecords, p.totalRecords),
      Pick(patch.totalPages, p.totalPages),
      Pick(patch.currentPage, p.currentPage),
      Pick(patch.perPage, p.perPage),
      Pick(patch.hasNext, p.hasNext),
      Pick(patch.hasPrev, p.hasPrev))
  }

  /** `{ current_page: page }`. */
  function PageOnly(page: int): PaginationPatch
  {
    PaginationPatch(None, None, Some(page), None, None, None)
  }

  /** `{ per_page: perPage, current_page: 1 }`. */
  function PerPageFromStart(perPage: int): PaginationPatch
  {
    PaginationPatch(None, None, Some(1), Some(perPage), None, None)
  }

  /** The empty payload `{}`. */
  const EmptyPatch := PaginationPatch(None, None, None, None, None, None)

  /** Merging `{}` changes nothing; merging twice is merging the later payload over the earlier. */
  lemma MergeLaws(p: PaginationInfo, a: PaginationPatch, b: PaginationPatch)
    ensures Merge(p, EmptyPatch) == p
    ensures Merge(Merge(p, a), b) == Merge(p, PaginationPatch(
      if b.totalRecords.Some? then b.totalRecords else a.totalRecords,
      if b.totalPages.Some? then b.totalPages else a.totalPages,
      if b.currentPage.Some? then b.currentPage else a.currentPage,
      if b.perPage.Some? then b.perPage else a.perPage,
      if b.hasNext.Some? then b.hasNext else a.hasNext,
      if b.hasPrev.Some? then b.hasPrev else a.hasPrev))
    ensures Merge(Merge(p, a), a) == Merge(p, a)
  {
  }
}
