/**
 * The document list screen's handlers as transitions of the document store:
 * each one is the sequence of dispatches the screen issues, and every change
 * to the query except a plain page change sends the list back to page 1.
 */
module DocumentList {
  import opened Wrappers
  import opened JsValues
  import opened ListQuery
  import opened Filtering
  import opened Paging
  import opened Sorting
  import opened DocumentQuery
  import opened DocumentSlice

  /** The arguments `loadDocuments` builds from the stored query. */
  function LoadDocumentsParams(s: ListSnapshot): FetchParams
  {
    FetchParams(s.pagination.currentPage, s.pagination.perPage, s.search, s.sort.sortBy, s.sort.order, s.filters)
  }

  /**
   * Loading round-trips the stored query: a successful fetch of the stored
   * query reports back the same page, page size and sort, so storing its
   * result leaves the query the screen asked with unchanged.
   */
  lemma LoadKeepsQuery(records: seq<Record>, s: ListSnapshot)
    requires s.pagination.perPage >= 1
    ensures var p := LoadDocumentsParams(s);
      FetchDocuments(records, p).Success? ==>
        var l := FetchDocuments(records, p).value;
        && l.pagination.currentPage == s.pagination.currentPage
        && l.pagination.perPage == s.pagination.perPage
        && l.sort == s.sort
        && l.filters == s.filters
  {
    var p := LoadDocumentsParams(s);
    if FetchDocuments(records, p).Success? {
      FetchPagination(records, p);
    }
  }

  /** `loadDocuments`: fetch with the stored page, page size, sort, search and clauses. */
  method LoadDocuments(store: DocumentStore, records: seq<Record>)
    requires store.pagination.perPage >= 1
    modifies store
    ensures !store.isLoading
    ensures store.search == old(store.search) && store.filters == old(store.filters)
    ensures store.selected == old(store.selected) && store.isSubmitting == old(store.isSubmitting)
    ensures FetchDocuments(records, LoadDocumentsParams(old(store.State()))).Success? ==>
      && store.pagination.currentPage == old(store.pagination.currentPage)
      && store.pagination.perPage == old(store.pagination.perPage)
      && store.sort == old(store.sort)
      && |store.list| <= store.pagination.perPage
      && forall d :: d in store.list ==> d in records && Selected(d, LoadDocumentsParams(old(store.State())))
    ensures FetchDocuments(records, LoadDocumentsParams(old(store.State()))).Failure? ==>
      store.list == old(store.list) && store.error == Some(SearchTypeError)
    ensures match FetchDocuments(records, LoadDocumentsParams(old(store.State())))
      case Success(l) => store.State() == old(store.State()).(isLoading := false, list := l.data,
        pagination := l.pagination, sort := l.sort, error := None)
      case Failure(e) => store.State() == old(store.State()).(isLoading := false, error := Some(e))
    ensures FetchDocuments(records, LoadDocumentsParams(old(store.State()))).Success? ==>
      && store.pagination.totalRecords == |Selection(records, LoadDocumentsParams(old(store.State())))|
      && (forall i, j :: 0 <= i < j < |store.list| ==>
            !Before(store.list[j], store.list[i], SortOf(LoadDocumentsParams(old(store.State())))))
  {
    LoadKeepsQuery(records, store.State());
    store.RunFetch(records, LoadDocumentsParams(store.State()));
  }

  /** `handleSort`: the sort becomes exactly the clicked column and direction. */
  method HandleSort(store: DocumentStore, columnId: string, direction: string)
    modifies store
    ensures store.State() == old(store.State()).(sort := SortSpec(columnId, direction))
  {
    store.SetSort(SortSpec(columnId, direction));
  }

  /** `handlePageChange`: only the current page changes. */
  method HandlePageChange(store: DocumentStore, page: int)
    modifies store
    ensures store.State() == old(store.State()).(pagination := old(store.pagination).(currentPage := page))
  {
    store.SetPagination(PageOnly(page));
  }

  /** `handleRowsPerPageChange`: the new page size, from page 1. */
  method HandleRowsPerPageChange(store: DocumentStore, perPage: int)
    modifies store
    ensures store.State() == old(store.State()).(pagination := old(store.pagination).(perPage := perPage, currentPage := 1))
  {
    store.SetPagination(PerPageFromStart(perPage));
  }

  /** `handleSearchChange`: the new search, from page 1. */
  method HandleSearchChange(store: DocumentStore, value: string)
    modifies store
    ensures store.State() == old(store.State()).(search := value, pagination := old(store.pagination).(currentPage := 1))
  {
    store.SetSearch(value);
    store.SetPagination(PageOnly(1));
  }

  /** `handleApplyFilters`, which also serves to remove a clause: the new clause list, from page 1. */
  method HandleApplyFilters(store: DocumentStore, newFilters: seq<Clause>)
    modifies store
    ensures store.State() == old(store.State()).(filters := newFilters, pagination := old(store.pagination).(currentPage := 1))
  {
    store.SetFilters(newFilters);
    store.SetPagination(PageOnly(1));
  }

  /** `handleResetFilters`: no clauses, no search, page 1; sort and page size stay. */
  method HandleResetFilters(store: DocumentStore)
    modifies store
    ensures store.State() == old(store.State()).(filters := [], search := "", pagination := old(store.pagination).(currentPage := 1))
  {
    store.ResetFilters();
    store.SetPagination(PageOnly(1));
  }

  /** `handleDeleteConfirm`: delete, then reload the current query. */
  method HandleDeleteConfirm(store: DocumentStore, records: seq<Record>)
    requires store.pagination.perPage >= 1
    modifies store
    ensures store.selected == None
    ensures !store.isSubmitting && !store.isLoading
    ensures store.search == old(store.search) && store.filters == old(store.filters)
    ensures match FetchDocuments(records, LoadDocumentsParams(old(store.State())))
      case Success(l) => store.State() == old(store.State()).(isSubmitting := false, selected := None,
        isLoading := false, list := l.data, pagination := l.pagination, sort := l.sort, error := None)
      case Failure(e) => store.State() == old(store.State()).(isSubmitting := false, selected := None,
        isLoading := false, error := Some(e))
  {
    store.RunDelete();
    LoadDocuments(store, records);
  }
}
