/**
 * The user list screen's handlers as transitions of the user store. Unlike
 * the document list, it sends no search parameter: a non-empty search
 * becomes one more `name contains` clause after the stored ones.
 */
module UserList {
  import opened Wrappers
  import opened JsValues
  import opened ListQuery
  import opened UserSlice

  /** The clause a non-empty search becomes. */
  function SearchClause(search: string): Clause
  {
    Clause("name", "contains", Str(search))
  }

  /** `[...filters, ...(search ? [{ key: 'name', op: 'contains', value: search }] : [])]`. */
  function LoadUsersFilters(filters: seq<Clause>, search: string): (r: seq<Clause>)
    ensures |filters| <= |r| && r[..|filters|] == filters
    ensures search == "" ==> r == filters
    ensures search != "" ==> |r| == |filters| + 1 && r[|filters|] == SearchClause(search)
  {
    filters + (if search != "" then [SearchClause(search)] else [])
  }

  /** The search clause, when there is one, is the only clause added and carries the search verbatim. */
  lemma LoadUsersFiltersAddsOnlySearch(filters: seq<Clause>, search: string)
    ensures |LoadUsersFilters(filters, search)| == |filters| + (if search == "" then 0 else 1)
    ensures forall c :: c in LoadUsersFilters(filters, search) ==> c in filters || (search != "" && c == SearchClause(search))
    ensures search != "" ==> SearchClause(search) in LoadUsersFilters(filters, search)
  {
    var r := LoadUsersFilters(filters, search);
    forall c | c in r ensures c in filters || (search != "" && c == SearchClause(search)) {
      var i :| 0 <= i < |r| && r[i] == c;
      if i < |filters| {
        assert r[..|filters|][i] == c;
      }
    }
  }

  /** The query `loadUsers` sends for a stored state. */
  function UserQueryFor(s: ListSnapshot): UserQuery
  {
    UserQuery(s.pagination.currentPage, s.pagination.perPage, s.sort.sortBy, s.sort.order,
      LoadUsersFilters(s.filters, s.search))
  }

  /**
   * `loadUsers`: sends the stored query, with the search folded into the
   * clauses, and stores the service's answer. The stored clauses and search
   * are not changed by building the request.
   */
  method LoadUsers(store: UserStore, outcome: ServerOutcome) returns (query: UserQuery)
    modifies store
    ensures query == UserQueryFor(old(store.State()))
    ensures query.filters[..|old(store.filters)|] == old(store.filters)
    ensures store.filters == old(store.filters) && store.search == old(store.search)
    ensures store.isSubmitting == old(store.isSubmitting)
    ensures !store.isLoading
    ensures outcome.Response? ==> store.list == outcome.listing.data && store.error == None
    ensures outcome.RequestFailed? ==> store.list == old(store.list) && store.error.Some?
    ensures outcome.Response? ==> store.State() == old(store.State()).(isLoading := false,
      list := outcome.listing.data, pagination := outcome.listing.pagination, sort := outcome.listing.sort,
      error := None)
    ensures outcome.RequestFailed? ==> store.State() == old(store.State()).(isLoading := false,
      error := FetchUsersRejection(outcome.serverMessage))
  {
    query := UserQueryFor(store.State());
    store.RunFetchUsers(outcome);
  }

  /** `handleSort`: the sort becomes exactly the clicked column and direction. */
  method HandleSort(store: UserStore, columnId: string, direction: string)
    modifies store
    ensures store.State() == old(store.State()).(sort := SortSpec(columnId, direction))
  {
    store.SetSort(SortSpec(columnId, direction));
  }

  /** `handlePageChange`: only the current page changes. */
  method HandlePageChange(store: UserStore, page: int)
    modifies store
    ensures store.State() == old(store.State()).(pagination := old(store.pagination).(currentPage := page))
  {
    store.SetPagination(PageOnly(page));
  }

  /** `handleRowsPerPageChange`: the new page size, from page 1. */
  method HandleRowsPerPageChange(store: UserStore, perPage: int)
    modifies store
    ensures store.State() == old(store.State()).(pagination := old(store.pagination).(perPage := perPage, currentPage := 1))
  {
    store.SetPagination(PerPageFromStart(perPage));
  }

  /** `handleSearchChange`: the new search, from page 1; the next load sends it as a clause. */
  method HandleSearchChange(store: UserStore, value: string)
    modifies store
    ensures store.State() == old(store.State()).(search := value, pagination := old(store.pagination).(currentPage := 1))
    ensures UserQueryFor(store.State()).page == 1
    ensures UserQueryFor(store.State()).filters == LoadUsersFilters(old(store.filters), value)
  {
    store.SetSearch(value);
    store.SetPagination(PageOnly(1));
  }

  /** `handleApplyFilters`: the new clause list, from page 1. */
  method HandleApplyFilters(store: UserStore, newFilters: seq<Clause>)
    modifies store
    ensures store.State() == old(store.State()).(filters := newFilters, pagination := old(store.pagination).(currentPage := 1))
  {
    store.SetFilters(newFilters);
    store.SetPagination(PageOnly(1));
  }

  /** `handleResetFilters`: no clauses, no search, page 1; the next load sends no clause at all. */
  method HandleResetFilters(store: UserStore)
    modifies store
    ensures store.State() == old(store.State()).(filters := [], search := "", pagination := old(store.pagination).(currentPage := 1))
    ensures UserQueryFor(store.State()).filters == []
  {
    store.ResetFilters();
    store.SetPagination(PageOnly(1));
  }

  /** `handleDeleteConfirm`: delete, which leaves the page and the query alone, then reload the current query. */
  method HandleDeleteConfirm(store: UserStore, outcome: ServerOutcome) returns (query: UserQuery)
    modifies store
    ensures query == UserQueryFor(old(store.State()))
    ensures !store.isSubmitting && !store.isLoading
    ensures store.filters == old(store.filters) && store.search == old(store.search)
    ensures outcome.Response? ==> store.list == outcome.listing.data && store.error == None
    ensures outcome.RequestFailed? ==> store.list == old(store.list) && store.error.Some?
    ensures outcome.Response? ==> store.State() == old(store.State()).(isSubmitting := false,
      isLoading := false, list := outcome.listing.data, pagination := outcome.listing.pagination,
      sort := outcome.listing.sort, error := None)
    ensures outcome.RequestFailed? ==> store.State() == old(store.State()).(isSubmitting := false,
      isLoading := false, error := FetchUsersRejection(outcome.serverMessage))
  {
    store.DeletePending();
    store.DeleteFulfilled();
    query := LoadUsers(store, outcome);
  }
}
