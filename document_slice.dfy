/**
 * The document store: the list query state, the record open in a form and
 * the request flags, with one method per reducer and per thunk lifecycle
 * case. Each method changes the fields its reducer assigns and no other.
 */
module DocumentSlice {
  import opened Wrappers
  import opened JsValues
  import opened ListQuery
  import opened Filtering
  import opened Sorting
  import opened Paging
  import opened DocumentQuery

  class DocumentStore {
    var list: seq<Record>
    var pagination: PaginationInfo
    var sort: SortSpec
    var filters: seq<Clause>
    var search: string
    var selected: Option<Record>
    var isLoading: bool
    var isSubmitting: bool
    var error: Option<string>

    /** The whole state as one value. */
    function State(): ListSnapshot
      reads this
    {
      ListSnapshot(list, pagination, sort, filters, search, selected, isLoading, isSubmitting, error)
    }

    /** Page 1 of nothing, ten a page, sorted by id ascending, no query, nothing loading. */
    constructor()
      ensures State() == InitialList
    {
      list := [];
      pagination := InitialPagination;
      sort := InitialSort;
      filters := [];
      search := "";
      selected := None;
      isLoading := false;
      isSubmitting := false;
      error := None;
    }

    method SetSearch(value: string)
      modifies this
      ensures State() == old(State()).(search := value)
    {
      search := value;
    }

    method SetSort(value: SortSpec)
      modifies this
      ensures State() == old(State()).(sort := value)
    {
      sort := value;
    }

    method SetFilters(value: seq<Clause>)
      modifies this
      ensures State() == old(State()).(filters := value)
    {
      filters := value;
    }

    /** Only the keys the payload carries change. */
    method SetPagination(patch: PaginationPatch)
      modifies this
      ensures State() == old(State()).(pagination := Merge(old(pagination), patch))
    {
      pagination := Merge(pagination, patch);
    }

    /** Empties the clauses and the search; sort and pagination stay. */
    method ResetFilters()
      modifies this
      ensures State() == old(State()).(filters := [], search := "")
    {
      filters := [];
      search := "";
    }

    method ClearSelected()
      modifies this
      ensures State() == old(State()).(selected := None)
    {
      selected := None;
    }

    // -------------------------------------------------------------------------
    // List query

    method FetchPending()
      modifies this
      ensures State() == old(State()).(isLoading := true)
    {
      isLoading := true;
    }

    /** The page, its pagination and its sort replace the old ones; the payload's clauses are not stored. */
    method FetchFulfilled(payload: Listing)
      modifies this
      ensures State() == old(State()).(isLoading := false, list := payload.data,
        pagination := payload.pagination, sort := payload.sort, error := None)
    {
      isLoading := false;
      list := payload.data;
      pagination := payload.pagination;
      sort := payload.sort;
      error := None;
    }

    /** The old page stays on screen; only the error is recorded. */
    method FetchRejected(payload: Option<string>)
      modifies this
      ensures State() == old(State()).(isLoading := false, error := payload)
    {
      isLoading := false;
      error := payload;
    }

    // -------------------------------------------------------------------------
    // Lookup by id

    method GetByIdPending()
      modifies this
      ensures State() == old(State()).(isLoading := true)
    {
      isLoading := true;
    }

    method GetByIdFulfilled(payload: Record)
      modifies this
      ensures State() == old(State()).(isLoading := false, selected := Some(payload), error := None)
    {
      isLoading := false;
      selected := Some(payload);
      error := None;
    }

    /** A failed lookup keeps whatever record was selected before. */
    method GetByIdRejected(payload: Option<string>)
      modifies this
      ensures State() == old(State()).(isLoading := false, error := payload)
    {
      isLoading := false;
      error := payload;
    }

    // -------------------------------------------------------------------------
    // Create, update, delete

    method CreatePending()
      modifies this
      ensures State() == old(State()).(isSubmitting := true)
    {
      isSubmitting := true;
    }

    method CreateFulfilled(payload: Record)
      modifies this
      ensures State() == old(State()).(isSubmitting := false, selected := Some(payload))
    {
      isSubmitting := false;
      selected := Some(payload);
    }

    method CreateRejected(payload: Option<string>)
      modifies this
      ensures State() == old(State()).(isSubmitting := false, error := payload)
    {
      isSubmitting := false;
      error := payload;
    }

    method UpdatePending()
      modifies this
      ensures State() == old(State()).(isSubmitting := true)
    {
      isSubmitting := true;
    }

    method UpdateFulfilled(payload: Record)
      modifies this
      ensures State() == old(State()).(isSubmitting := false, selected := Some(payload))
    {
      isSubmitting := false;
      selected := Some(payload);
    }

    method UpdateRejected(payload: Option<string>)
      modifies this
      ensures State() == old(State()).(isSubmitting := false, error := payload)
    {
      isSubmitting := false;
      error := payload;
    }

    method DeletePending()
      modifies this
      ensures State() == old(State()).(isSubmitting := true)
    {
      isSubmitting := true;
    }

    /** The deleted id is not used: the selection is cleared and the list is left for the next fetch. */
    method DeleteFulfilled()
      modifies this
      ensures State() == old(State()).(isSubmitting := false, selected := None)
    {
      isSubmitting := false;
      selected := None;
    }

    method DeleteRejected(payload: Option<string>)
      modifies this
      ensures State() == old(State()).(isSubmitting := false, error := payload)
    {
      isSubmitting := false;
      error := payload;
    }

    // -------------------------------------------------------------------------
    // Whole thunk runs: pending, then the outcome of the thunk body

    /**
     * Dispatching `fetchDocuments(p)` over the record list `records`. On success
     * the stored page holds at most `perPage` records, each matching the query,
     * in sort order, and the stored total counts the whole selection; on
     * failure the old page stays and the error is recorded.
     */
    method RunFetch(records: seq<Record>, p: FetchParams)
      requires p.perPage >= 1
      modifies this
      ensures !isLoading
      ensures match FetchDocuments(records, p)
        case Success(l) => State() == old(State()).(isLoading := false, list := l.data,
          pagination := l.pagination, sort := l.sort, error := None)
        case Failure(e) => State() == old(State()).(isLoading := false, error := Some(e))
      ensures FetchDocuments(records, p).Success? ==>
        && |list| <= p.perPage
        && (forall d :: d in list ==> d in records && Selected(d, p))
        && (forall i, j :: 0 <= i < j < |list| ==> !Before(list[j], list[i], SortOf(p)))
        && pagination.totalRecords == |Selection(records, p)|
        && sort == SortSpec(p.sortBy, p.order)
    {
      FetchPending();
      var outcome := FetchDocuments(records, p);
      match outcome
      case Success(l) =>
        FetchPage(records, p);
        FetchPagination(records, p);
        FetchFulfilled(l);
      case Failure(e) =>
        FetchRejected(Some(e));
    }

    /** Dispatching `getDocumentById(id)`: an unknown id records "Document not found" and keeps the selection. */
    method RunGetById(records: seq<Record>, documentId: Value)
      modifies this
      ensures !isLoading
      ensures match FindDocument(records, documentId)
        case Success(d) => State() == old(State()).(isLoading := false, selected := Some(d), error := None)
        case Failure(e) => State() == old(State()).(isLoading := false, error := Some(e))
      ensures FindDocument(records, documentId).Failure? ==>
        selected == old(selected) && error == Some(NotFound)
    {
      GetByIdPending();
      match FindDocument(records, documentId)
      case Success(d) => GetByIdFulfilled(d);
      case Failure(e) => GetByIdRejected(Some(e));
    }

    /** Dispatching `createDocument(data)`: the new record, with its generated id and timestamps, becomes the selection. */
    method RunCreate(count: int, data: Record, now: string)
      modifies this
      ensures State() == old(State()).(isSubmitting := false, selected := Some(CreatedDocument(count, data, now)))
    {
      CreatePending();
      CreateFulfilled(CreatedDocument(count, data, now));
    }

    /** Dispatching `updateDocument(data)`: the submitted record, re-stamped, becomes the selection. */
    method RunUpdate(data: Record, now: string)
      modifies this
      ensures State() == old(State()).(isSubmitting := false, selected := Some(UpdatedDocument(data, now)))
    {
      UpdatePending();
      UpdateFulfilled(UpdatedDocument(data, now));
    }

    /** Dispatching `deleteDocument(id)`: the selection is cleared. */
    method RunDelete()
      modifies this
      ensures State() == old(State()).(isSubmitting := false, selected := None)
    {
      DeletePending();
      DeleteFulfilled();
    }
  }
}
