/**
 * The user store: the same list query state as the document store, filled
 * from the user service instead of a local list. Its create, update and
 * delete cases only toggle the submitting flag or record an error.
 */
module UserSlice {
  import opened Wrappers
  import opened JsValues
  import opened ListQuery

  /** The argument `loadUsers` passes to `fetchUsers`: the search is folded into the clauses. */
  datatype UserQuery = UserQuery(page: int, perPage: int, sortBy: string, order: string, filters: seq<Clause>)

  /** The user service's answer to a list request: a page, or a failure carrying the server's `message` if any. */
  datatype ServerOutcome = Response(listing: Listing) | RequestFailed(serverMessage: Option<string>)

  /** A thrown JavaScript value: an Error object, or a bare string. */
  datatype Thrown = ErrorObject(message: string) | BareString(text: string)

  /** `error.message`: a bare string has no `message` property, so it reads as undefined. */
  function MessageOf(t: Thrown): (r: Option<string>)
    ensures t.ErrorObject? ==> r == Some(t.message)
    ensures t.BareString? ==> r.None?
  {
    match t
    case ErrorObject(m) => Some(m)
    case BareString(_) => None
  }

  /** What `getUsers` throws on a failed request: the server's message when it is non-empty, else a fixed text. */
  function ServiceErrorText(serverMessage: Option<string>): (r: string)
    ensures r != ""
    ensures serverMessage.Some? && serverMessage.value != "" ==> r == serverMessage.value
    ensures serverMessage.None? || serverMessage.value == "" ==> r == "Failed to fetch users"
  {
    match serverMessage
    case Some(m) => if m != "" then m else "Failed to fetch users"
    case None => "Failed to fetch users"
  }

  /**
   * The rejection payload of `fetchUsers` as written: the thrown value is the
   * bare string above, and `rejectWithValue(error.message)` reads its missing
   * `message` property.
   */
  function FetchUsersRejectionAsWritten(serverMessage: Option<string>): Option<string>
  {
    MessageOf(BareString(ServiceErrorText(serverMessage)))
  }

  /** As written, every failed user fetch stores an undefined error, whatever the server said. */
  lemma FetchUsersRejectionLosesMessage(serverMessage: Option<string>)
    ensures ServiceErrorText(serverMessage) != ""
    ensures FetchUsersRejectionAsWritten(serverMessage) == None
  {
  }

  /** The rejection payload `fetchUsers` evidently intends: the text the service threw. */
  function FetchUsersRejection(serverMessage: Option<string>): (r: Option<string>)
    ensures r.Some? && r.value != ""
    ensures serverMessage.Some? && serverMessage.value != "" ==> r == serverMessage
    ensures r != FetchUsersRejectionAsWritten(serverMessage)
  {
    Some(ServiceErrorText(serverMessage))
  }

  /** `{ id: now, ...userData }`: the clock's value is the id unless the submitted data carries one. */
  function CreatedUser(now: int, data: Record): (r: Record)
    ensures r.Keys == data.Keys + {"id"}
    ensures "id" !in data ==> r["id"] == Num(now)
    ensures forall k :: k in data ==> r[k] == data[k]
  {
    map["id" := Num(now)] + data
  }

  class UserStore {
    var list: seq<Record>
    var pagination: PaginationInfo
    var sort: SortSpec
    var filters: seq<Clause>
    var search: string
    var selected: Option<Record>
    var isLoading: bool
    var isSubmitting: bool
    var error: Option<string>

    /** The whole state as one value. */
    function State(): ListSnapshot
      reads this
    {
      ListSnapshot(list, pagination, sort, filters, search, selected, isLoading, isSubmitting, error)
    }

    /** Page 1 of nothing, ten a page, sorted by id ascending, no query, nothing loading. */
    constructor()
      ensures State() == InitialList
    {
      list := [];
      pagination := InitialPagination;
      sort := InitialSort;
      filters := [];
      search := "";
      selected := None;
      isLoading := false;
      isSubmitting := false;
      error := None;
    }

    method SetSearch(value: string)
      modifies this
      ensures State() == old(State()).(search := value)
    {
      search := value;
    }

    method SetSort(value: SortSpec)
      modifies this
      ensures State() == old(State()).(sort := value)
    {
      sort := value;
    }

    method SetFilters(value: seq<Clause>)
      modifies this
      ensures State() == old(State()).(filters := value)
    {
      filters := value;
    }

    /** Only the keys the payload carries change. */
    method SetPagination(patch: PaginationPatch)
      modifies this
      ensures State() == old(State()).(pagination := Merge(old(pagination), patch))
    {
      pagination := Merge(pagination, patch);
    }

    /** Empties the clauses and the search; sort and pagination stay. */
    method ResetFilters()
      modifies this
      ensures State() == old(State()).(filters := [], search := "")
    {
      filters := [];
      search := "";
    }

    method ClearSelected()
      modifies this
      ensures State() == old(State()).(selected := None)
    {
      selected := None;
    }

    // -------------------------------------------------------------------------
    // List query

    method FetchPending()
      modifies this
      ensures State() == old(State()).(isLoading := true)
    {
      isLoading := true;
    }

    /** Page, pagination and sort come from the response; the stored clauses and search stay. */
    method FetchFulfilled(payload: Listing)
      modifies this
      ensures State() == old(State()).(isLoading := false, list := payload.data,
        pagination := payload.pagination, sort := payload.sort, error := None)
    {
      isLoading := false;
      list := payload.data;
      pagination := payload.pagination;
      sort := payload.sort;
      error := None;
    }

    /** The old page stays; the payload, whatever it is, becomes the error. */
    method FetchRejected(payload: Option<string>)
      modifies this
      ensures State() == old(State()).(isLoading := false, error := payload)
    {
      isLoading := false;
      error := payload;
    }

    // -------------------------------------------------------------------------
    // Create, update, delete: the list and the selection are never touched

    method CreatePending()
      modifies this
      ensures State() == old(State()).(isSubmitting := true)
    {
      isSubmitting := true;
    }

    method CreateFulfilled()
      modifies this
      ensures State() == old(State()).(isSubmitting := false)
    {
      isSubmitting := false;
    }

    method CreateRejected(payload: Option<string>)
      modifies this
      ensures State() == old(State()).(isSubmitting := false, error := payload)
    {
      isSubmitting := false;
      error := payload;
    }

    method UpdatePending()
      modifies this
      ensures State() == old(State()).(isSubmitting := true)
    {
      isSubmitting := true;
    }

    method UpdateFulfilled()
      modifies this
      ensures State() == old(State()).(isSubmitting := false)
    {
      isSubmitting := false;
    }

    method UpdateRejected(payload: Option<string>)
      modifies this
      ensures State() == old(State()).(isSubmitting := false, error := payload)
    {
      isSubmitting := false;
      error := payload;
    }

    method DeletePending()
      modifies this
      ensures State() == old(State()).(isSubmitting := true)
    {
      isSubmitting := true;
    }

    method DeleteFulfilled()
      modifies this
      ensures State() == old(State()).(isSubmitting := false)
    {
      isSubmitting := false;
    }

    method DeleteRejected(payload: Option<string>)
      modifies this
      ensures State() == old(State()).(isSubmitting := false, error := payload)
    {
      isSubmitting := false;
      error := payload;
    }

    /**
     * Dispatching `fetchUsers` with the service's answer. A response is
     * stored; a failure keeps the old page and records the thrown text, which
     * is never empty.
     */
    method RunFetchUsers(outcome: ServerOutcome)
      modifies this
      ensures !isLoading
      ensures outcome.Response? ==> State() == old(State()).(isLoading := false, list := outcome.listing.data,
        pagination := outcome.listing.pagination, sort := outcome.listing.sort, error := None)
      ensures outcome.RequestFailed? ==>
        State() == old(State()).(isLoading := false, error := FetchUsersRejection(outcome.serverMessage))
      ensures outcome.RequestFailed? ==> list == old(list) && error.Some? && error.value != ""
    {
      FetchPending();
      match outcome
      case Response(l) => FetchFulfilled(l);
      case RequestFailed(m) => FetchRejected(FetchUsersRejection(m));
    }
  }
}
