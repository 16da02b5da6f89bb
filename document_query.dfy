/**
 * The document thunks of the document store with the delays removed and the
 * mock record list passed in: the four-stage list query, the lookup by id,
 * and the records built for a create and an update.
 */
module DocumentQuery {
  import opened Wrappers
  import opened JsBuiltins
  import opened JsValues
  import opened Seqs
  import opened ListQuery
  import opened Filtering
  import opened Sorting
  import opened Paging

  /**
   * The rejection payload of a list query whose search callback threw. The
   * engine's TypeError message text is not part of this model.
   */
  const SearchTypeError := "TypeError: a search field is not a string"

  /** The rejection payload of a lookup that found nothing. */
  const NotFound := "Document not found"

  /** The sort a list query applies. */
  function SortOf(p: FetchParams): SortSpec
  {
    SortSpec(p.sortBy, p.order)
  }

  /**
   * `fetchDocuments` with the delay removed: search, clause filter, sort and
   * page, in that order. `perPage` must be positive: JavaScript divides by it.
   */
  function FetchDocuments(records: seq<Record>, p: FetchParams): Result<Listing, string>
    requires p.perPage >= 1
  {
    match SearchStage(records, p.search)
    case None => Failure(SearchTypeError)
    case Some(found) =>
      var sorted := SortRecords(FilterStage(found, p.filters), SortOf(p));
      Success(Listing(
        Paginate(sorted, p.page, p.perPage),
        PaginationFor(|sorted|, p.page, p.perPage),
        SortOf(p),
        p.filters))
  }

  /** Whether a record survives both keep stages of query `p`. */
  predicate Selected(d: Record, p: FetchParams)
  {
    (p.search == "" || MatchesSearch(d, p.search)) && MatchesAll(d, p.filters)
  }

  function SelectedFilter(p: FetchParams): Record -> bool
  {
    d => Selected(d, p)
  }

  /** The records a query keeps, in their input order, before sorting. */
  function Selection(records: seq<Record>, p: FetchParams): (r: seq<Record>)
    ensures forall d :: d in r <==> d in records && Selected(d, p)
  {
    Filter(records, SelectedFilter(p))
  }

  /** The search stage throws exactly when the search is non-empty and some record's callback throws. */
  predicate SearchThrows(records: seq<Record>, search: string)
  {
    search != "" && exists i :: 0 <= i < |records| && SearchEval(records[i], Lower(search)).None?
  }

  lemma ClauseStageSelects(records: seq<Record>, p: FetchParams)
    requires p.search == ""
    ensures FilterStage(records, p.filters) == Selection(records, p)
  {
    FilterStageMeaning(records, p.filters);
    FilterExt(records, ClauseFilter(p.filters), SelectedFilter(p));
  }

  lemma BothStagesSelect(records: seq<Record>, p: FetchParams)
    requires p.search != ""
    ensures FilterStage(Filter(records, SearchFilter(p.search)), p.filters) == Selection(records, p)
  {
    FilterStageMeaning(Filter(records, SearchFilter(p.search)), p.filters);
    FilterFilter(records, SearchFilter(p.search), ClauseFilter(p.filters));
    FilterExt(records, Both(SearchFilter(p.search), ClauseFilter(p.filters)), SelectedFilter(p));
  }

  /** When the search stage returns, search and clause filter together keep exactly the selection. */
  lemma KeepStagesSelect(records: seq<Record>, p: FetchParams)
    requires SearchStage(records, p.search).Some?
    ensures FilterStage(SearchStage(records, p.search).value, p.filters) == Selection(records, p)
  {
    if p.search == "" {
      ClauseStageSelects(records, p);
    } else {
      SearchStageMeaning(records, p.search);
      BothStagesSelect(records, p);
    }
  }

  /** A contiguous run of a sorted sequence is sorted. */
  lemma SortedSlice<T>(s: seq<T>, lt: (T, T) -> bool, start: int, end: int)
    requires Sorted(s, lt)
    ensures Sorted(Slice(s, start, end), lt)
  {
    var from, to := ResolveIndex(start, |s|), ResolveIndex(end, |s|);
    if from < to {
      var w := s[from..to];
      forall i, j | 0 <= i < j < |w| ensures !lt(w[j], w[i]) {
        assert w[i] == s[from + i] && w[j] == s[from + j];
      }
    }
  }

  /** The query fails exactly when the search callback throws, which needs a record whose searched field is not text. */
  lemma FetchFailure(records: seq<Record>, p: FetchParams)
    requires p.perPage >= 1
    ensures FetchDocuments(records, p).Failure? <==> SearchThrows(records, p.search)
    ensures FetchDocuments(records, p).Failure? ==> FetchDocuments(records, p).error == SearchTypeError
    ensures (forall i :: 0 <= i < |records| ==> HasTextFields(records[i])) ==> FetchDocuments(records, p).Success?
  {
    SearchAllMeaning(records, p.search);
    SearchStageMeaning(records, p.search);
  }

  /**
   * A successful query reports the size of the selection, its page count
   * `ceil(total / perPage)`, the page and page size it was asked for, the
   * next/previous flags, and echoes its sort and clauses.
   */
  lemma FetchPagination(records: seq<Record>, p: FetchParams)
    requires p.perPage >= 1
    requires FetchDocuments(records, p).Success?
    ensures var info := FetchDocuments(records, p).value.pagination;
      && info.totalRecords == |Selection(records, p)|
      && info.totalPages == CeilDiv(|Selection(records, p)|, p.perPage)
      && info.currentPage == p.page && info.perPage == p.perPage
      && (info.hasNext <==> p.page < info.totalPages)
      && (info.hasPrev <==> p.page > 1)
    ensures FetchDocuments(records, p).value.sort == SortSpec(p.sortBy, p.order)
    ensures FetchDocuments(records, p).value.filters == p.filters
  {
    KeepStagesSelect(records, p);
    SortSpecification(FilterStage(SearchStage(records, p.search).value, p.filters), SortOf(p));
  }

  /**
   * A successful query's page is the requested window of the sorted selection:
   * at most `perPage` records, each one an input record that satisfies the
   * search and every clause, ordered by the sort key in the requested
   * direction, and empty exactly when a page counted from 1 lies past the last.
   */
  lemma FetchPage(records: seq<Record>, p: FetchParams)
    requires p.perPage >= 1
    requires FetchDocuments(records, p).Success?
    ensures var data := FetchDocuments(records, p).value.data;
      && data == Paginate(SortRecords(Selection(records, p), SortOf(p)), p.page, p.perPage)
      && |data| <= p.perPage
      && (forall d :: d in data ==> d in records && Selected(d, p))
      && (forall i, j :: 0 <= i < j < |data| ==> !Before(data[j], data[i], SortOf(p)))
      && (p.page >= 1 ==> (data == [] <==> p.page > FetchDocuments(records, p).value.pagination.totalPages))
  {
    KeepStagesSelect(records, p);
    var sel := Selection(records, p);
    assert FetchDocuments(records, p).value.data == Paginate(SortRecords(sel, SortOf(p)), p.page, p.perPage);
    assert FetchDocuments(records, p).value.pagination.totalPages == CeilDiv(|SortRecords(sel, SortOf(p))|, p.perPage);
    SortedPage(sel, SortOf(p), p.page, p.perPage);
  }

  /** A page of a sorted selection: short enough, drawn from the selection, ordered, and empty exactly past the last page. */
  lemma SortedPage(sel: seq<Record>, spec: SortSpec, page: int, perPage: int)
    requires perPage >= 1
    ensures var sorted := SortRecords(sel, spec);
      var data := Paginate(sorted, page, perPage);
      && |data| <= perPage
      && (forall d :: d in data ==> d in sel)
      && (forall i, j :: 0 <= i < j < |data| ==> !Before(data[j], data[i], spec))
      && (page >= 1 ==> (data == [] <==> page > CeilDiv(|sorted|, perPage)))
  {
    var sorted := SortRecords(sel, spec);
    var start := PageStart(page, perPage);
    SortSpecification(sel, spec);
    SliceBounds(sorted, start, start + perPage);
    forall d | d in Paginate(sorted, page, perPage) ensures d in sel {
      assert d in multiset(sorted);
    }
    ComparatorIsStrictWeakOrder(spec);
    InsertionSortSorts(sel, Comparator(spec));
    SortedSlice(sorted, Comparator(spec), start, start + perPage);
    if page >= 1 {
      PageWindow(sorted, page, perPage);
    }
  }

  /** The sorted selection behind the pages is a stable permutation of the selection. */
  lemma FetchSortsSelection(records: seq<Record>, p: FetchParams)
    ensures multiset(SortRecords(Selection(records, p), SortOf(p))) == multiset(Selection(records, p))
    ensures forall x ::
              TiesOf(SortRecords(Selection(records, p), SortOf(p)), x, Comparator(SortOf(p)))
              == TiesOf(Selection(records, p), x, Comparator(SortOf(p)))
  {
    SortSpecification(Selection(records, p), SortOf(p));
  }

  /** With no search and no clauses every record is counted, and the query cannot fail. */
  lemma FetchWithoutQuery(records: seq<Record>, p: FetchParams)
    requires p.perPage >= 1 && p.search == "" && p.filters == []
    ensures FetchDocuments(records, p).Success?
    ensures FetchDocuments(records, p).value.pagination.totalRecords == |records|
  {
    FetchFailure(records, p);
    FetchPagination(records, p);
    FilterAll(records, SelectedFilter(p));
  }

  /** Adding a clause can only shrink the selection. */
  lemma MoreClausesSelectFewer(records: seq<Record>, p: FetchParams, c: Clause)
    ensures var q := p.(filters := p.filters + [c]);
      forall d :: d in Selection(records, q) ==> d in Selection(records, p)
  {
    var q := p.(filters := p.filters + [c]);
    forall d | d in Selection(records, q) ensures d in Selection(records, p) {
      MatchesAllAppend(d, p.filters, [c]);
    }
  }

  // ---------------------------------------------------------------------------
  // Lookup, create, update

  /** Whether record `d`'s id is the number `n` (`doc.id === n`). */
  predicate HasId(d: Record, n: int)
  {
    StrictEq(Get(d, "id"), Num(n))
  }

  /** `records.find(doc => doc.id === n)`. */
  function FindById(records: seq<Record>, n: int): (r: Option<Record>)
    ensures r.None? <==> forall i :: 0 <= i < |records| ==> !HasId(records[i], n)
    ensures r.Some? ==>
      exists i :: (0 <= i < |records| && records[i] == r.value
        && HasId(records[i], n) && forall j :: 0 <= j < i ==> !HasId(records[j], n))
    decreases |records|
  {
    if records == [] then None
    else if HasId(records[0], n) then Some(records[0])
    else
      var r := FindById(records[1..], n);
      assert forall i :: 1 <= i < |records| ==> records[i] == records[1..][i - 1];
      assert r.Some? ==>
        exists i :: (0 <= i < |records| && records[i] == r.value
          && HasId(records[i], n) && forall j :: 0 <= j < i ==> !HasId(records[j], n)) by {
        if r.Some? {
          var i :| 0 <= i < |records[1..]| && records[1..][i] == r.value
            && HasId(records[1..][i], n) && forall j :: 0 <= j < i ==> !HasId(records[1..][j], n);
          assert records[i + 1] == r.value;
        }
      }
      r
  }

  /**
   * `getDocumentById`: the first record whose id is `Number(documentId)`;
   * an id that converts to NaN matches nothing.
   */
  function FindDocument(records: seq<Record>, documentId: Value): (r: Result<Record, string>)
    ensures r.Failure? ==> r.error == NotFound
    ensures r.Failure? <==> (ToNumber(documentId).None?
      || forall i :: 0 <= i < |records| ==> !HasId(records[i], ToNumber(documentId).value))
    ensures r.Success? ==> r.value in records && Get(r.value, "id") == Num(ToNumber(documentId).value)
  {
    match ToNumber(documentId)
    case None => Failure(NotFound)
    case Some(n) =>
      match FindById(records, n)
      case None => Failure(NotFound)
      case Some(d) => Success(d)
  }

  /** A route parameter naming an id finds the record with that id. */
  lemma FindDocumentByRouteParam(records: seq<Record>, n: int)
    requires exists i :: 0 <= i < |records| && Get(records[i], "id") == Num(n)
    ensures FindDocument(records, Str(NumToString(n))).Success?
    ensures Get(FindDocument(records, Str(NumToString(n))).value, "id") == Num(n)
  {
    var id := Str(NumToString(n));
    StringToNumberOfNumToString(n);
    ToNumberOfString(NumToString(n));
    FindDocumentByNumber(records, id, n);
  }

  /** Written with a zero fraction, an id still finds its record: `"1.0"` names document 1. */
  lemma FindDocumentByZeroFraction(records: seq<Record>, n: int)
    requires exists i :: 0 <= i < |records| && Get(records[i], "id") == Num(n)
    ensures FindDocument(records, Str(NumToString(n) + ".0")).Success?
    ensures Get(FindDocument(records, Str(NumToString(n) + ".0")).value, "id") == Num(n)
  {
    var id := Str(NumToString(n) + ".0");
    IntegerValuedNumerals(n);
    ToNumberOfString(NumToString(n) + ".0");
    FindDocumentByNumber(records, id, n);
  }

  /** An id that converts to a number held by some record finds a record with that id. */
  lemma FindDocumentByNumber(records: seq<Record>, id: Value, n: int)
    requires ToNumber(id) == Some(n)
    requires exists i :: 0 <= i < |records| && Get(records[i], "id") == Num(n)
    ensures FindDocument(records, id).Success?
    ensures Get(FindDocument(records, id).value, "id") == Num(n)
  {
    var i :| 0 <= i < |records| && Get(records[i], "id") == Num(n);
    HasIdMeaning(records[i], n);
    var d := FindById(records, n).value;
    var k :| 0 <= k < |records| && records[k] == d && HasId(records[k], n);
    HasIdMeaning(d, n);
    assert FindDocument(records, id) == Success(d);
  }

  /** A record has id `n` exactly when its id property is the number `n`. */
  lemma HasIdMeaning(d: Record, n: int)
    ensures HasId(d, n) <==> Get(d, "id") == Num(n)
  {
  }

  /**
   * `{ id: count + 1, ...documentData, created_at: now, updated_at: now }`:
   * the submitted fields win over the generated id, and both timestamps are `now`.
   */
  function CreatedDocument(count: int, data: Record, now: string): (r: Record)
    ensures r.Keys == data.Keys + {"id", "created_at", "updated_at"}
    ensures r["created_at"] == Str(now) && r["updated_at"] == Str(now)
    ensures "id" !in data ==> r["id"] == Num(count + 1)
    ensures forall k :: k in data && k != "created_at" && k != "updated_at" ==> r[k] == data[k]
  {
    map["id" := Num(count + 1)] + data + map["created_at" := Str(now), "updated_at" := Str(now)]
  }

  /** `{ ...documentData, updated_at: now }`: every submitted field kept, only the timestamp replaced. */
  function UpdatedDocument(data: Record, now: string): (r: Record)
    ensures r.Keys == data.Keys + {"updated_at"}
    ensures r["updated_at"] == Str(now)
    ensures forall k :: k in data && k != "updated_at" ==> r[k] == data[k]
  {
    data["updated_at" := Str(now)]
  }
}
